/**
  When a wrap-up command goes through, what it then stores and answers, and which error it gives
  otherwise: told on the request's own fields and the stored rows, after any run of both paths.
*/
module WrapupAnswers {
  import opened Prelude
  import opened Strings
  import opened Wrapup
  import opened WrapupRuns

  // ---- identifiers ----

  const TEMPLATE := "xxxxxxxx-xxxx-Vxxx-Nxxx-xxxxxxxxxxxx"

  /** A character at a place of the template: `V` is the version digit, `N` the variant. */
  predicate Fits(c: char, place: char) {
    match place
    case '-' => c == '-'
    case 'V' => c in "12345"
    case 'N' => c in "89abAB"
    case _ => c in "0123456789abcdefABCDEF"
  }

  lemma FitsIff(c: char)
    ensures (Fits(c, 'V') <==> '1' <= c <= '5') && (Fits(c, 'x') <==> IsHex(c))
  {
  }

  lemma UuidIff(s: string)
    ensures IsUuid(s) <==> |s| == 36 && forall k :: 0 <= k < 36 ==> Fits(s[k], TEMPLATE[k])
  {
    TemplateMarks(TEMPLATE);
    forall c: char ensures (Fits(c, 'V') <==> '1' <= c <= '5') && (Fits(c, 'x') <==> IsHex(c)) { FitsIff(c); }
    if |s| == 36 && forall k :: 0 <= k < 36 ==> Fits(s[k], TEMPLATE[k]) {
      assert Fits(s[14], TEMPLATE[14]) && Fits(s[19], TEMPLATE[19]);
    }
  }

  lemma TemplateMarks(t: string)
    requires t == TEMPLATE
    ensures |t| == 36 && t[14] == 'V' && t[19] == 'N'
    ensures forall k :: 0 <= k < 36 && k != 14 && k != 19 ==> t[k] == if k in {8, 13, 18, 23} then '-' else 'x'
  {
  }

  // ---- the V1 body ----

  /** The note with LF line ends, as it stands between white space: `note` is the part from `i` to `j`. */
  predicate NoteIs(typed: string, note: string, i: nat, j: nat) {
    IsTrimmed(UnixLines(typed), i, j) && note == UnixLines(typed)[i..j]
  }

  /** A valid body, with its disposition, stored note and command. */
  ghost predicate BodyIs(b: Body, disposition: string, note: string, command: Id) {
    && b.Object? && !b.extraKeys
    && b.disposition == Some(disposition) && disposition in {"CUSTOMER_ASSISTED", "FOLLOW_UP_REQUIRED"}
    && b.note.Some? && '\0' !in b.note.value && 1 <= |note| <= 2000
       && (exists i: nat, j: nat :: NoteIs(b.note.value, note, i, j))
    && b.commandId.Some? && IsUuid(b.commandId.value) && command == Lower(b.commandId.value)
  }

  lemma NoteIsIff(typed: string, note: string)
    ensures (exists i: nat, j: nat :: NoteIs(typed, note, i, j)) <==> note == Normalise(typed)
  {
    var a, b := TrimShape(UnixLines(typed));
    assert note == Normalise(typed) ==> NoteIs(typed, note, a, b);
    forall i: nat, j: nat | NoteIs(typed, note, i, j) ensures note == Normalise(typed) {
      TrimmedUnique(UnixLines(typed), i, j);
    }
  }

  lemma BodyIsIff(b: Body, disposition: string, note: string, command: Id)
    ensures BodyIs(b, disposition, note, command) <==> InputFrom(b) == Some(Input(disposition, note, command))
  {
    if b.Object? && b.note.Some? { NoteIsIff(b.note.value, note); }
  }

  ghost predicate ValidBody(b: Body) {
    exists disposition, note, command :: BodyIs(b, disposition, note, command)
  }

  lemma ValidBodyIff(b: Body)
    ensures ValidBody(b) <==> InputFrom(b).Some?
  {
    if InputFrom(b).Some? {
      var i := InputFrom(b).value;
      BodyIsIff(b, i.disposition, i.note, i.commandId);
    }
    forall d, n, c | BodyIs(b, d, n, c) ensures InputFrom(b).Some? { BodyIsIff(b, d, n, c); }
  }

  // ---- when a save goes through ----

  /** An active agent's own voice interaction. */
  predicate Owns(db: Db, actor: Id, id: Id) {
    && actor in db.agents && id in db.interactions
    && db.interactions[id].agent == Some(actor) && db.interactions[id].voice
  }

  /** The interaction waits for a V1 wrap-up. */
  predicate AwaitsV1(db: Db, id: Id) {
    id in db.interactions && db.interactions[id].policy == VOICE_NOTE_V1 && db.interactions[id].stage == WRAPUP
  }

  /** The command has been saved before, with this payload. */
  predicate SavedBefore(db: Db, actor: Id, id: Id, disposition: string, note: string, command: Id) {
    && id in db.results && db.results[id].owner == actor && db.results[id].commandId == command
    && db.results[id].disposition == disposition && db.results[id].note == note
  }

  /** What the invariant says of one interaction and one command. */
  predicate Sound(db: Db, id: Id, c: Id) {
    && (id in db.results ==> ResultOk(db, id))
    && (c in db.receipts ==> ReceiptOk(db, c))
    && (c in db.receipts && db.receipts[c].resource in db.results ==> ResultOk(db, db.receipts[c].resource))
  }

  lemma Known(steps: seq<Step>, id: Id, c: Id)
    ensures Sound(Run(EMPTY, steps).db, id, c)
  {
    InvRun(steps);
  }

  /**
    After any run, a save is answered Ok exactly if the request is valid, the agent owns the interaction,
    and either the command is unused and the interaction waits for it, or this very save was made before.
  */
  lemma SaveSucceedsIff(
      steps: seq<Step>, actor: Id, resource: string, body: Body, now: int, d: string, n: string, c: Id)
    requires BodyIs(body, d, n, c)
    ensures var db, id := Run(EMPTY, steps).db, Lower(resource);
            Save(db, actor, resource, body, now).1.Ok? <==>
              && IsUuid(resource) && Owns(db, actor, id)
              && (if c in db.receipts then SavedBefore(db, actor, id, d, n, c) else AwaitsV1(db, id))
  {
    BodyIsIff(body, d, n, c);
    Known(steps, Lower(resource), c);
    SucceedsIn(Run(EMPTY, steps).db, actor, resource, body, now, d, n, c);
  }

  lemma SucceedsIn(db: Db, actor: Id, resource: string, body: Body, now: int, d: string, n: string, c: Id)
    requires InputFrom(body) == Some(Input(d, n, c)) && Sound(db, Lower(resource), c)
    ensures Save(db, actor, resource, body, now).1.Ok? <==>
              && IsUuid(resource) && Owns(db, actor, Lower(resource))
              && (if c in db.receipts then SavedBefore(db, actor, Lower(resource), d, n, c)
                  else AwaitsV1(db, Lower(resource)))
  {
  }

  /** What the first save of a command stores, all told, and its answer. */
  lemma SaveStores(steps: seq<Step>, actor: Id, resource: string, body: Body, now: int, d: string, n: string, c: Id)
    requires BodyIs(body, d, n, c) && IsUuid(resource)
    requires var db := Run(EMPTY, steps).db;
             Owns(db, actor, Lower(resource)) && AwaitsV1(db, Lower(resource)) && c !in db.receipts
    ensures var db, id := Run(EMPTY, steps).db, Lower(resource);
            var (db', reply) := Save(db, actor, resource, body, now);
            && reply == Ok(View(id, Some(1), Some(d), Some(n), now, SERVER_COMMIT, false))
            && db'.results == db.results[id := WrapupResult(actor, d, n, now, c)]
            && db'.interactions
               == db.interactions[id := db.interactions[id].(stage := COMPLETED, wrapUpCode := Some(d))]
            && db'.events == db.events + [Event(id, d, c, now)]
            && db'.stateLogs == db.stateLogs + [StateLog(actor, "AVAILABLE", "wrapup_completed")]
            && c in db'.receipts && db'.receipts == db.receipts[c := db'.receipts[c]]
            && db'.receipts[c]
               == Receipt(actor, V1_SUBMIT, id, Some(Sha256(actor, id, d, n)), Summary(id, Some(1), d, Some(now)))
            && db'.agents == db.agents
  {
    BodyIsIff(body, d, n, c);
    Known(steps, Lower(resource), c);
  }

  /** The errors that every valid request can meet, the first that applies, and that no error changes anything. */
  predicate RefusedRightly(db: Db, actor: Id, id: Id, valid: bool, db': Db, reply: Result<View, Code>) {
    && (reply.Err? ==> db' == db)
    && (reply == Err(ValidationFailed) <==> !valid)
    && (reply == Err(AgentRequired) <==> valid && actor !in db.agents)
    && (reply == Err(InteractionNotFound) <==> valid && actor in db.agents && !Owns(db, actor, id))
    && reply != Err(ResultNotCommitted) && reply != Err(WrapupSaveFailed)
  }

  lemma SaveRefusals(steps: seq<Step>, actor: Id, resource: string, body: Body, now: int)
    ensures var db := Run(EMPTY, steps).db;
            var (db', reply) := Save(db, actor, resource, body, now);
            RefusedRightly(db, actor, Lower(resource), IsUuid(resource) && ValidBody(body), db', reply)
  {
    ValidBodyIff(body);
    Known(steps, Lower(resource), if InputFrom(body).Some? then InputFrom(body).value.commandId else "");
    RefusalsIn(Run(EMPTY, steps).db, actor, resource, body, now);
  }

  lemma RefusalsIn(db: Db, actor: Id, resource: string, body: Body, now: int)
    requires Sound(db, Lower(resource), if InputFrom(body).Some? then InputFrom(body).value.commandId else "")
    ensures var (db', reply) := Save(db, actor, resource, body, now);
            RefusedRightly(db, actor, Lower(resource), IsUuid(resource) && InputFrom(body).Some?, db', reply)
  {
  }

  /** The conflicts of a valid save of an own interaction. */
  predicate ConflictsRightly(db: Db, id: Id, actor: Id, d: string, n: string, c: Id, reply: Result<View, Code>)
    requires id in db.interactions
  {
    var i := db.interactions[id];
    if c in db.receipts then
      var mine := id in db.results && db.results[id].commandId == c && db.results[id].owner == actor;
      && (reply == Err(CommandIdReused) <==> !mine)
      && (reply == Err(CommandPayloadMismatch) <==>
            mine && (db.results[id].disposition != d || db.results[id].note != n))
    else
      && (reply == Err(WrapupPolicyMismatch) <==> i.policy == LEGACY)
      && (reply == Err(InteractionAlreadyCompleted) <==> i.policy == VOICE_NOTE_V1 && i.stage == COMPLETED)
      && (reply == Err(InteractionNotInWrapup) <==> i.policy == VOICE_NOTE_V1 && i.stage.Elsewhere?)
  }

  lemma SaveConflicts(steps: seq<Step>, actor: Id, resource: string, body: Body, now: int, d: string, n: string, c: Id)
    requires BodyIs(body, d, n, c) && IsUuid(resource) && Owns(Run(EMPTY, steps).db, actor, Lower(resource))
    ensures var db := Run(EMPTY, steps).db;
            ConflictsRightly(db, Lower(resource), actor, d, n, c, Save(db, actor, resource, body, now).1)
  {
    BodyIsIff(body, d, n, c);
    Known(steps, Lower(resource), c);
    ConflictsIn(Run(EMPTY, steps).db, actor, resource, body, now, d, n, c);
  }

  lemma ConflictsIn(db: Db, actor: Id, resource: string, body: Body, now: int, d: string, n: string, c: Id)
    requires InputFrom(body) == Some(Input(d, n, c)) && IsUuid(resource)
    requires Owns(db, actor, Lower(resource)) && Sound(db, Lower(resource), c)
    ensures ConflictsRightly(db, Lower(resource), actor, d, n, c, Save(db, actor, resource, body, now).1)
  {
  }

  // ---- the legacy path ----

  /** `^[A-Z][A-Z0-9_]{1,79}$` */
  predicate UpperCode(d: string) {
    && 2 <= |d| <= 80 && d[0] in "ABCDEFGHIJKLMNOPQRSTUVWXYZ"
    && forall k :: 0 <= k < |d| ==> d[k] in "ABCDEFGHIJKLMNOPQRSTUVWXYZ0123456789_"
  }

  lemma UpperCodeIff(d: string)
    ensures LegacyDispositionOk(d) <==> UpperCode(d)
  {
    assert forall c: char :: 'A' <= c <= 'Z' <==> c in "ABCDEFGHIJKLMNOPQRSTUVWXYZ";
    assert forall c: char :: CodeChar(c) <==> c in "ABCDEFGHIJKLMNOPQRSTUVWXYZ0123456789_";
  }

  predicate ValidLegacy(b: LegacyBody) {
    && !b.hasNote && b.disposition.Some? && UpperCode(b.disposition.value)
    && b.commandId.Some? && IsUuid(b.commandId.value)
  }

  /** The agent's interaction, voice or not, is in wrap-up; that the agent is active is not asked here. */
  predicate InWrapupWith(db: Db, actor: Id, id: Id) {
    id in db.interactions && db.interactions[id].agent == Some(actor) && db.interactions[id].stage == WRAPUP
  }

  /** What a submit answers, in any state, and what it will write if it goes on. */
  lemma LegacyAnswers(db: Db, actor: Id, resource: string, b: LegacyBody)
    ensures var read := LegacyBegin(db, actor, resource, b);
            var id, valid := Lower(resource), ValidLegacy(b) && IsUuid(resource);
            && (read == Refused(ValidationFailed) <==> !valid)
            && (valid ==>
                  var c := Lower(b.commandId.value);
                  if c in db.receipts then
                    var r := db.receipts[c];
                    var mine := r.actor == actor && r.action == SUBMIT && r.resource == resource;
                    read == if mine then Replayed(r.result) else Refused(CommandIdReused)
                  else if !InWrapupWith(db, actor, id) then read == Refused(InteractionNotFound)
                  else if db.interactions[id].policy == VOICE_NOTE_V1 then read == Refused(WrapupV1Required)
                  else read == Go(LegacyTx(actor, id, b.disposition.value, b.commandId.value)))
  {
    if b.disposition.Some? { UpperCodeIff(b.disposition.value); }
  }

  /** What the writes of a submit leave, if its command is unused by then. */
  lemma LegacyStores(db: Db, tx: LegacyTx, now: int)
    requires Lower(tx.command) !in db.receipts
    ensures var db' := LegacyCommit(db, tx, now);
            && db'.interactions.Keys == db.interactions.Keys
            && (forall k | k in db.interactions ::
                  db'.interactions[k] ==
                  if k == tx.id && InWrapupWith(db, tx.actor, tx.id)
                  then db.interactions[k].(stage := COMPLETED, wrapUpCode := Some(tx.disposition))
                  else db.interactions[k])
            && db'.events == db.events + [Event(tx.id, tx.disposition, tx.command, now)]
            && db'.stateLogs == db.stateLogs + [StateLog(tx.actor, "AVAILABLE", "wrapup_completed")]
            && Lower(tx.command) in db'.receipts
            && db'.receipts == db.receipts[Lower(tx.command) := db'.receipts[Lower(tx.command)]]
            && db'.receipts[Lower(tx.command)]
               == Receipt(tx.actor, SUBMIT, tx.id, None, Summary(tx.id, None, tx.disposition, None))
            && db'.results == db.results && db'.agents == db.agents
  {
  }

  // ---- the reads ----

  /** Position `k` holds the earliest completion event of the interaction: by time, then by id. */
  predicate EarliestAt(events: seq<Event>, id: Id, k: nat) {
    && k < |events| && events[k].interaction == id
    && forall j :: 0 <= j < |events| && events[j].interaction == id ==>
         if j < k then events[k].createdAt < events[j].createdAt else events[k].createdAt <= events[j].createdAt
  }

  /** The detail and the list both show the earliest event there is. */
  lemma {:induction false} FirstEventMeaning(events: seq<Event>, id: Id)
    ensures FirstEvent(events, id) == None <==> forall k :: 0 <= k < |events| ==> events[k].interaction != id
    ensures forall k: nat :: EarliestAt(events, id, k) ==> FirstEvent(events, id) == Some(events[k])
    ensures FirstEvent(events, id).Some? ==> exists k: nat :: EarliestAt(events, id, k)
  {
    if events != [] {
      var init, n := Init(events), |events| - 1;
      FirstEventMeaning(init, id);
      assert events == init + [events[n]];
      if FirstEvent(init, id).Some? {
        var k: nat :| EarliestAt(init, id, k);
        if events[n].interaction == id && events[n].createdAt < init[k].createdAt {
          assert EarliestAt(events, id, n);
        } else {
          assert EarliestAt(events, id, k);
        }
      } else if events[n].interaction == id {
        assert EarliestAt(events, id, n);
      }
      forall a: nat, b: nat | EarliestAt(events, id, a) && EarliestAt(events, id, b) ensures a == b {
      }
    }
  }

  /** When the detail of an interaction can be read, in any state, and the errors otherwise. */
  lemma DetailAnswers(db: Db, actor: Id, resource: string)
    ensures var id, reply := Lower(resource), ReadWrapup(db, actor, resource);
            && (reply == Err(ValidationFailed) <==> !IsUuid(resource))
            && (reply == Err(AgentRequired) <==> IsUuid(resource) && actor !in db.agents)
            && (reply == Err(InteractionNotFound) <==> IsUuid(resource) && actor in db.agents && !Owns(db, actor, id))
            && (reply.Ok? <==>
                  && IsUuid(resource) && Owns(db, actor, id) && db.interactions[id].stage == COMPLETED
                  && (db.interactions[id].policy == VOICE_NOTE_V1 ==>
                        id in db.results && db.results[id].owner == actor))
  {
  }

  /**
    What the detail of a legacy interaction shows: the time of the earliest completion, else of its end,
    else of its queueing.
  */
  lemma LegacyDetailShows(db: Db, actor: Id, resource: string)
    requires ReadWrapup(db, actor, resource).Ok? && db.interactions[Lower(resource)].policy == LEGACY
    ensures var id, v := Lower(resource), ReadWrapup(db, actor, resource).value;
            var i := db.interactions[id];
            var none := forall k :: 0 <= k < |db.events| ==> db.events[k].interaction != id;
            && v.interaction == id && v.disposition == i.wrapUpCode && v.legacy
            && v.policyVersion == None && v.note == None
            && (v.source == LEGACY_FALLBACK <==> none) && (v.source == LEGACY_EVENT <==> !none)
            && (forall k: nat :: EarliestAt(db.events, id, k) ==> v.recordedAt == db.events[k].createdAt)
            && (none && i.endedAt.Some? ==> v.recordedAt == i.endedAt.value)
            && (none && i.endedAt.None? ==> v.recordedAt == i.queuedAt)
  {
    FirstEventMeaning(db.events, Lower(resource));
  }

  /** In any state, a command that has a receipt is taken for another one unless all of its receipt fits. */
  lemma ReuseIff(db: Db, actor: Id, resource: string, body: Body, now: int, d: string, n: string, c: Id)
    requires BodyIs(body, d, n, c) && IsUuid(resource) && Owns(db, actor, Lower(resource)) && c in db.receipts
    ensures var r, reply := db.receipts[c], Save(db, actor, resource, body, now).1;
            reply == Err(CommandIdReused) <==>
              r.actor != actor || r.action != V1_SUBMIT || r.resource != Lower(resource)
  {
    BodyIsIff(body, d, n, c);
  }

  /** A command can be read by the agent that saved it, at its interaction, as long as the agent owns that. */
  lemma CommandAnswers(db: Db, actor: Id, resource: string, command: string)
    ensures var id, c, reply := Lower(resource), Lower(command), ReadCommand(db, actor, resource, command);
            var asked := IsUuid(resource) && IsUuid(command);
            && (reply == Err(ValidationFailed) <==> !asked)
            && (reply == Err(AgentRequired) <==> asked && actor !in db.agents)
            && (reply == Err(InteractionNotFound) <==> asked && actor in db.agents && !Owns(db, actor, id))
            && (reply == Err(CommandNotFound) <==> asked && Owns(db, actor, id) && c !in db.receipts)
            && (reply.Ok? <==>
                  && asked && Owns(db, actor, id) && c in db.receipts
                  && db.receipts[c].actor == actor && db.receipts[c].action == V1_SUBMIT && db.receipts[c].resource
                     == id)
            && (reply.Ok? ==> reply.value == db.receipts[c].result)
  {
  }
}

/**
  Wrap-up commands of one tenant: saveAgentWrapup and the two reads of agent-wrapup-v1.ts, and the
  older submitWrapup of agent-workspace-api.ts, which shares the interactions and receipts tables.
*/
module Wrapup {
  import opened Prelude
  import opened Strings

  /** Ids are UUID texts. The database compares them as UUIDs: its keys are lower case. */
  type Id = string

  datatype Policy = LEGACY | VOICE_NOTE_V1

  datatype Stage = WRAPUP | COMPLETED | Elsewhere(name: string)

  datatype Interaction = Interaction(
    agent: Option<Id>, voice: bool, stage: Stage, policy: Policy, wrapUpCode: Option<string>,
    endedAt: Option<int>, queuedAt: int)

  datatype WrapupResult = WrapupResult(owner: Id, disposition: string, note: string, recordedAt: int, commandId: Id)

  /** An `interaction.wrapup_completed` event; ids rise with the position in the table. */
  datatype Event = Event(interaction: Id, disposition: string, commandId: Id, createdAt: int)

  datatype StateLog = StateLog(user: Id, state: string, reason: string)

  datatype Action = SUBMIT | V1_SUBMIT

  /** SHA-256 of the canonical payload, free of collisions. */
  datatype Digest = Sha256(actor: Id, interaction: Id, disposition: string, note: string)

  datatype Summary = Summary(interaction: Id, policyVersion: Option<int>, disposition: string, recordedAt: Option<int>)

  datatype Receipt = Receipt(actor: Id, action: Action, resource: Id, digest: Option<Digest>, result: Summary)

  datatype Db = Db(
    agents: set<Id>, interactions: map<Id, Interaction>, results: map<Id, WrapupResult>,
    events: seq<Event>, stateLogs: seq<StateLog>, receipts: map<Id, Receipt>)

  datatype Source = SERVER_COMMIT | LEGACY_EVENT | LEGACY_FALLBACK

  datatype View = View(
    interaction: Id, policyVersion: Option<int>, disposition: Option<string>, note: Option<string>,
    recordedAt: int, source: Source, legacy: bool)

  datatype Code =
    | ValidationFailed | AgentRequired | InteractionNotFound | CommandIdReused | CommandPayloadMismatch
    | WrapupPolicyMismatch | InteractionAlreadyCompleted | InteractionNotInWrapup | ResultNotCommitted
    | WrapupSaveFailed | CommandNotFound | WrapupV1Required

  // ---- input ----

  predicate IsHex(c: char) { '0' <= c <= '9' || 'a' <= c <= 'f' || 'A' <= c <= 'F' }

  /** The regular expression for UUID versions 1 to 5, either case. */
  predicate IsUuid(s: string) {
    && |s| == 36
    && (forall k :: 0 <= k < 36 ==> if k in {8, 13, 18, 23} then s[k] == '-' else IsHex(s[k]))
    && '1' <= s[14] <= '5' && s[19] in "89abAB"
  }

  /** `/\r\n/g` replaced by `\n`. */
  function UnixLines(s: string): string
    decreases |s|
  {
    if s == [] then []
    else if "\r\n" <= s then "\n" + UnixLines(s[2..])
    else [s[0]] + UnixLines(s[1..])
  }

  function Normalise(note: string): string { Trim(UnixLines(note)) }

  /** The request body; a field is None when missing or not a string. */
  datatype Body =
    | NotAnObject
    | Object(extraKeys: bool, disposition: Option<string>, note: Option<string>, commandId: Option<string>)

  datatype Input = Input(disposition: string, note: string, commandId: Id)

  function InputFrom(b: Body): Option<Input> {
    if b.NotAnObject? || b.extraKeys then None
    else if b.disposition != Some("CUSTOMER_ASSISTED") && b.disposition != Some("FOLLOW_UP_REQUIRED") then None
    else if b.note.None? || '\0' in b.note.value || !(1 <= |Normalise(b.note.value)| <= 2000) then None
    else if b.commandId.None? || !IsUuid(b.commandId.value) then None
    else Some(Input(b.disposition.value, Normalise(b.note.value), Lower(b.commandId.value)))
  }

  // ---- reads ----

  /** `authorize`: an active agent, and a voice interaction assigned to that agent. */
  function AuthorizeRefusal(db: Db, actor: Id, id: Id): Option<Code> {
    if actor !in db.agents then Some(AgentRequired)
    else if id in db.interactions && db.interactions[id].agent == Some(actor) && db.interactions[id].voice then None
    else Some(InteractionNotFound)
  }

  function CommittedResult(db: Db, actor: Id, id: Id): Result<View, Code> {
    if id in db.results && db.results[id].owner == actor then
      var r := db.results[id];
      Ok(View(id, Some(1), Some(r.disposition), Some(r.note), r.recordedAt, SERVER_COMMIT, false))
    else Err(ResultNotCommitted)
  }

  /** `ORDER BY created_at, id LIMIT 1` among the completion events of an interaction. */
  function FirstEvent(events: seq<Event>, id: Id): Option<Event> {
    if events == [] then None
    else
      var earlier := FirstEvent(Init(events), id);
      var e := Last(events);
      if e.interaction == id && (earlier.None? || e.createdAt < earlier.value.createdAt) then Some(e) else earlier
  }

  function ReadWrapup(db: Db, actor: Id, resource: string): Result<View, Code> {
    var id := Lower(resource);
    if !IsUuid(resource) then Err(ValidationFailed)
    else if AuthorizeRefusal(db, actor, id).Some? then Err(AuthorizeRefusal(db, actor, id).value)
    else
      var i := db.interactions[id];
      if i.stage != COMPLETED then Err(ResultNotCommitted)
      else if i.policy == VOICE_NOTE_V1 then CommittedResult(db, actor, id)
      else
        var first := FirstEvent(db.events, id);
        var at := if first.Some? then first.value.createdAt
                  else if i.endedAt.Some? then i.endedAt.value else i.queuedAt;
        Ok(View(id, None, i.wrapUpCode, None, at, if first.Some? then LEGACY_EVENT else LEGACY_FALLBACK, true))
  }

  function ReadCommand(db: Db, actor: Id, resource: string, command: string): Result<Summary, Code> {
    var id, c := Lower(resource), Lower(command);
    if !IsUuid(resource) || !IsUuid(command) then Err(ValidationFailed)
    else if AuthorizeRefusal(db, actor, id).Some? then Err(AuthorizeRefusal(db, actor, id).value)
    else if c !in db.receipts then Err(CommandNotFound)
    else
      var r := db.receipts[c];
      if r.actor != actor || r.action != V1_SUBMIT || r.resource != id then Err(CommandIdReused) else Ok(r.result)
  }

  // ---- the database's own guards ----

  /** The trigger that ties a result row to its interaction, checked at commit. */
  predicate GuardOk(i: Interaction, r: Option<WrapupResult>) {
    match r
    case Some(r) =>
      && i.voice && i.policy == VOICE_NOTE_V1 && i.stage == COMPLETED
      && i.agent == Some(r.owner) && i.wrapUpCode == Some(r.disposition)
    case None => !(i.policy == VOICE_NOTE_V1 && i.stage == COMPLETED)
  }

  function ResultOf(db: Db, id: Id): Option<WrapupResult> {
    if id in db.results then Some(db.results[id]) else None
  }

  // ---- save ----

  function SummaryOf(id: Id, r: WrapupResult): Summary { Summary(id, Some(1), r.disposition, Some(r.recordedAt)) }

  function ReceiptOf(id: Id, r: WrapupResult): Receipt {
    Receipt(r.owner, V1_SUBMIT, id, Some(Sha256(r.owner, id, r.disposition, r.note)), SummaryOf(id, r))
  }

  function Saved(db: Db, actor: Id, id: Id, input: Input, now: int): Db
    requires id in db.interactions
  {
    var r := WrapupResult(actor, input.disposition, input.note, now, input.commandId);
    var i := db.interactions[id].(stage := COMPLETED, wrapUpCode := Some(r.disposition));
    db.(interactions := db.interactions[id := i],
        results := db.results[id := r],
        events := db.events + [Event(id, r.disposition, r.commandId, now)],
        stateLogs := db.stateLogs + [StateLog(actor, "AVAILABLE", "wrapup_completed")],
        receipts := db.receipts[r.commandId := ReceiptOf(id, r)])
  }

  function Save(db: Db, actor: Id, resource: string, body: Body, now: int): (Db, Result<View, Code>) {
    var id := Lower(resource);
    var parsed := InputFrom(body);
    if !IsUuid(resource) || parsed.None? then (db, Err(ValidationFailed))
    else if AuthorizeRefusal(db, actor, id).Some? then (db, Err(AuthorizeRefusal(db, actor, id).value))
    else
      var input := parsed.value;
      if input.commandId in db.receipts then
        var r := db.receipts[input.commandId];
        (db, if r.actor != actor || r.action != V1_SUBMIT || r.resource != id then Err(CommandIdReused)
             else if r.digest != Some(Sha256(actor, id, input.disposition, input.note)) then Err(CommandPayloadMismatch)
             else CommittedResult(db, actor, id))
      else
        var i := db.interactions[id];
        if i.policy != VOICE_NOTE_V1 then (db, Err(WrapupPolicyMismatch))
        else if i.stage == COMPLETED then (db, Err(InteractionAlreadyCompleted))
        else if i.stage != WRAPUP then (db, Err(InteractionNotInWrapup))
        else if id in db.results then (db, Err(WrapupSaveFailed))
        else
          var db' := Saved(db, actor, id, input, now);
          (db', CommittedResult(db', actor, id))
  }

  // ---- the legacy submit, split where another transaction can come in between ----

  datatype LegacyBody = LegacyBody(hasNote: bool, disposition: Option<string>, commandId: Option<string>)

  predicate CodeChar(c: char) { 'A' <= c <= 'Z' || '0' <= c <= '9' || c == '_' }

  /** `^[A-Z][A-Z0-9_]{1,79}$` */
  predicate LegacyDispositionOk(d: string) {
    2 <= |d| <= 80 && 'A' <= d[0] <= 'Z' && forall k :: 1 <= k < |d| ==> CodeChar(d[k])
  }

  predicate LegacyBodyOk(b: LegacyBody) {
    && !b.hasNote
    && b.disposition.Some? && LegacyDispositionOk(b.disposition.value)
    && b.commandId.Some? && IsUuid(b.commandId.value)
  }

  datatype LegacyTx = LegacyTx(actor: Id, id: Id, disposition: string, command: string)

  datatype LegacyRead = Refused(code: Code) | Replayed(result: Summary) | Go(tx: LegacyTx)

  /** The condition of the read and of the update. */
  predicate InWrapupOf(interactions: map<Id, Interaction>, id: Id, actor: Id) {
    id in interactions && interactions[id].agent == Some(actor) && interactions[id].stage == WRAPUP
  }

  /** The ids of this path are used as they were typed, where V1 lower-cases them. */
  function LegacyBegin(db: Db, actor: Id, resource: string, b: LegacyBody): LegacyRead {
    if !LegacyBodyOk(b) || !IsUuid(resource) then Refused(ValidationFailed)
    else
      var id, c := Lower(resource), Lower(b.commandId.value);
      if c in db.receipts then
        var r := db.receipts[c];
        if r.actor != actor || r.action != SUBMIT || r.resource != resource then Refused(CommandIdReused)
        else Replayed(r.result)
      else if !InWrapupOf(db.interactions, id, actor) then Refused(InteractionNotFound)
      else if db.interactions[id].policy == VOICE_NOTE_V1 then Refused(WrapupV1Required)
      else Go(LegacyTx(actor, id, b.disposition.value, b.commandId.value))
  }

  /** The writes. The conditional update may match no row any more; the inserts happen all the same. */
  function LegacyWrites(db: Db, tx: LegacyTx, now: int): Db {
    var interactions :=
      if !InWrapupOf(db.interactions, tx.id, tx.actor) then db.interactions
      else
        var i := db.interactions[tx.id].(stage := COMPLETED, wrapUpCode := Some(tx.disposition));
        db.interactions[tx.id := i];
    var receipt := Receipt(tx.actor, SUBMIT, tx.id, None, Summary(tx.id, None, tx.disposition, None));
    db.(interactions := interactions,
        events := db.events + [Event(tx.id, tx.disposition, tx.command, now)],
        stateLogs := db.stateLogs + [StateLog(tx.actor, "AVAILABLE", "wrapup_completed")],
        receipts := db.receipts[Lower(tx.command) := receipt])
  }

  /** All writes, or none when the command id has been used meanwhile. */
  function LegacyCommit(db: Db, tx: LegacyTx, now: int): Db {
    if Lower(tx.command) in db.receipts then db else LegacyWrites(db, tx, now)
  }

  // ---- the statements in the source's order ----

  class WrapupDatabase {
    var agents: set<Id>
    var interactions: map<Id, Interaction>
    var results: map<Id, WrapupResult>
    var events: seq<Event>
    var stateLogs: seq<StateLog>
    var receipts: map<Id, Receipt>

    constructor (db: Db)
      ensures Tables() == db
    {
      agents, interactions, results := db.agents, db.interactions, db.results;
      events, stateLogs, receipts := db.events, db.stateLogs, db.receipts;
    }

    function Tables(): Db
      reads this
    {
      Db(agents, interactions, results, events, stateLogs, receipts)
    }

    method SaveAgentWrapup(actor: Id, resource: string, body: Body, now: int) returns (reply: Result<View, Code>)
      modifies this
      ensures (Tables(), reply) == Save(old(Tables()), actor, resource, body, now)
    {
      if !IsUuid(resource) { return Err(ValidationFailed); }
      var id := Lower(resource);
      var parsed := InputFrom(body);
      if parsed.None? { return Err(ValidationFailed); }
      var input := parsed.value;
      var digest := Sha256(actor, id, input.disposition, input.note);
      var refusal := AuthorizeRefusal(Tables(), actor, id);
      if refusal.Some? { return Err(refusal.value); }
      if input.commandId in receipts {
        var receipt := receipts[input.commandId];
        if receipt.actor != actor || receipt.action != V1_SUBMIT || receipt.resource != id {
          return Err(CommandIdReused);
        }
        if receipt.digest != Some(digest) { return Err(CommandPayloadMismatch); }
        return CommittedResult(Tables(), actor, id);
      }
      var interaction := interactions[id];
      if interaction.policy != VOICE_NOTE_V1 { return Err(WrapupPolicyMismatch); }
      if interaction.stage == COMPLETED { return Err(InteractionAlreadyCompleted); }
      if interaction.stage != WRAPUP { return Err(InteractionNotInWrapup); }
      if id in results { return Err(WrapupSaveFailed); }
      results := results[id := WrapupResult(actor, input.disposition, input.note, now, input.commandId)];
      interactions := interactions[id := interaction.(stage := COMPLETED, wrapUpCode := Some(input.disposition))];
      events := events + [Event(id, input.disposition, input.commandId, now)];
      stateLogs := stateLogs + [StateLog(actor, "AVAILABLE", "wrapup_completed")];
      reply := CommittedResult(Tables(), actor, id);
      var view := reply.value;
      var summary := Summary(view.interaction, view.policyVersion, view.disposition.value, Some(view.recordedAt));
      receipts := receipts[input.commandId := Receipt(actor, V1_SUBMIT, id, Some(digest), summary)];
    }

    method SubmitWrapup(actor: Id, resource: string, body: LegacyBody, now: int) returns (reply: Result<Summary, Code>)
      modifies this
      ensures match LegacyBegin(old(Tables()), actor, resource, body)
              case Refused(code) => Tables() == old(Tables()) && reply == Err(code)
              case Replayed(result) => Tables() == old(Tables()) && reply == Ok(result)
              case Go(tx) =>
                && Tables() == LegacyCommit(old(Tables()), tx, now)
                && reply == Ok(Summary(tx.id, None, tx.disposition, None))
    {
      if !LegacyBodyOk(body) || !IsUuid(resource) { return Err(ValidationFailed); }
      var command := Lower(body.commandId.value);
      if command in receipts {
        var receipt := receipts[command];
        if receipt.actor != actor || receipt.action != SUBMIT || receipt.resource != resource {
          return Err(CommandIdReused);
        }
        return Ok(receipt.result);
      }
      var id := Lower(resource);
      if !InWrapupOf(interactions, id, actor) { return Err(InteractionNotFound); }
      if interactions[id].policy == VOICE_NOTE_V1 { return Err(WrapupV1Required); }
      interactions := interactions[id := interactions[id].(stage := COMPLETED, wrapUpCode := body.disposition)];
      events := events + [Event(id, body.disposition.value, body.commandId.value, now)];
      stateLogs := stateLogs + [StateLog(actor, "AVAILABLE", "wrapup_completed")];
      var result := Summary(id, None, body.disposition.value, None);
      receipts := receipts[command := Receipt(actor, SUBMIT, id, None, result)];
      return Ok(result);
    }
  }
}

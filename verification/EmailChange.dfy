/**
  E-mail changes of account-self-service.ts for one tenant. Each operation runs in one transaction
  under the user's lock and calls the identity server as its last step before the commit. Hashes are
  free of collisions; identity calls happen entirely or not at all; the environment record says what
  answers, what fails, and whether the commit that follows goes through.
*/
module EmailChange {
  import opened Prelude
  import opened Strings
  import opened Templates
  import opened Outbox
  import AccountPolicy

  type Uuid = s: string | |s| == 36 witness "00000000-0000-0000-0000-000000000000"
  type Token = s: string | |s| == 43 witness "0123456789012345678901234567890123456789012"
  type IdentityId = nat

  const EMAIL_CHANGE_TTL_MS := 24 * 60 * 60 * 1000

  datatype Hash = Sha256(preimage: string)

  datatype User = User(email: string, identityId: Option<IdentityId>, active: bool)

  datatype ChangeStatus = PENDING | CONFIRMED | CANCELLED | EXPIRED

  datatype Change = Change(
    user: Uuid, newEmail: string, tokenHash: Hash, status: ChangeStatus,
    requestedAt: int, expiresAt: int, completedAt: Option<int>)

  datatype AuditEvent = AuditEvent(user: Uuid, action: string, mode: string, changeId: Option<Uuid>, at: int)

  datatype Db = Db(
    users: map<Uuid, User>, changes: map<Uuid, Change>, outbox: Table, audits: seq<AuditEvent>,
    policy: AccountPolicy.EmailRule)

  datatype Account = Account(email: string, locale: string)

  type Directory = map<IdentityId, Account>

  datatype State = State(db: Db, identity: Directory)

  /** What the identity server says to a new address; `Conflict` is its own check for a taken one. */
  datatype WriteAnswer = Taken | Conflict | Down

  /** One call's surroundings. `seen` is the users table as the uniqueness query found it. */
  datatype Env = Env(
    now: int, limited: bool, readsUp: bool, searchUp: bool, write: WriteAnswer, commits: bool,
    seen: map<Uuid, User>, changeId: Uuid, token: Token, outboxId: Id, nonce: Uuid)

  datatype Code =
    | ValidationFailed | SameEmail | EmailChangeNotAllowed | EmailInUse | EmailChangeExpired | RateLimited
    | IdentityUnavailable | TemplateError | ConstraintViolation | CommitFailed

  datatype Reply = Denied(code: Code) | Waiting(email: string, expiresAt: int) | Changed(email: string) | Cancelled

  // ---- input ----

  /** One character of `[^\s@<>()",;:]`. */
  predicate AddressChar(c: char) { !IsSpace(c) && c !in "@<>()\",;:" }

  /** `^[^\s@<>()",;:]+@[^\s@<>()",;:]+\.[^\s@<>()",;:]+$` */
  predicate AddressOk(s: string) {
    exists at :: 0 < at < |s| && s[at] == '@'
                 && (forall k :: 0 <= k < |s| && k != at ==> AddressChar(s[k]))
                 && exists dot :: at + 1 < dot < |s| - 1 && s[dot] == '.'
  }

  function EmailOf(input: BodyField): Option<string> {
    var text := RequiredText(input, 320);
    if text.None? || !AddressOk(Lower(text.value)) then None else Some(Lower(text.value))
  }

  // ---- table operations ----

  function VerifyKey(changeId: Uuid): string { "email-change:" + changeId + ":verify" }

  function ChangedKey(user: Uuid, nonce: Uuid): string { "email-changed:" + user + ":" + nonce }

  function VerifyMail(token: Token, newEmail: string, locale: string, changeId: Uuid): Mail {
    Mail(VERIFY, locale, newEmail,
         map["token" := Text(token), "expiresInMinutes" := Integer(EMAIL_CHANGE_TTL_MS / 60_000)], VerifyKey(changeId))
  }

  function ChangedMail(newEmail: string, at: int, account: Account, user: Uuid, nonce: Uuid): Mail {
    Mail(EMAIL_CHANGED, account.locale, account.email,
         map["newEmail" := Text(newEmail), "changedAt" := Instant(at)], ChangedKey(user, nonce))
  }

  /** `updateMany(PENDING -> CANCELLED)` for one user. */
  function CancelPending(changes: map<Uuid, Change>, user: Uuid, now: int): map<Uuid, Change> {
    map id | id in changes ::
      if changes[id].user == user && changes[id].status == PENDING
      then changes[id].(status := CANCELLED, completedAt := Some(now)) else changes[id]
  }

  predicate HasPending(changes: map<Uuid, Change>, user: Uuid) {
    exists id :: id in changes && changes[id].user == user && changes[id].status == PENDING
  }

  /** The id, token and partial PENDING indexes of account_email_changes. */
  predicate InsertAllowed(changes: map<Uuid, Change>, id: Uuid, c: Change) {
    && id !in changes
    && (forall k :: k in changes ==> changes[k].tokenHash != c.tokenHash)
    && (c.status == PENDING ==> !HasPending(changes, c.user))
  }

  predicate HashesDistinct(changes: map<Uuid, Change>) {
    forall a, b :: a in changes && b in changes && changes[a].tokenHash == changes[b].tokenHash ==> a == b
  }

  /** A user other than `user` with this address, in any case. */
  predicate TakenBy(users: map<Uuid, User>, user: Uuid, email: string) {
    exists v :: v in users && v != user && Lower(users[v].email) == Lower(email)
  }

  /** The unique index on (tenant_id, email), which is case-sensitive. */
  predicate IndexTaken(users: map<Uuid, User>, user: Uuid, email: string) {
    exists v :: v in users && v != user && users[v].email == email
  }

  predicate InUseElsewhere(d: Directory, k: IdentityId, email: string) {
    exists j :: j in d && j != k && Lower(d[j].email) == Lower(email)
  }

  /** `identityIdOf`: the identity of an active, linked user. */
  function IdentityOf(db: Db, user: Uuid): Option<IdentityId> {
    if user in db.users && db.users[user].active then db.users[user].identityId else None
  }

  // ---- the refusals, in the order the source meets them ----

  function ReadRefusal(s: State, e: Env, k: IdentityId): Option<Code> {
    if !e.readsUp || k !in s.identity then Some(IdentityUnavailable) else None
  }

  /** `assertEmailFree` */
  function FreeRefusal(s: State, e: Env, user: Uuid, k: IdentityId, email: string): Option<Code> {
    if TakenBy(e.seen, user, email) then Some(EmailInUse)
    else if !e.searchUp then Some(IdentityUnavailable)
    else if InUseElsewhere(s.identity, k, email) then Some(EmailInUse)
    else None
  }

  function EnqueueCode(q: Enqueued): Option<Code> {
    match q
    case Refused(_) => Some(TemplateError)
    case IdTaken => Some(ConstraintViolation)
    case _ => None
  }

  function NoticeQueued(db: Db, e: Env, user: Uuid, account: Account, email: string): Option<Enqueued> {
    if account.email == "" then None
    else Some(Enqueue(db.outbox, e.outboxId, ChangedMail(email, e.now, account, user, e.nonce), e.now))
  }

  /** `applyEmail` */
  function ApplyRefusal(s: State, e: Env, user: Uuid, account: Account, email: string): Option<Code> {
    var notice := NoticeQueued(s.db, e, user, account, email);
    if IndexTaken(s.db.users, user, email) then Some(EmailInUse)
    else if notice.Some? && EnqueueCode(notice.value).Some? then EnqueueCode(notice.value)
    else if e.write.Conflict? then Some(EmailInUse)
    else if e.write.Down? then Some(IdentityUnavailable)
    else None
  }

  function NewChange(e: Env, user: Uuid, email: string): Change {
    Change(user, email, Sha256(e.token), PENDING, e.now, e.now + EMAIL_CHANGE_TTL_MS, None)
  }

  function InsertRefusal(db: Db, e: Env, user: Uuid, account: Account, email: string): Option<Code> {
    var cancelled := CancelPending(db.changes, user, e.now);
    if !InsertAllowed(cancelled, e.changeId, NewChange(e, user, email)) then Some(ConstraintViolation)
    else EnqueueCode(Enqueue(db.outbox, e.outboxId, VerifyMail(e.token, email, account.locale, e.changeId), e.now))
  }

  /** What a request has to pass whichever rule the tenant has. */
  function AdmitRefusal(s: State, e: Env, user: Uuid, input: BodyField): (refusal: Option<Code>)
    ensures refusal.None? ==>
              EmailOf(input).Some? && IdentityOf(s.db, user).Some? && IdentityOf(s.db, user).value in s.identity
  {
    var email := EmailOf(input);
    var k := IdentityOf(s.db, user);
    if email.None? then Some(ValidationFailed)
    else if e.limited then Some(RateLimited)
    else if k.None? then Some(IdentityUnavailable)
    else if s.db.policy.ADMIN_ONLY? then Some(EmailChangeNotAllowed)
    else if ReadRefusal(s, e, k.value).Some? then ReadRefusal(s, e, k.value)
    else if Lower(s.identity[k.value].email) == email.value then Some(SameEmail)
    else FreeRefusal(s, e, user, k.value, email.value)
  }

  function RequestRefusal(s: State, e: Env, user: Uuid, input: BodyField): Option<Code> {
    if AdmitRefusal(s, e, user, input).Some? then AdmitRefusal(s, e, user, input)
    else
      var account, email := s.identity[IdentityOf(s.db, user).value], EmailOf(input).value;
      if s.db.policy.IMMEDIATE? then ApplyRefusal(s, e, user, account, email)
      else InsertRefusal(s.db, e, user, account, email)
  }

  // ---- the effects ----

  /** The database once the address is changed: user row, audit event, notice to the old address. */
  function AppliedDb(
      db: Db, e: Env, user: Uuid, account: Account, email: string, mode: string, changeId: Option<Uuid>): Db
    requires user in db.users
  {
    var notice := NoticeQueued(db, e, user, account, email);
    db.(users := db.users[user := db.users[user].(email := email)],
        audits := db.audits + [AuditEvent(user, "email.change.confirmed", mode, changeId, e.now)],
        outbox := if notice.Some? then TableAfter(db.outbox, notice.value) else db.outbox)
  }

  function RequestedDb(db: Db, e: Env, user: Uuid, account: Account, email: string): Db {
    db.(changes := CancelPending(db.changes, user, e.now)[e.changeId := NewChange(e, user, email)],
        audits := db.audits + [AuditEvent(user, "email.change.requested", "", Some(e.changeId), e.now)],
        outbox := TableAfter(
          db.outbox, Enqueue(db.outbox, e.outboxId, VerifyMail(e.token, email, account.locale, e.changeId), e.now)))
  }

  function Settle(before: State, e: Env, after: State, reply: Reply): (State, Reply) {
    if e.commits then (after, reply) else (State(before.db, after.identity), Denied(CommitFailed))
  }

  /** An immediate change, in database and identity server. */
  function GrantedNow(s: State, e: Env, user: Uuid, k: IdentityId, email: string): (State, Reply)
    requires user in s.db.users && k in s.identity
  {
    var account := s.identity[k];
    var cancelled := s.db.(changes := CancelPending(s.db.changes, user, e.now));
    var db := AppliedDb(cancelled, e, user, account, email, "IMMEDIATE", None);
    Settle(s, e, State(db, s.identity[k := account.(email := email)]), Changed(email))
  }

  /** A change that waits for its confirmation, in the database only. */
  function GrantedLater(s: State, e: Env, user: Uuid, k: IdentityId, email: string): (State, Reply)
    requires k in s.identity
  {
    var db := RequestedDb(s.db, e, user, s.identity[k], email);
    Settle(s, e, State(db, s.identity), Waiting(email, e.now + EMAIL_CHANGE_TTL_MS))
  }

  function Request(s: State, e: Env, user: Uuid, input: BodyField): (State, Reply) {
    var refusal := RequestRefusal(s, e, user, input);
    if refusal.Some? then (s, Denied(refusal.value))
    else
      var email := EmailOf(input).value;
      var k := IdentityOf(s.db, user).value;
      if s.db.policy.IMMEDIATE? then GrantedNow(s, e, user, k, email) else GrantedLater(s, e, user, k, email)
  }

  predicate Matches(c: Change, user: Uuid, hash: Hash) {
    c.user == user && c.tokenHash == hash && c.status == PENDING
  }

  function Matching(changes: map<Uuid, Change>, user: Uuid, hash: Hash): set<Uuid> {
    set id | id in changes && Matches(changes[id], user, hash)
  }

  ghost function Found(changes: map<Uuid, Change>, user: Uuid, hash: Hash): (id: Uuid)
    requires Matching(changes, user, hash) != {}
    ensures id in changes && Matches(changes[id], user, hash)
  {
    var id :| id in Matching(changes, user, hash);
    id
  }

  function ConfirmRefusal(s: State, e: Env, user: Uuid, change: Change): Option<Code>
    requires IdentityOf(s.db, user).Some?
  {
    var k := IdentityOf(s.db, user).value;
    if s.db.policy.ADMIN_ONLY? then Some(EmailChangeNotAllowed)
    else if ReadRefusal(s, e, k).Some? then ReadRefusal(s, e, k)
    else if FreeRefusal(s, e, user, k, change.newEmail).Some? then FreeRefusal(s, e, user, k, change.newEmail)
    else ApplyRefusal(s, e, user, s.identity[k], change.newEmail)
  }

  function Completed(db: Db, id: Uuid, status: ChangeStatus, now: int): Db
    requires id in db.changes
  {
    db.(changes := db.changes[id := db.changes[id].(status := status, completedAt := Some(now))])
  }

  ghost function Confirm(s: State, e: Env, user: Uuid, input: BodyField): (State, Reply) {
    if !input.Typed? || !(1 <= |input.s| <= 512) then (s, Denied(ValidationFailed))
    else if IdentityOf(s.db, user).None? then (s, Denied(IdentityUnavailable))
    else if Matching(s.db.changes, user, Sha256(input.s)) == {} then
      Settle(s, e, s, Denied(EmailChangeExpired))
    else ConfirmFound(s, e, user, Found(s.db.changes, user, Sha256(input.s)))
  }

  function ConfirmFound(s: State, e: Env, user: Uuid, id: Uuid): (State, Reply)
    requires IdentityOf(s.db, user).Some? && id in s.db.changes
  {
    var change := s.db.changes[id];
    if change.expiresAt <= e.now then
      Settle(s, e, State(Completed(s.db, id, EXPIRED, e.now), s.identity), Denied(EmailChangeExpired))
    else
      var refusal := ConfirmRefusal(s, e, user, change);
      if refusal.Some? then (s, Denied(refusal.value))
      else
        var k := IdentityOf(s.db, user).value;
        var account := s.identity[k];
        var confirmed := Completed(s.db, id, CONFIRMED, e.now);
        var db := AppliedDb(confirmed, e, user, account, change.newEmail, "VERIFIED", Some(id));
        Settle(s, e, State(db, s.identity[k := account.(email := change.newEmail)]), Changed(change.newEmail))
  }

  function Cancel(s: State, e: Env, user: Uuid): (State, Reply) {
    if IdentityOf(s.db, user).None? then (s, Denied(IdentityUnavailable))
    else
      var changes := CancelPending(s.db.changes, user, e.now);
      var audits := if HasPending(s.db.changes, user)
                    then s.db.audits + [AuditEvent(user, "email.change.cancelled", "", None, e.now)] else s.db.audits;
      Settle(s, e, State(s.db.(changes := changes, audits := audits), s.identity), Cancelled)
  }
}

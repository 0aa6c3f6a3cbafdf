/**
  AccountSelfService of account-self-service.ts: the same operations statement by statement. `tx` is
  the transaction's view of the database; it becomes `db` when the commit goes through and is dropped
  when anything throws. What the identity server was told is not undone.
*/
module SelfService {
  import opened Prelude
  import opened Strings
  import opened Templates
  import opened Outbox
  import opened EmailChange

  class AccountSelfService {
    var db: Db
    var identity: Directory

    constructor (db: Db, identity: Directory)
      ensures this.db == db && this.identity == identity
    {
      this.db, this.identity := db, identity;
    }

    /** Throws (`Some`) when the address belongs to anyone else. */
    method AssertEmailFree(e: Env, actor: Uuid, k: IdentityId, email: string) returns (thrown: Option<Code>)
      ensures thrown == FreeRefusal(State(db, identity), e, actor, k, email)
    {
      if v :| v in e.seen && v != actor && Lower(e.seen[v].email) == Lower(email) { return Some(EmailInUse); }
      if !e.searchUp { return Some(IdentityUnavailable); }
      if j :| j in identity && j != k && Lower(identity[j].email) == Lower(email) { return Some(EmailInUse); }
      return None;
    }

    /** `users.email`, then audit, then the notice to the old address, then the identity server. */
    method ApplyEmail(tx: Db, e: Env, actor: Uuid, k: IdentityId, email: string, mode: string, changeId: Option<Uuid>)
      returns (done: Db, thrown: Option<Code>)
      requires actor in tx.users && k in identity
      modifies this`identity
      ensures thrown == ApplyRefusal(State(tx, old(identity)), e, actor, old(identity)[k], email)
      ensures thrown.None? ==>
                && done == AppliedDb(tx, e, actor, old(identity)[k], email, mode, changeId)
                && identity == old(identity)[k := old(identity)[k].(email := email)]
      ensures thrown.Some? ==> identity == old(identity)
    {
      var account := identity[k];
      done := tx;
      if v :| v in done.users && v != actor && done.users[v].email == email { return done, Some(EmailInUse); }
      done := done.(users := done.users[actor := done.users[actor].(email := email)]);
      done := done.(audits := done.audits + [AuditEvent(actor, "email.change.confirmed", mode, changeId, e.now)]);
      if account.email != "" {
        var queued := Enqueue(done.outbox, e.outboxId, ChangedMail(email, e.now, account, actor, e.nonce), e.now);
        match queued {
          case Refused(_) => return done, Some(TemplateError);
          case IdTaken => return done, Some(ConstraintViolation);
          case Known =>
          case Added(t) => done := done.(outbox := t);
        }
      }
      match e.write {
        case Conflict => return done, Some(EmailInUse);
        case Down => return done, Some(IdentityUnavailable);
        case Taken =>
      }
      identity := identity[k := account.(email := email)];
      thrown := None;
    }

    /** Input, rate limit, linked user, policy, same address, uniqueness: the checks every request meets first. */
    method Admit(e: Env, actor: Uuid, input: BodyField) returns (thrown: Option<Code>)
      ensures thrown == AdmitRefusal(State(db, identity), e, actor, input)
    {
      var parsed := EmailOf(input);
      if parsed.None? { return Some(ValidationFailed); }
      if e.limited { return Some(RateLimited); }
      var linked := IdentityOf(db, actor);
      if linked.None? { return Some(IdentityUnavailable); }
      if db.policy.ADMIN_ONLY? { return Some(EmailChangeNotAllowed); }
      if !e.readsUp || linked.value !in identity { return Some(IdentityUnavailable); }
      if Lower(identity[linked.value].email) == parsed.value { return Some(SameEmail); }
      thrown := AssertEmailFree(e, actor, linked.value, parsed.value);
    }

    method RequestEmailChange(e: Env, actor: Uuid, input: BodyField) returns (reply: Reply)
      modifies this
      ensures (State(db, identity), reply) == Request(old(State(db, identity)), e, actor, input)
    {
      var refused := Admit(e, actor, input);
      if refused.Some? { return Denied(refused.value); }
      var newEmail, k := EmailOf(input).value, IdentityOf(db, actor).value;
      if db.policy.IMMEDIATE? {
        reply := ChangeNow(e, actor, k, newEmail);
      } else {
        reply := ChangeLater(e, actor, k, newEmail);
      }
    }

    method ChangeLater(e: Env, actor: Uuid, k: IdentityId, newEmail: string) returns (reply: Reply)
      requires k in identity
      modifies this`db
      ensures var s := old(State(db, identity));
              var refusal := InsertRefusal(s.db, e, actor, s.identity[k], newEmail);
              (State(db, identity), reply)
              == if refusal.Some? then (s, Denied(refusal.value)) else GrantedLater(s, e, actor, k, newEmail)
    {
      var done, thrown := InsertChange(db, e, actor, identity[k], newEmail);
      if thrown.Some? { return Denied(thrown.value); }
      reply := Commit(e, done, Waiting(newEmail, e.now + EMAIL_CHANGE_TTL_MS));
    }

    /** The IMMEDIATE branch. */
    method ChangeNow(e: Env, actor: Uuid, k: IdentityId, newEmail: string) returns (reply: Reply)
      requires actor in db.users && k in identity
      modifies this
      ensures var s := old(State(db, identity));
              var refusal := ApplyRefusal(s, e, actor, s.identity[k], newEmail);
              (State(db, identity), reply)
              == if refusal.Some? then (s, Denied(refusal.value)) else GrantedNow(s, e, actor, k, newEmail)
    {
      var tx := db.(changes := CancelPending(db.changes, actor, e.now));
      ApplyIgnoresChanges(State(db, identity), tx, e, actor, identity[k], newEmail);
      var done, thrown := ApplyEmail(tx, e, actor, k, newEmail, "IMMEDIATE", None);
      if thrown.Some? { return Denied(thrown.value); }
      reply := Commit(e, done, Changed(newEmail));
    }

    lemma ApplyIgnoresChanges(s: State, tx: Db, e: Env, user: Uuid, account: Account, email: string)
      requires tx == s.db.(changes := tx.changes)
      ensures ApplyRefusal(State(tx, s.identity), e, user, account, email) == ApplyRefusal(s, e, user, account, email)
    {
    }

    /** Earlier requests are cancelled; then the new one, its audit event and its verify e-mail. */
    method InsertChange(tx: Db, e: Env, actor: Uuid, account: Account, newEmail: string)
      returns (done: Db, thrown: Option<Code>)
      ensures thrown == InsertRefusal(tx, e, actor, account, newEmail)
      ensures thrown.None? ==> done == RequestedDb(tx, e, actor, account, newEmail)
    {
      var change := NewChange(e, actor, newEmail);
      done := tx.(changes := CancelPending(tx.changes, actor, e.now));
      if !InsertAllowed(done.changes, e.changeId, change) { return done, Some(ConstraintViolation); }
      done := done.(changes := done.changes[e.changeId := change]);
      done := done.(audits := done.audits + [AuditEvent(actor, "email.change.requested", "", Some(e.changeId), e.now)]);
      var queued := Enqueue(done.outbox, e.outboxId, VerifyMail(e.token, newEmail, account.locale, e.changeId), e.now);
      match queued {
        case Refused(_) => return done, Some(TemplateError);
        case IdTaken => return done, Some(ConstraintViolation);
        case Known =>
        case Added(t) => done := done.(outbox := t);
      }
      thrown := None;
    }

    method Commit(e: Env, tx: Db, answer: Reply) returns (reply: Reply)
      modifies this`db
      ensures if e.commits then db == tx && reply == answer else db == old(db) && reply == Denied(CommitFailed)
    {
      if !e.commits { return Denied(CommitFailed); }
      db := tx;
      reply := answer;
    }

    method ConfirmEmailChange(e: Env, actor: Uuid, input: BodyField) returns (reply: Reply)
      requires HashesDistinct(db.changes)
      modifies this
      ensures (State(db, identity), reply) == Confirm(old(State(db, identity)), e, actor, input)
    {
      if !input.Typed? || |input.s| < 1 || |input.s| > 512 { return Denied(ValidationFailed); }
      var tx := db;
      var linked := IdentityOf(tx, actor);
      if linked.None? { return Denied(IdentityUnavailable); }
      var k := linked.value;
      var candidates := Matching(tx.changes, actor, Sha256(input.s));
      if candidates == {} {
        reply := Commit(e, tx, Denied(EmailChangeExpired));
        return;
      }
      var id :| id in candidates;
      assert id == Found(tx.changes, actor, Sha256(input.s));
      var change := tx.changes[id];
      if change.expiresAt <= e.now {
        tx := tx.(changes := tx.changes[id := change.(status := EXPIRED, completedAt := Some(e.now))]);
        reply := Commit(e, tx, Denied(EmailChangeExpired));
        return;
      }
      if tx.policy.ADMIN_ONLY? { return Denied(EmailChangeNotAllowed); }
      if !e.readsUp || k !in identity { return Denied(IdentityUnavailable); }
      var taken := AssertEmailFree(e, actor, k, change.newEmail);
      if taken.Some? { return Denied(taken.value); }
      tx := tx.(changes := tx.changes[id := change.(status := CONFIRMED, completedAt := Some(e.now))]);
      var done, thrown := ApplyEmail(tx, e, actor, k, change.newEmail, "VERIFIED", Some(id));
      if thrown.Some? { return Denied(thrown.value); }
      reply := Commit(e, done, Changed(change.newEmail));
    }

    method CancelEmailChange(e: Env, actor: Uuid) returns (reply: Reply)
      modifies this`db
      ensures (State(db, identity), reply) == Cancel(old(State(db, identity)), e, actor)
    {
      var tx := db;
      if IdentityOf(tx, actor).None? { return Denied(IdentityUnavailable); }
      var had := HasPending(tx.changes, actor);
      tx := tx.(changes := CancelPending(tx.changes, actor, e.now));
      if had {
        tx := tx.(audits := tx.audits + [AuditEvent(actor, "email.change.cancelled", "", None, e.now)]);
      }
      reply := Commit(e, tx, Cancelled);
    }
  }
}

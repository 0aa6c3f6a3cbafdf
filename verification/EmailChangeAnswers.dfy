/**
  When a request, a confirm or a cancel goes through, what it then stores, and which error it gives
  otherwise: told on the input, the stored rows and what the surroundings answer.
*/
module EmailChangeAnswers {
  import opened Prelude
  import opened Strings
  import opened Templates
  import opened Outbox
  import opened EmailChange
  import opened EmailChangeRuns
  import opened EmailChangeSafety
  import AccountPolicy

  // ---- addresses ----

  /** One or more characters of `[^\s@<>()",;:]`. */
  predicate Part(s: string) {
    s != [] && forall k :: 0 <= k < |s| ==> !IsSpace(s[k]) && s[k] !in ['@', '<', '>', '(', ')', '"', ',', ';', ':']
  }

  /** `^part+@part+\.part+$` */
  predicate Reads(s: string, a: string, b: string, c: string) {
    s == a + "@" + b + "." + c && Part(a) && Part(b) && Part(c)
  }

  lemma AddressIff(s: string)
    ensures AddressOk(s) <==> exists a, b, c :: Reads(s, a, b, c)
  {
    if AddressOk(s) {
      var a, b, c := Apart(s);
      assert Reads(s, a, b, c);
    }
    forall a, b, c | Reads(s, a, b, c) ensures AddressOk(s) { Together(s, a, b, c); }
  }

  lemma Apart(s: string) returns (a: string, b: string, c: string)
    requires AddressOk(s)
    ensures Reads(s, a, b, c)
  {
    var at :| 0 < at < |s| && s[at] == '@'
              && (forall k :: 0 <= k < |s| && k != at ==> AddressChar(s[k]))
              && exists dot :: at + 1 < dot < |s| - 1 && s[dot] == '.';
    var dot :| at + 1 < dot < |s| - 1 && s[dot] == '.';
    a, b, c := s[..at], s[at + 1..dot], s[dot + 1..];
    assert forall x: char :: AddressChar(x) ==> !IsSpace(x) && x !in ['@', '<', '>', '(', ')', '"', ',', ';', ':'];
    assert s[..dot] == a + [s[at]] + b;
    assert s == s[..dot] + [s[dot]] + c;
  }

  lemma Together(s: string, a: string, b: string, c: string)
    requires Reads(s, a, b, c)
    ensures AddressOk(s)
  {
    var at, dot := |a|, |a| + 1 + |b|;
    assert s[at] == '@' && s[dot] == '.';
    assert forall x: char :: !IsSpace(x) && x !in ['@', '<', '>', '(', ')', '"', ',', ';', ':'] ==> AddressChar(x);
    forall k | 0 <= k < |s| && k != at ensures AddressChar(s[k]) {
      if k < at {
        assert s[k] == a[k];
      } else if at < k < dot {
        assert s[k] == b[k - at - 1];
      } else if k > dot {
        assert s[k] == c[k - dot - 1];
      }
    }
  }

  /** The part of the input between white space, at most 320 characters, none a control character, in lower case. */
  predicate AddressAt(typed: string, email: string, i: nat, j: nat) {
    && IsTrimmed(typed, i, j) && 1 <= j - i <= 320 && email == Lower(typed[i..j])
    && forall k :: i <= k < j ==> !(typed[k] < ' ' || typed[k] == '\U{7f}')
  }

  ghost predicate Asks(input: BodyField, email: string) {
    && input.Typed? && (exists i: nat, j: nat :: AddressAt(input.s, email, i, j))
    && exists a, b, c :: Reads(email, a, b, c)
  }

  lemma PieceIff(typed: string, email: string, i: nat, j: nat)
    requires IsTrimmed(typed, i, j)
    ensures AddressAt(typed, email, i, j) <==>
            RequiredText(Typed(typed), 320) == Some(typed[i..j]) && email == Lower(typed[i..j])
  {
    TrimmedUnique(typed, i, j);
    var t := typed[i..j];
    assert forall k :: i <= k < j ==> typed[k] == t[k - i];
    assert forall k :: 0 <= k < |t| ==> t[k] == typed[i + k];
  }

  lemma TypedIff(typed: string, email: string)
    ensures (exists i: nat, j: nat :: AddressAt(typed, email, i, j)) <==>
            RequiredText(Typed(typed), 320).Some? && email == Lower(RequiredText(Typed(typed), 320).value)
  {
    var a, b := TrimShape(typed);
    PieceIff(typed, email, a, b);
    forall i: nat, j: nat | AddressAt(typed, email, i, j)
      ensures RequiredText(Typed(typed), 320).Some? && email == Lower(RequiredText(Typed(typed), 320).value)
    {
      PieceIff(typed, email, i, j);
    }
  }

  lemma AsksIff(input: BodyField, email: string)
    ensures Asks(input, email) <==> EmailOf(input) == Some(email)
  {
    AddressIff(email);
    if input.Typed? { TypedIff(input.s, email); }
  }

  // ---- what stands in the way ----

  predicate Active(s: State, user: Uuid) {
    user in s.db.users && s.db.users[user].active && s.db.users[user].identityId.Some?
  }

  /** The user is active and linked to an identity that can be read. */
  predicate Reachable(s: State, e: Env, user: Uuid) {
    Active(s, user) && e.readsUp && s.db.users[user].identityId.value in s.identity
  }

  function AccountOf(s: State, e: Env, user: Uuid): Account
    requires Reachable(s, e, user)
  {
    s.identity[s.db.users[user].identityId.value]
  }

  /** Nobody else has the address, in any case: no user in the table that the check read, no identity. */
  predicate NobodyHas(s: State, e: Env, user: Uuid, email: string)
    requires Reachable(s, e, user)
  {
    && (forall v :: v in e.seen && v != user ==> Lower(e.seen[v].email) != Lower(email))
    && e.searchUp
    && (forall j :: j in s.identity && j != s.db.users[user].identityId.value ==>
       Lower(s.identity[j].email) != Lower(email))
  }

  /** The outbox takes the e-mail. */
  predicate Queues(t: Table, e: Env, m: Mail) {
    && m.locale in {"th", "en"} && RecipientOk(m.recipient)
    && (HasKey(t, m.dedupeKey) || e.outboxId !in t)
  }

  lemma VerifyQueuesIff(t: Table, e: Env, email: string, locale: string)
    ensures EnqueueCode(Enqueue(t, e.outboxId, VerifyMail(e.token, email, locale, e.changeId), e.now)).None?
            <==> Queues(t, e, VerifyMail(e.token, email, locale, e.changeId))
  {
    assert |VerifyKey(e.changeId)| <= 200;
  }

  lemma NoticeQueuesIff(t: Table, e: Env, email: string, account: Account, user: Uuid)
    requires '@' in email
    ensures EnqueueCode(Enqueue(t, e.outboxId, ChangedMail(email, e.now, account, user, e.nonce), e.now)).None?
            <==> Queues(t, e, ChangedMail(email, e.now, account, user, e.nonce))
  {
    assert |ChangedKey(user, e.nonce)| <= 200;
  }

  /**
    The address can be written now: the index has no other user with this text, the notice is taken, the
    server takes the address.
  */
  predicate Writable(s: State, e: Env, user: Uuid, email: string)
    requires Reachable(s, e, user)
  {
    && (forall v :: v in s.db.users && v != user ==> s.db.users[v].email != email)
    && NoticeTaken(s, e, user, email) && e.write == Taken
  }

  /** The request can be stored: its id and token are new, and the outbox takes its e-mail. */
  predicate Storable(s: State, e: Env, user: Uuid, email: string)
    requires Reachable(s, e, user)
  {
    && e.changeId !in s.db.changes && (forall k :: k in s.db.changes ==> s.db.changes[k].tokenHash != Sha256(e.token))
    && Queues(s.db.outbox, e, VerifyMail(e.token, email, AccountOf(s, e, user).locale, e.changeId))
  }

  lemma AskedHasAt(input: BodyField, email: string)
    requires Asks(input, email)
    ensures '@' in email
  {
    var a, b, c :| Reads(email, a, b, c);
    assert email[|a|] == '@';
  }

  lemma FreeIff(s: State, e: Env, user: Uuid, email: string)
    requires Reachable(s, e, user)
    ensures FreeRefusal(s, e, user, s.db.users[user].identityId.value, email).None? <==> NobodyHas(s, e, user, email)
  {
  }

  lemma WritableIff(s: State, e: Env, user: Uuid, email: string)
    requires Reachable(s, e, user) && '@' in email
    ensures ApplyRefusal(s, e, user, AccountOf(s, e, user), email).None? <==> Writable(s, e, user, email)
  {
    NoticeQueuesIff(s.db.outbox, e, email, AccountOf(s, e, user), user);
  }

  /** The notice to the old address, if there is one, is taken. */
  predicate NoticeTaken(s: State, e: Env, user: Uuid, email: string)
    requires Reachable(s, e, user)
  {
    var account := AccountOf(s, e, user);
    account.email != "" ==> Queues(s.db.outbox, e, ChangedMail(email, e.now, account, user, e.nonce))
  }

  /** The errors of the uniqueness check: a user first, then a search that is down, then an identity. */
  lemma FreeAnswers(s: State, e: Env, user: Uuid, email: string)
    requires Reachable(s, e, user)
    ensures var k := s.db.users[user].identityId.value;
            var refusal := FreeRefusal(s, e, user, k, email);
            var local := exists v :: v in e.seen && v != user && Lower(e.seen[v].email) == Lower(email);
            var other := exists j :: j in s.identity && j != k && Lower(s.identity[j].email) == Lower(email);
            && (refusal == Some(EmailInUse) <==> local || (e.searchUp && other))
            && (refusal == Some(IdentityUnavailable) <==> !local && !e.searchUp)
            && (refusal == None <==> !local && e.searchUp && !other)
  {
  }

  /** The errors of the change itself: the index, the outbox, then what the identity server answers. */
  lemma ApplyAnswers(s: State, e: Env, user: Uuid, email: string)
    requires Reachable(s, e, user) && '@' in email
    ensures var refusal := ApplyRefusal(s, e, user, AccountOf(s, e, user), email);
            var taken := exists v :: v in s.db.users && v != user && s.db.users[v].email == email;
            var asked := !taken && NoticeTaken(s, e, user, email);
            && (refusal == Some(EmailInUse) <==> taken || (asked && e.write == Conflict))
            && (refusal == Some(IdentityUnavailable) <==> asked && e.write == Down)
            && (refusal == None <==> asked && e.write == Taken)
            && (refusal == Some(TemplateError) || refusal == Some(ConstraintViolation) <==> !taken && !asked)
  {
    NoticeQueuesIff(s.db.outbox, e, email, AccountOf(s, e, user), user);
  }

  lemma StorableIff(s: State, e: Env, user: Uuid, email: string)
    requires Reachable(s, e, user)
    ensures InsertRefusal(s.db, e, user, AccountOf(s, e, user), email).None? <==> Storable(s, e, user, email)
  {
    VerifyQueuesIff(s.db.outbox, e, email, AccountOf(s, e, user).locale);
    var cancelled := CancelPending(s.db.changes, user, e.now);
    assert forall k :: k in cancelled ==> cancelled[k].tokenHash == s.db.changes[k].tokenHash;
    assert !HasPending(cancelled, user);
  }

  // ---- requests ----

  /** The user's pending request is cancelled, anything else stays. */
  function Superseded(c: Change, user: Uuid, now: int): Change {
    if c.user == user && c.status == PENDING then c.(status := CANCELLED, completedAt := Some(now)) else c
  }

  /** What every tenant's rule but ADMIN_ONLY asks for. */
  ghost predicate MayAsk(s: State, e: Env, user: Uuid, email: string) {
    && !e.limited && Reachable(s, e, user)
    && Lower(AccountOf(s, e, user).email) != email && NobodyHas(s, e, user, email)
  }

  /**
    A request for a valid address goes through exactly if the commit does and: under VERIFY it may be
    asked for and can be stored, and waits for 24 hours; under IMMEDIATE it may be asked for and can be
    written, and is done. Under ADMIN_ONLY it never goes through.
  */
  lemma RequestSucceedsIff(s: State, e: Env, user: Uuid, input: BodyField, email: string)
    requires Asks(input, email)
    ensures var reply := Request(s, e, user, input).1;
            match s.db.policy
            case VERIFY =>
              reply == Waiting(email, e.now + 86_400_000) <==>
                e.commits && MayAsk(s, e, user, email) && Storable(s, e, user, email)
            case IMMEDIATE =>
              reply == Changed(email) <==> e.commits && MayAsk(s, e, user, email) && Writable(s, e, user, email)
            case ADMIN_ONLY => reply.Denied?
    ensures var reply := Request(s, e, user, input).1;
            || reply.Denied?
            || reply == (if s.db.policy.IMMEDIATE? then Changed(email) else Waiting(email, e.now + 86_400_000))
  {
    AsksIff(input, email);
    AskedHasAt(input, email);
    AcceptedIff(s, e, user, input, email);
    ReplyOf(s, e, user, input, email);
  }

  /** Nothing refuses the request. */
  ghost predicate Accepts(s: State, e: Env, user: Uuid, email: string) {
    && MayAsk(s, e, user, email)
    && match s.db.policy
       case VERIFY => Storable(s, e, user, email)
       case IMMEDIATE => Writable(s, e, user, email)
       case ADMIN_ONLY => false
  }

  lemma AcceptedIff(s: State, e: Env, user: Uuid, input: BodyField, email: string)
    requires EmailOf(input) == Some(email) && '@' in email
    ensures RequestRefusal(s, e, user, input).None? <==> Accepts(s, e, user, email)
  {
    AdmitsIff(s, e, user, input, email);
    if Reachable(s, e, user) {
      WritableIff(s, e, user, email);
      StorableIff(s, e, user, email);
    }
  }

  lemma AdmitsIff(s: State, e: Env, user: Uuid, input: BodyField, email: string)
    requires EmailOf(input) == Some(email)
    ensures AdmitRefusal(s, e, user, input).None? <==> MayAsk(s, e, user, email) && !s.db.policy.ADMIN_ONLY?
  {
    if Reachable(s, e, user) { FreeIff(s, e, user, email); }
  }

  lemma ReplyOf(s: State, e: Env, user: Uuid, input: BodyField, email: string)
    requires EmailOf(input) == Some(email)
    ensures var refusal := RequestRefusal(s, e, user, input);
            Request(s, e, user, input).1 ==
            if refusal.Some? then Denied(refusal.value)
            else if !e.commits then Denied(CommitFailed)
            else if s.db.policy.IMMEDIATE? then Changed(email) else Waiting(email, e.now + 86_400_000)
  {
  }

  /** The identity's own address is the one asked for. */
  predicate IsOwn(s: State, e: Env, user: Uuid, email: Option<string>) {
    Reachable(s, e, user) && Some(Lower(AccountOf(s, e, user).email)) == email
  }

  /**
    Errors of a request, the first that applies; what the tenant forbids is refused before the identity
    server is asked.
  */
  predicate RefusedRightly(s: State, e: Env, user: Uuid, valid: bool, own: bool, refusal: Option<Code>) {
    && (refusal == Some(ValidationFailed) <==> !valid)
    && (refusal == Some(RateLimited) <==> valid && e.limited)
    && (refusal == Some(EmailChangeNotAllowed) <==> valid && !e.limited && Active(s, user) && s.db.policy.ADMIN_ONLY?)
    && (refusal == Some(SameEmail) <==> valid && !e.limited && own && !s.db.policy.ADMIN_ONLY?)
  }

  lemma RequestRefusals(s: State, e: Env, user: Uuid, input: BodyField)
    ensures var (s', reply) := Request(s, e, user, input);
            var valid := exists email :: Asks(input, email);
            var own := exists email :: Asks(input, email) && IsOwn(s, e, user, Some(email));
            && RefusedRightly(s, e, user, valid, own, if reply.Denied? then Some(reply.code) else None)
            && (s.db.policy.ADMIN_ONLY? ==> s' == s)
  {
    AdmitCodes(s, e, user, input);
    LaterCodes(s, e, user, input);
    AnswerOfRefusal(s, e, user, input);
    forall email ensures Asks(input, email) <==> EmailOf(input) == Some(email) { AsksIff(input, email); }
    if EmailOf(input).Some? { assert Asks(input, EmailOf(input).value); }
  }

  lemma AdmitCodes(s: State, e: Env, user: Uuid, input: BodyField)
    ensures var own := EmailOf(input).Some? && IsOwn(s, e, user, EmailOf(input));
            RefusedRightly(s, e, user, EmailOf(input).Some?, own, AdmitRefusal(s, e, user, input))
    ensures s.db.policy.ADMIN_ONLY? ==> AdmitRefusal(s, e, user, input).Some?
  {
  }

  /** What is refused later is refused for other reasons. */
  predicate OtherCode(refusal: Option<Code>) {
    refusal != Some(ValidationFailed) && refusal != Some(RateLimited)
    && refusal != Some(EmailChangeNotAllowed) && refusal != Some(SameEmail)
  }

  lemma LaterCodes(s: State, e: Env, user: Uuid, input: BodyField)
    ensures AdmitRefusal(s, e, user, input).Some? ==>
              RequestRefusal(s, e, user, input) == AdmitRefusal(s, e, user, input)
    ensures AdmitRefusal(s, e, user, input).None? ==> OtherCode(RequestRefusal(s, e, user, input))
  {
  }

  lemma AnswerOfRefusal(s: State, e: Env, user: Uuid, input: BodyField)
    ensures var (s', reply) := Request(s, e, user, input);
            var refusal := RequestRefusal(s, e, user, input);
            if refusal.Some? then s' == s && reply == Denied(refusal.value)
            else !reply.Denied? || reply == Denied(CommitFailed)
  {
  }

  /** What a request that waits has stored. */
  lemma WaitingStores(s: State, e: Env, user: Uuid, input: BodyField)
    requires Request(s, e, user, input).1.Waiting?
    ensures var (s', reply) := Request(s, e, user, input);
            && e.changeId in s'.db.changes
            && s'.db.changes[e.changeId]
               == Change(user, reply.email, Sha256(e.token), PENDING, e.now, e.now + 86_400_000, None)
            && (forall k :: k in s.db.changes ==>
                  k in s'.db.changes && s'.db.changes[k] == Superseded(s.db.changes[k], user, e.now))
            && s'.db.changes.Keys == s.db.changes.Keys + {e.changeId}
            && s'.db.audits == s.db.audits + [AuditEvent(user, "email.change.requested", "", Some(e.changeId), e.now)]
            && s'.db.users == s.db.users && s'.identity == s.identity && s'.db.policy == s.db.policy
  {
    WaitingInserts(s, e, user, input);
    WaitingEnqueues(s, e, user, input);
  }

  /** What a change that is done has stored: both addresses, the user's requests, one audit event. */
  predicate Done(s: State, s': State, e: Env, user: Uuid, email: string, mode: string, id: Option<Uuid>) {
    && user in s.db.users && s.db.users[user].identityId.Some? && s.db.users[user].identityId.value in s.identity
    && var k := s.db.users[user].identityId.value;
    && s'.db.users == s.db.users[user := s.db.users[user].(email := email)]
    && s'.identity == s.identity[k := s.identity[k].(email := email)]
    && s'.db.audits == s.db.audits + [AuditEvent(user, "email.change.confirmed", mode, id, e.now)]
    && s'.db.policy == s.db.policy
  }

  lemma ImmediateStores(s: State, e: Env, user: Uuid, input: BodyField)
    requires Request(s, e, user, input).1.Changed?
    ensures var (s', reply) := Request(s, e, user, input);
            && Done(s, s', e, user, reply.email, "IMMEDIATE", None) && s'.db.changes.Keys == s.db.changes.Keys
            && forall k :: k in s.db.changes ==> s'.db.changes[k] == Superseded(s.db.changes[k], user, e.now)
  {
  }

  // ---- confirms ----

  /** The conditions of a change under `CanSet`, written out. */
  lemma CanSetIff(s: State, e: Env, user: Uuid, email: string)
    requires '@' in email
    ensures CanSet(s, e, user, email) <==>
              && e.commits && Reachable(s, e, user) && s.db.policy != AccountPolicy.ADMIN_ONLY
              && NobodyHas(s, e, user, email) && Writable(s, e, user, email)
  {
    if Reachable(s, e, user) {
      FreeIff(s, e, user, email);
      WritableIff(s, e, user, email);
    }
  }

  /** A text of 1 to 512 characters that is the token of a pending request of the user. */
  predicate Opens(s: State, user: Uuid, input: BodyField, id: Uuid) {
    && input.Typed? && 1 <= |input.s| <= 512 && id in s.db.changes
    && s.db.changes[id].user == user && s.db.changes[id].tokenHash == Sha256(input.s) && s.db.changes[id].status
       == PENDING
  }

  ghost predicate OpensNone(s: State, user: Uuid, input: BodyField) {
    forall id :: !Opens(s, user, input, id)
  }

  /** What a confirm answers for a text that cannot be a token or opens no request. */
  lemma ConfirmAnswers(s: State, e: Env, user: Uuid, input: BodyField)
    requires HashesDistinct(s.db.changes)
    ensures var (s', reply) := Confirm(s, e, user, input);
            && (reply == Denied(ValidationFailed) <==> !input.Typed? || !(1 <= |input.s| <= 512))
            && (input.Typed? && 1 <= |input.s| <= 512 && !Active(s, user) ==> reply == Denied(IdentityUnavailable))
            && (Active(s, user) && input.Typed? && 1 <= |input.s| <= 512 && OpensNone(s, user, input) ==>
                  s' == s && reply == Denied(if e.commits then EmailChangeExpired else CommitFailed))
  {
    if Active(s, user) && input.Typed? && 1 <= |input.s| <= 512 && OpensNone(s, user, input) {
      forall id | id in s.db.changes ensures !Matches(s.db.changes[id], user, Sha256(input.s)) {
        assert !Opens(s, user, input, id);
      }
      assert Matching(s.db.changes, user, Sha256(input.s)) == {};
    }
  }

  lemma CompletedMeans(db: Db, id: Uuid, status: ChangeStatus, now: int)
    requires id in db.changes
    ensures var db' := Completed(db, id, status, now);
            && db' == db.(changes := db'.changes) && db'.changes.Keys == db.changes.Keys
            && db'.changes[id] == db.changes[id].(status := status, completedAt := Some(now))
            && forall k :: k in db.changes && k != id ==> db'.changes[k] == db.changes[k]
  {
  }

  /** What a confirm answers and stores for the token of a pending request. */
  lemma ConfirmOpened(s: State, e: Env, user: Uuid, input: BodyField, id: Uuid)
    requires HashesDistinct(s.db.changes) && Active(s, user) && Opens(s, user, input, id)
             && '@' in s.db.changes[id].newEmail
    ensures var (s', reply) := Confirm(s, e, user, input);
            var c := s.db.changes[id];
            var late, allowed := e.now >= c.expiresAt, s.db.policy != AccountPolicy.ADMIN_ONLY;
            var able := Reachable(s, e, user) && NobodyHas(s, e, user, c.newEmail) && Writable(s, e, user, c.newEmail);
            && (reply == Changed(c.newEmail) <==> e.commits && !late && allowed && able)
            && (reply.Changed? ==> reply == Changed(c.newEmail))
            && (reply == Denied(EmailChangeNotAllowed) <==> !late && !allowed)
            && (late ==>
                  && reply == Denied(if e.commits then EmailChangeExpired else CommitFailed)
                  && s'.identity == s.identity
                  && s'.db == if e.commits then Completed(s.db, id, EXPIRED, e.now) else s.db)
            && (reply.Changed? ==>
                  && Done(s, s', e, user, c.newEmail, "VERIFIED", Some(id))
                  && s'.db.changes == Completed(s.db, id, CONFIRMED, e.now).changes)
  {
    var hash := Sha256(input.s);
    assert id in Matching(s.db.changes, user, hash);
    assert Found(s.db.changes, user, hash) == id;
    if Reachable(s, e, user) {
      FreeIff(s, e, user, s.db.changes[id].newEmail);
      WritableIff(s, e, user, s.db.changes[id].newEmail);
    }
  }

  // ---- cancels ----

  /** A cancel closes the user's pending request, if there is one, and then says so in the audit trail. */
  lemma CancelAnswers(s: State, e: Env, user: Uuid)
    ensures var (s', reply) := Cancel(s, e, user);
            && (reply == Cancelled <==> Active(s, user) && e.commits)
            && (reply == Denied(IdentityUnavailable) <==> !Active(s, user))
            && (reply != Cancelled ==> s' == s)
            && (reply == Cancelled ==>
                  && s' == State(s.db.(changes := s'.db.changes, audits := s'.db.audits), s.identity)
                  && s'.db.changes.Keys == s.db.changes.Keys
                  && (forall k :: k in s.db.changes ==> s'.db.changes[k] == Superseded(s.db.changes[k], user, e.now))
                  && s'.db.audits == s.db.audits +
                     (if exists k :: k in s.db.changes && Superseded(s.db.changes[k], user, e.now) != s.db.changes[k]
                      then [AuditEvent(user, "email.change.cancelled", "", None, e.now)] else []))
  {
  }
}

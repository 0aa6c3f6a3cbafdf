/**
  Database and identity server around one e-mail change: what a failure leaves behind, when the two
  agree, why addresses stay distinct, and the e-mails that committed transactions put in the outbox.
*/
module EmailChangeSafety {
  import opened Prelude
  import opened Strings
  import opened Templates
  import opened Outbox
  import opened EmailChange
  import opened EmailChangeRuns
  import OutboxProtocol

  // ---- failures ----

  /** `after` is `before` with one overdue request of the user marked EXPIRED. */
  predicate OnlyMarkedExpired(before: Db, after: Db, user: Uuid, now: int) {
    exists id :: id in before.changes && before.changes[id].user == user && before.changes[id].status == PENDING
                 && before.changes[id].expiresAt <= now && after == Completed(before, id, EXPIRED, now)
  }

  /**
    A refused operation leaves the database as it was, except that a late confirm marks its request
    EXPIRED, and leaves the identity server as it was unless it is the commit itself that failed.
  */
  lemma RefusedRequestLeavesState(s: State, e: Env, user: Uuid, input: BodyField)
    ensures var (s', reply) := Request(s, e, user, input);
            reply.Denied? ==> s'.db == s.db && (s'.identity == s.identity || reply.code == CommitFailed)
  {
  }

  lemma RefusedConfirmLeavesState(s: State, e: Env, user: Uuid, input: BodyField)
    ensures var (s', reply) := Confirm(s, e, user, input);
            reply.Denied? ==>
              && (s'.db == s.db || (reply.code == EmailChangeExpired && OnlyMarkedExpired(s.db, s'.db, user, e.now)))
              && (s'.identity == s.identity || reply.code == CommitFailed)
  {
  }

  lemma RefusedCancelLeavesState(s: State, e: Env, user: Uuid)
    ensures var (s', reply) := Cancel(s, e, user);
            s'.identity == s.identity && (reply.Denied? ==> s'.db == s.db)
  {
  }

  // ---- agreement with the identity server ----

  predicate Linked(users: map<Uuid, User>, u: Uuid) {
    u in users && users[u].identityId.Some?
  }

  ghost predicate Synced(s: State) {
    && (forall u :: Linked(s.db.users, u) ==>
          var k := s.db.users[u].identityId.value;
          k in s.identity && s.identity[k].email == s.db.users[u].email)
    && (forall u, v | Linked(s.db.users, u) && Linked(s.db.users, v) && u != v ::
          s.db.users[u].identityId != s.db.users[v].identityId)
  }

  /** Writing the same address in both places keeps them in step. */
  lemma SetBothKeepsSync(s: State, s': State, user: Uuid, email: string)
    requires Synced(s) && IdentityOf(s.db, user).Some? && user in s.db.users
    requires var k := IdentityOf(s.db, user).value;
             && k in s.identity && s'.identity == s.identity[k := s.identity[k].(email := email)]
             && s'.db.users == s.db.users[user := s.db.users[user].(email := email)]
    ensures Synced(s')
  {
    assert forall u :: Linked(s'.db.users, u) <==> Linked(s.db.users, u);
  }

  /** Writing a new address at the identity server alone breaks the agreement. */
  lemma SetIdentityAloneBreaksSync(s: State, s': State, user: Uuid, email: string)
    requires Synced(s) && IdentityOf(s.db, user).Some? && s'.db == s.db
    requires var k := IdentityOf(s.db, user).value;
             k in s.identity && s'.identity == s.identity[k := s.identity[k].(email := email)]
    ensures Synced(s') <==> s'.identity == s.identity
  {
    assert Linked(s.db.users, user);
  }

  /** The request is one whose last step before the commit is a call to the identity server. */
  predicate RequestPushes(s: State, e: Env, user: Uuid, input: BodyField) {
    RequestRefusal(s, e, user, input).None? && s.db.policy.IMMEDIATE?
  }

  /** The token opens a request of a linked user. */
  predicate ConfirmMatches(s: State, user: Uuid, input: BodyField) {
    && input.Typed? && 1 <= |input.s| <= 512 && IdentityOf(s.db, user).Some?
    && Matching(s.db.changes, user, Sha256(input.s)) != {}
  }

  ghost function Opened(s: State, user: Uuid, input: BodyField): Change
    requires ConfirmMatches(s, user, input)
  {
    s.db.changes[Found(s.db.changes, user, Sha256(input.s))]
  }

  /** That request is in time and passes all checks. */
  ghost predicate ConfirmPasses(s: State, e: Env, user: Uuid, input: BodyField) {
    && ConfirmMatches(s, user, input)
    && e.now < Opened(s, user, input).expiresAt && ConfirmRefusal(s, e, user, Opened(s, user, input)).None?
  }

  /** And the address is new to the identity server. */
  ghost predicate ConfirmPushes(s: State, e: Env, user: Uuid, input: BodyField) {
    && ConfirmPasses(s, e, user, input)
    && s.identity[IdentityOf(s.db, user).value].email != Opened(s, user, input).newEmail
  }

  /**
    In step before, in step after, unless the commit fails behind a change that the identity server
    has taken: an immediate one that nothing refused, or a confirm in time that nothing refused and
    that changes the address.
  */
  lemma SyncedIff(s: State, e: Env, user: Uuid, input: BodyField)
    requires Synced(s)
    ensures Synced(Request(s, e, user, input).0) <==> e.commits || !RequestPushes(s, e, user, input)
    ensures Synced(Confirm(s, e, user, input).0) <==> e.commits || !ConfirmPushes(s, e, user, input)
    ensures Synced(Cancel(s, e, user).0)
  {
    RequestSync(s, e, user, input);
    ConfirmSync(s, e, user, input);
    SameSync(s, Cancel(s, e, user).0);
  }

  lemma SameSync(s: State, s': State)
    requires Synced(s) && s'.db.users == s.db.users && s'.identity == s.identity
    ensures Synced(s')
  {
    assert forall u :: Linked(s'.db.users, u) <==> Linked(s.db.users, u);
  }

  lemma RequestSync(s: State, e: Env, user: Uuid, input: BodyField)
    requires Synced(s)
    ensures Synced(Request(s, e, user, input).0) <==> e.commits || !RequestPushes(s, e, user, input)
  {
    var s' := Request(s, e, user, input).0;
    if !RequestPushes(s, e, user, input) {
      SameSync(s, s');
    } else {
      var k, email := IdentityOf(s.db, user).value, EmailOf(input).value;
      LowerTwice(Trim(input.s));
      assert s.identity[k].email != email;
      if e.commits {
        SetBothKeepsSync(s, s', user, email);
      } else {
        SetIdentityAloneBreaksSync(s, s', user, email);
      }
    }
  }

  lemma ConfirmSync(s: State, e: Env, user: Uuid, input: BodyField)
    requires Synced(s)
    ensures Synced(Confirm(s, e, user, input).0) <==> e.commits || !ConfirmPushes(s, e, user, input)
  {
    var s' := Confirm(s, e, user, input).0;
    if s'.identity == s.identity && s'.db.users == s.db.users {
      SameSync(s, s');
    } else {
      var c := s.db.changes[Found(s.db.changes, user, Sha256(input.s))];
      if e.commits {
        SetBothKeepsSync(s, s', user, c.newEmail);
      } else {
        SetIdentityAloneBreaksSync(s, s', user, c.newEmail);
      }
    }
  }

  /**
    After a failed commit the identity server is ahead "until repeated", says the source's header.
    For a confirm that is so: the request is still PENDING, and repeating the confirm repairs it exactly
    if the repetition comes in time and is itself able to set the address.
  */
  lemma RepeatedConfirmRepairsIff(s: State, e: Env, e2: Env, user: Uuid, input: BodyField)
    requires Synced(s) && HashesDistinct(s.db.changes)
    requires !e.commits && ConfirmPushes(s, e, user, input)
    ensures var s' := Confirm(s, e, user, input).0;
            var c := s.db.changes[Found(s.db.changes, user, Sha256(input.s))];
            var (s'', reply) := Confirm(s', e2, user, input);
            var able := e2.now < c.expiresAt && CanSet(s', e2, user, c.newEmail);
            && !Synced(s') && (Synced(s'') <==> able)
            && (able ==> reply == Changed(c.newEmail) && s''.identity == s'.identity)
  {
    ConfirmSync(s, e, user, input);
    var s' := Confirm(s, e, user, input).0;
    var id := Found(s.db.changes, user, Sha256(input.s));
    assert Found(s'.db.changes, user, Sha256(input.s)) == id;
    var email, k := s.db.changes[id].newEmail, IdentityOf(s.db, user).value;
    var s'' := Confirm(s', e2, user, input).0;
    SameAddressAgain(s.identity, k, email);
    assert s''.identity == s'.identity;
    if e2.now < s.db.changes[id].expiresAt && CanSet(s', e2, user, email) {
      SetBothKeepsSync(s, s'', user, email);
    } else if Synced(s'') {
      SameSync(s'', s');
    }
  }

  lemma SameAddressAgain(d: Directory, k: IdentityId, email: string)
    requires k in d
    ensures var once := d[k := d[k].(email := email)]; once[k := once[k].(email := email)] == once
  {
  }

  /**
    For an immediate change it is not so: repeating the request is refused as SAME, whatever else the
    surroundings do, and database and identity server stay apart.
  */
  lemma RepeatedImmediateIsRefused(s: State, e: Env, e2: Env, user: Uuid, input: BodyField)
    requires Synced(s)
    requires var (s', reply) := Request(s, e, user, input); reply == Denied(CommitFailed) && s'.identity != s.identity
    ensures var s' := Request(s, e, user, input).0;
            var (s'', reply) := Request(s', e2, user, input);
            s'' == s' && !Synced(s'') && (!e2.limited && e2.readsUp ==> reply == Denied(SameEmail))
  {
    RequestSync(s, e, user, input);
    LowerTwice(Trim(input.s));
  }

  // ---- distinct addresses ----

  predicate Distinct(users: map<Uuid, User>) {
    forall u, v :: u in users && v in users && u != v ==> Lower(users[u].email) != Lower(users[v].email)
  }

  predicate AllLower(users: map<Uuid, User>) {
    forall u :: u in users ==> Lower(users[u].email) == users[u].email
  }

  predicate IsLower(s: string) { Lower(s) == s }

  /** Each address is one that an operation has set, in lower case, or the one there was at the start. */
  predicate LowerOrKept(start: map<Uuid, User>, users: map<Uuid, User>) {
    && users.Keys == start.Keys
    && forall u :: u in users ==> IsLower(users[u].email) || users[u].email == start[u].email
  }

  /** What the index is for. */
  predicate TextsDiffer(users: map<Uuid, User>) {
    forall u, v :: u in users && v in users && u != v ==> users[u].email != users[v].email
  }

  /** What an operation does to the users table: nothing, or one address that passed both checks. */
  ghost predicate SetsChecked(s: State, s': State, e: Env, user: Uuid) {
    || s'.db.users == s.db.users
    || (user in s.db.users && exists email :: SetsAddress(s, s', e, user, email))
  }

  predicate SetsAddress(s: State, s': State, e: Env, user: Uuid, email: string)
    requires user in s.db.users
  {
    && s'.db.users == s.db.users[user := s.db.users[user].(email := email)]
    && !TakenBy(e.seen, user, email) && !IndexTaken(s.db.users, user, email)
    && (RequestsLower(s.db.changes) ==> Lower(email) == email)
  }

  predicate RequestsLower(changes: map<Uuid, Change>) {
    forall id :: id in changes ==> Lower(changes[id].newEmail) == changes[id].newEmail
  }

  lemma RequestSetsChecked(s: State, e: Env, user: Uuid, input: BodyField)
    ensures SetsChecked(s, Request(s, e, user, input).0, e, user)
    ensures RequestsLower(s.db.changes) ==> RequestsLower(Request(s, e, user, input).0.db.changes)
  {
    if input.Typed? { LowerTwice(Trim(input.s)); }
    var (s', reply) := Request(s, e, user, input);
    if reply.Changed? { assert SetsAddress(s, s', e, user, reply.email); }
  }

  lemma ConfirmSetsChecked(s: State, e: Env, user: Uuid, input: BodyField)
    ensures SetsChecked(s, Confirm(s, e, user, input).0, e, user)
    ensures RequestsLower(s.db.changes) ==> RequestsLower(Confirm(s, e, user, input).0.db.changes)
  {
    var (s', reply) := Confirm(s, e, user, input);
    if reply.Changed? { assert SetsAddress(s, s', e, user, reply.email); }
  }

  /** With a current view of the users, the case-insensitive check keeps all addresses distinct. */
  lemma CurrentCheckKeepsDistinct(s: State, e: Env, user: Uuid, input: BodyField)
    requires Distinct(s.db.users) && e.seen == s.db.users
    ensures Distinct(Request(s, e, user, input).0.db.users)
    ensures Distinct(Confirm(s, e, user, input).0.db.users)
  {
    RequestSetsChecked(s, e, user, input);
    ConfirmSetsChecked(s, e, user, input);
  }

  /**
    Over any run, with commits failing at will and every uniqueness check answered from an arbitrary
    earlier table: two addresses that are the same but for their case are never both of the operations'
    making. One of them has stood there with a capital letter since the start.
  */
  lemma StaleChecksKeepDistinct(w: World, steps: seq<Step>)
    requires Fresh(w) && TextsDiffer(w.s.db.users)
    ensures var start, users := w.s.db.users, Run(w, steps).s.db.users;
            && users.Keys == start.Keys
            && (forall u, v | u in users && v in users && u != v && Lower(users[u].email) == Lower(users[v].email) ::
                  || (!IsLower(users[u].email) && users[u].email == start[u].email)
                  || (!IsLower(users[v].email) && users[v].email == start[v].email))
            && (AllLower(start) ==> Distinct(users) && AllLower(users))
  {
    AddressesRun(w, steps);
  }

  ghost predicate AddressesOk(start: map<Uuid, User>, db: Db) {
    TextsDiffer(db.users) && LowerOrKept(start, db.users) && RequestsLower(db.changes)
  }

  lemma {:induction false} AddressesRun(w: World, steps: seq<Step>)
    requires Fresh(w) && TextsDiffer(w.s.db.users)
    ensures AddressesOk(w.s.db.users, Run(w, steps).s.db)
    decreases |steps|
  {
    if steps != [] {
      AddressesRun(w, Init(steps));
      AddressesStep(w.s.db.users, Run(w, Init(steps)), Last(steps));
    }
  }

  lemma AddressesStep(start: map<Uuid, User>, w: World, step: Step)
    requires AddressesOk(start, w.s.db)
    ensures AddressesOk(start, Apply(w, step).s.db)
  {
    match step {
      case DoRequest(user, input, e) =>
        RequestSetsChecked(w.s, e, user, input);
        LowerStep(start, w.s, Apply(w, step).s, e, user);
      case DoConfirm(user, input, e) =>
        ConfirmSetsChecked(w.s, e, user, input);
        LowerStep(start, w.s, Apply(w, step).s, e, user);
      case _ =>
    }
  }

  lemma LowerStep(start: map<Uuid, User>, s: State, s': State, e: Env, user: Uuid)
    requires TextsDiffer(s.db.users) && LowerOrKept(start, s.db.users) && RequestsLower(s.db.changes)
    requires SetsChecked(s, s', e, user)
    ensures TextsDiffer(s'.db.users) && LowerOrKept(start, s'.db.users)
  {
    if s'.db.users != s.db.users {
      var email :| SetsAddress(s, s', e, user, email);
    }
  }

  // ---- agreement over runs ----

  /** The step is a call to the identity server whose commit then fails. */
  ghost predicate Loses(s: State, step: Step) {
    match step
    case DoRequest(user, input, e) => !e.commits && RequestPushes(s, e, user, input)
    case DoConfirm(user, input, e) => !e.commits && ConfirmPushes(s, e, user, input)
    case _ => false
  }

  lemma SyncedStepIff(w: World, step: Step)
    requires Synced(w.s)
    ensures Synced(Apply(w, step).s) <==> !Loses(w.s, step)
  {
    match step {
      case DoRequest(user, input, e) => RequestSync(w.s, e, user, input);
      case DoConfirm(user, input, e) => ConfirmSync(w.s, e, user, input);
      case _ => SameSync(w.s, Apply(w, step).s);
    }
  }

  /**
    Over any run, `users.email` is the identity server's address throughout exactly when no step loses
    its commit behind a change that the identity server took.
  */
  lemma SyncedThroughoutIff(w: World, steps: seq<Step>)
    requires Synced(w.s)
    ensures (forall n :: 0 <= n <= |steps| ==> Synced(Run(w, steps[..n]).s)) <==>
            (forall n :: 0 <= n < |steps| ==> !Loses(Run(w, steps[..n]).s, steps[n]))
  {
    if forall n :: 0 <= n <= |steps| ==> Synced(Run(w, steps[..n]).s) {
      forall n | 0 <= n < |steps| ensures !Loses(Run(w, steps[..n]).s, steps[n]) {
        RunOneMore(w, steps, n);
        assert Synced(Run(w, steps[..n]).s) && Synced(Run(w, steps[..n + 1]).s);
        SyncedStepIff(Run(w, steps[..n]), steps[n]);
      }
    }
    if forall n :: 0 <= n < |steps| ==> !Loses(Run(w, steps[..n]).s, steps[n]) {
      forall n | 0 <= n <= |steps| ensures Synced(Run(w, steps[..n]).s) {
        SyncedSoFar(w, steps, n);
      }
    }
  }

  lemma {:induction false} SyncedSoFar(w: World, steps: seq<Step>, n: nat)
    requires n <= |steps| && Synced(w.s)
    requires forall k :: 0 <= k < |steps| ==> !Loses(Run(w, steps[..k]).s, steps[k])
    ensures Synced(Run(w, steps[..n]).s)
  {
    if n > 0 {
      SyncedSoFar(w, steps, n - 1);
      RunOneMore(w, steps, n - 1);
      SyncedStepIff(Run(w, steps[..n - 1]), steps[n - 1]);
    }
  }

  predicate Commits(step: Step) {
    match step
    case DoRequest(_, _, e) => e.commits
    case DoConfirm(_, _, e) => e.commits
    case _ => true
  }

  /** In particular over any run in which no commit of a change fails. */
  lemma SyncedRun(w: World, steps: seq<Step>)
    requires Synced(w.s) && forall k :: 0 <= k < |steps| ==> Commits(steps[k])
    ensures Synced(Run(w, steps).s)
  {
    SyncedThroughoutIff(w, steps);
    forall n | 0 <= n < |steps| ensures !Loses(Run(w, steps[..n]).s, steps[n]) {
      assert Commits(steps[n]);
    }
    assert steps[..|steps|] == steps;
  }

  // ---- the outbox ----

  lemma VerifyKeysDiffer(a: Uuid, b: Uuid)
    requires VerifyKey(a) == VerifyKey(b)
    ensures a == b
  {
    assert VerifyKey(a)[13..49] == a && VerifyKey(b)[13..49] == b;
  }

  lemma KeyKindsDiffer(a: Uuid, user: Uuid, nonce: Uuid)
    ensures VerifyKey(a) != ChangedKey(user, nonce)
  {
    assert VerifyKey(a)[12] == ':' && ChangedKey(user, nonce)[12] == 'd';
  }

  /** An open row whose variables pass the template checks and whose date, if it has one, is a real one. */
  predicate RowSound(r: Row) {
    Open(r) && r.variables.Some? ==>
      && KnownTemplate(r.template) && KnownLocale(r.locale) && VariablesOk(r.template, r.variables.value)
      && (r.template == VERIFY || ("changedAt" in r.variables.value && r.variables.value["changedAt"].Instant?))
  }

  /** Requests and verify e-mails belong to each other. */
  ghost predicate VerifyRowsMatch(s: State) {
    && (forall id :: id in s.db.changes ==> HasKey(s.db.outbox, VerifyKey(id)))
    && (forall r, id: Uuid :: r in s.db.outbox && s.db.outbox[r].dedupeKey == VerifyKey(id) ==> id in s.db.changes)
  }

  ghost predicate OutboxInv(s: State) {
    && TableOk(s.db.outbox) && VerifyRowsMatch(s)
    && (forall r :: r in s.db.outbox ==> RowSound(s.db.outbox[r]))
  }

  lemma KeysKept(t: Table, t': Table, key: string)
    requires HasKey(t, key) && forall id :: id in t ==> id in t' && t'[id].dedupeKey == t[id].dedupeKey
    ensures HasKey(t', key)
  {
    var id :| id in t && t[id].dedupeKey == key;
    assert id in t' && t'[id].dedupeKey == key;
  }

  /** A mail that passes the enqueue checks and carries a real date gives a sound row. */
  lemma EnqueuedSound(t: Table, id: Id, m: Mail, now: int)
    requires TableOk(t) && (forall r :: r in t ==> RowSound(t[r]))
    requires m.template == VERIFY || ("changedAt" in m.variables && m.variables["changedAt"].Instant?)
    ensures var t' := TableAfter(t, Enqueue(t, id, m, now));
            TableOk(t') && forall r :: r in t' ==> RowSound(t'[r])
  {
    EnqueueOncePerKey(t, id, m, now);
  }

  predicate QueuesNotice(s: State, s': State, e: Env, user: Uuid, account: Account, email: string) {
    && s'.db.changes.Keys == s.db.changes.Keys
    && s'.db.outbox == if account.email == "" then s.db.outbox
                       else TableAfter(s.db.outbox,
                                       Enqueue(s.db.outbox, e.outboxId,
                                         ChangedMail(email, e.now, account, user, e.nonce), e.now))
  }

  predicate QueuesVerify(s: State, s': State, e: Env, account: Account, email: string) {
    && s'.db.changes.Keys == s.db.changes.Keys + {e.changeId}
    && var q := Enqueue(s.db.outbox, e.outboxId, VerifyMail(e.token, email, account.locale, e.changeId), e.now);
    EnqueueCode(q).None? && s'.db.outbox == TableAfter(s.db.outbox, q)
  }

  /** What each answer says about the outbox. */
  ghost predicate QueuesFor(s: State, s': State, e: Env, user: Uuid, reply: Reply) {
    match reply
    case Waiting(email, _) => exists account :: QueuesVerify(s, s', e, account, email)
    case Changed(email) => exists account :: QueuesNotice(s, s', e, user, account, email)
    case _ => s'.db.changes.Keys == s.db.changes.Keys && s'.db.outbox == s.db.outbox
  }

  lemma RequestQueues(s: State, e: Env, user: Uuid, input: BodyField)
    ensures var (s', reply) := Request(s, e, user, input); QueuesFor(s, s', e, user, reply)
  {
    var (s', reply) := Request(s, e, user, input);
    if !reply.Denied? {
      var account := s.identity[IdentityOf(s.db, user).value];
      assert reply.Waiting? ==> QueuesVerify(s, s', e, account, reply.email);
      assert reply.Changed? ==> QueuesNotice(s, s', e, user, account, reply.email);
    }
  }

  lemma ConfirmQueues(s: State, e: Env, user: Uuid, input: BodyField)
    ensures var (s', reply) := Confirm(s, e, user, input); QueuesFor(s, s', e, user, reply)
  {
    var (s', reply) := Confirm(s, e, user, input);
    if reply.Changed? {
      assert QueuesNotice(s, s', e, user, s.identity[IdentityOf(s.db, user).value], reply.email);
    }
  }

  /** A notice about a done change adds no verify row. */
  lemma NoticeKeepsOutbox(s: State, s': State, e: Env, user: Uuid, account: Account, email: string)
    requires OutboxInv(s) && QueuesNotice(s, s', e, user, account, email)
    ensures OutboxInv(s')
  {
    if account.email != "" {
      var m := ChangedMail(email, e.now, account, user, e.nonce);
      EnqueuedSound(s.db.outbox, e.outboxId, m, e.now);
      EnqueueFrame(s.db.outbox, e.outboxId, m, e.now);
      NoticeKeepsKeys(s, s', user, e.nonce);
    }
  }

  /** An enqueue keeps all rows; the one it may add has the mail's key. */
  lemma EnqueueFrame(t: Table, id: Id, m: Mail, now: int)
    ensures var t' := TableAfter(t, Enqueue(t, id, m, now));
            && (forall r :: r in t ==> r in t' && t'[r] == t[r])
            && (forall r :: r in t' && r !in t ==> t'[r].dedupeKey == m.dedupeKey)
  {
  }

  lemma NoticeKeepsKeys(s: State, s': State, user: Uuid, nonce: Uuid)
    requires OutboxInv(s) && s'.db.changes.Keys == s.db.changes.Keys
    requires forall r :: r in s.db.outbox ==> r in s'.db.outbox && s'.db.outbox[r] == s.db.outbox[r]
    requires forall r :: r in s'.db.outbox && r !in s.db.outbox ==> s'.db.outbox[r].dedupeKey == ChangedKey(user, nonce)
    ensures VerifyRowsMatch(s')
  {
    forall id | id in s'.db.changes ensures HasKey(s'.db.outbox, VerifyKey(id)) {
      KeysKept(s.db.outbox, s'.db.outbox, VerifyKey(id));
    }
    forall r, id: Uuid | r in s'.db.outbox && s'.db.outbox[r].dedupeKey == VerifyKey(id)
      ensures id in s'.db.changes
    {
      KeyKindsDiffer(id, user, nonce);
    }
  }

  /** A new request brings exactly its own verify row. */
  lemma VerifyKeepsOutbox(s: State, s': State, e: Env, account: Account, email: string)
    requires OutboxInv(s) && QueuesVerify(s, s', e, account, email)
    ensures OutboxInv(s')
  {
    var m := VerifyMail(e.token, email, account.locale, e.changeId);
    EnqueuedSound(s.db.outbox, e.outboxId, m, e.now);
    EnqueueOncePerKey(s.db.outbox, e.outboxId, m, e.now);
    forall id | id in s'.db.changes ensures HasKey(s'.db.outbox, VerifyKey(id)) {
      if id in s.db.changes { KeysKept(s.db.outbox, s'.db.outbox, VerifyKey(id)); }
    }
    forall r, id: Uuid | r in s'.db.outbox && s'.db.outbox[r].dedupeKey == VerifyKey(id)
      ensures id in s'.db.changes
    {
      if r !in s.db.outbox { VerifyKeysDiffer(id, e.changeId); }
    }
  }

  lemma OutboxAnswer(s: State, s': State, e: Env, user: Uuid, reply: Reply)
    requires OutboxInv(s) && QueuesFor(s, s', e, user, reply)
    ensures OutboxInv(s')
  {
    match reply {
      case Waiting(email, _) =>
        var account :| QueuesVerify(s, s', e, account, email);
        VerifyKeepsOutbox(s, s', e, account, email);
      case Changed(email) =>
        var account :| QueuesNotice(s, s', e, user, account, email);
        NoticeKeepsOutbox(s, s', e, user, account, email);
      case _ =>
    }
  }

  lemma OutboxDispatch(s: State, outbox: Table)
    requires OutboxInv(s) && TableOk(outbox)
    requires OutboxProtocol.TableEvolves(s.db.outbox, outbox) && outbox.Keys == s.db.outbox.Keys
    ensures OutboxInv(s.(db := s.db.(outbox := outbox)))
  {
    forall id | id in s.db.changes ensures HasKey(outbox, VerifyKey(id)) {
      KeysKept(s.db.outbox, outbox, VerifyKey(id));
    }
  }

  lemma {:induction false} OutboxRun(w: World, steps: seq<Step>)
    requires Fresh(w)
    ensures OutboxInv(Run(w, steps).s)
    decreases |steps|
  {
    if steps != [] {
      OutboxRun(w, Init(steps));
      var mid := Run(w, Init(steps));
      match Last(steps) {
        case DoRequest(user, input, e) =>
          RequestQueues(mid.s, e, user, input);
          OutboxAnswer(mid.s, Request(mid.s, e, user, input).0, e, user, Request(mid.s, e, user, input).1);
        case DoConfirm(user, input, e) =>
          ConfirmQueues(mid.s, e, user, input);
          OutboxAnswer(mid.s, Confirm(mid.s, e, user, input).0, e, user, Confirm(mid.s, e, user, input).1);
        case DoCancel(user, e) =>
        case DoSetPolicy(policy) =>
        case DoDispatch(outbox) => if Apply(mid, Last(steps)) != mid { OutboxDispatch(mid.s, outbox); }
      }
    }
  }

  /** A request owns exactly one verify e-mail if it was committed, and none otherwise. */
  lemma OneVerifyRowPerRequest(w: World, steps: seq<Step>, id: Uuid)
    requires Fresh(w)
    ensures var db := Run(w, steps).s.db;
            && (id in db.changes <==> HasKey(db.outbox, VerifyKey(id)))
            && (forall a, b | a in db.outbox && b in db.outbox ::
                  db.outbox[a].dedupeKey == db.outbox[b].dedupeKey == VerifyKey(id) ==> a == b)
  {
    OutboxRun(w, steps);
  }

  /**
    Whatever the dispatcher's options are, an open e-mail of these operations renders exactly when the
    console origin is good and, for a notice, the time zone is known. With good options none ever dies
    for its template.
  */
  lemma NoTemplateDeaths(w: World, steps: seq<Step>, opts: RenderOptions, r: Id)
    requires Fresh(w)
    requires var outbox := Run(w, steps).s.db.outbox; r in outbox && Open(outbox[r])
    ensures var row := Run(w, steps).s.db.outbox[r];
            && row.variables.Some?
            && (RenderRefusal(row.template, row.locale, row.variables.value, opts).None? <==>
                  opts.console == Secure && (row.template == VERIFY || opts.knowsZone(Zone(opts))))
  {
    OutboxRun(w, steps);
    assert RowSound(Run(w, steps).s.db.outbox[r]);
  }

  // ---- who is written to ----

  predicate RowFor(
      t: Table, key: string, recipient: string, template: string, locale: string, variables: Variables) {
    exists r :: r in t && t[r].dedupeKey == key && t[r].recipient == Some(recipient)
                && t[r].template == template && t[r].locale == locale && t[r].variables == Some(variables)
                   && t[r].status == Pending
  }

  lemma EnqueuedRow(t: Table, id: Id, m: Mail, now: int)
    requires EnqueueCode(Enqueue(t, id, m, now)).None? && !HasKey(t, m.dedupeKey)
    ensures RowFor(TableAfter(t, Enqueue(t, id, m, now)), m.dedupeKey, m.recipient, m.template, m.locale, m.variables)
  {
    var t' := TableAfter(t, Enqueue(t, id, m, now));
    assert id in t' && t'[id].dedupeKey == m.dedupeKey;
  }

  /**
    A request that waits sends the new address a token that opens the stored request: looked up by the
    token, it is the only pending one found. Nothing else changes until then.
  */
  lemma NewAddressGetsTheToken(s: State, e: Env, user: Uuid, input: BodyField)
    requires OutboxInv(s) && Request(s, e, user, input).1.Waiting?
    ensures var (s', reply) := Request(s, e, user, input);
            && IdentityOf(s.db, user).Some? && IdentityOf(s.db, user).value in s.identity
            && RowFor(s'.db.outbox, VerifyKey(e.changeId), reply.email, VERIFY,
                      s.identity[IdentityOf(s.db, user).value].locale,
                      map["token" := Text(e.token), "expiresInMinutes" := Integer(1440)])
            && Matching(s'.db.changes, user, Sha256(e.token)) == {e.changeId}
            && s'.db.changes[e.changeId].newEmail == reply.email
            && s'.db.changes[e.changeId].expiresAt == reply.expiresAt
            && s'.db.users == s.db.users && s'.identity == s.identity
  {
    var (s', reply) := Request(s, e, user, input);
    WaitingInserts(s, e, user, input);
    WaitingEnqueues(s, e, user, input);
    FoundByToken(CancelPending(s.db.changes, user, e.now), e, user, reply.email);
    TokenQueued(s, s', e, s.identity[IdentityOf(s.db, user).value], reply.email);
  }

  lemma FoundByToken(changes: map<Uuid, Change>, e: Env, user: Uuid, email: string)
    requires InsertAllowed(changes, e.changeId, NewChange(e, user, email))
    ensures Matching(changes[e.changeId := NewChange(e, user, email)], user, Sha256(e.token)) == {e.changeId}
  {
  }

  lemma TokenQueued(s: State, s': State, e: Env, account: Account, email: string)
    requires OutboxInv(s) && e.changeId !in s.db.changes && QueuesVerify(s, s', e, account, email)
    ensures RowFor(s'.db.outbox, VerifyKey(e.changeId), email, VERIFY, account.locale,
                   map["token" := Text(e.token), "expiresInMinutes" := Integer(1440)])
  {
    EnqueuedRow(s.db.outbox, e.outboxId, VerifyMail(e.token, email, account.locale, e.changeId), e.now);
  }

  lemma WaitingEnqueues(s: State, e: Env, user: Uuid, input: BodyField)
    requires Request(s, e, user, input).1.Waiting?
    ensures var (s', reply) := Request(s, e, user, input);
            && IdentityOf(s.db, user).Some? && IdentityOf(s.db, user).value in s.identity
            && reply.expiresAt == e.now + EMAIL_CHANGE_TTL_MS && s'.identity == s.identity && s'.db.users == s.db.users
            && QueuesVerify(s, s', e, s.identity[IdentityOf(s.db, user).value], reply.email)
  {
  }

  /** Whoever changes an address, the old one is told, if there was one; the key is fresh by its nonce. */
  lemma OldAddressIsTold(s: State, e: Env, user: Uuid, input: BodyField)
    requires !HasKey(s.db.outbox, ChangedKey(user, e.nonce))
    ensures var (s', reply) := Request(s, e, user, input); reply.Changed? ==> Told(s, s', e, user, reply.email)
    ensures var (s', reply) := Confirm(s, e, user, input); reply.Changed? ==> Told(s, s', e, user, reply.email)
  {
    var (s1, r1) := Request(s, e, user, input);
    if r1.Changed? { RequestNotice(s, e, user, input); NoticeTells(s, s1, e, user, r1.email); }
    var (s2, r2) := Confirm(s, e, user, input);
    if r2.Changed? { ConfirmNotice(s, e, user, input); NoticeTells(s, s2, e, user, r2.email); }
  }

  predicate Told(s: State, s': State, e: Env, user: Uuid, email: string) {
    && IdentityOf(s.db, user).Some? && IdentityOf(s.db, user).value in s.identity
    && var account := s.identity[IdentityOf(s.db, user).value];
    account.email != "" ==>
      RowFor(s'.db.outbox, ChangedKey(user, e.nonce), account.email, EMAIL_CHANGED, account.locale,
             map["newEmail" := Text(email), "changedAt" := Instant(e.now)])
  }

  /** The outbox after a change, as far as the notice goes. */
  predicate NoticeDone(s: State, s': State, e: Env, user: Uuid, email: string) {
    && IdentityOf(s.db, user).Some? && IdentityOf(s.db, user).value in s.identity
    && var account := s.identity[IdentityOf(s.db, user).value];
    account.email != "" ==>
      var q := Enqueue(s.db.outbox, e.outboxId, ChangedMail(email, e.now, account, user, e.nonce), e.now);
      EnqueueCode(q).None? && s'.db.outbox == TableAfter(s.db.outbox, q)
  }

  lemma RequestNotice(s: State, e: Env, user: Uuid, input: BodyField)
    requires Request(s, e, user, input).1.Changed?
    ensures NoticeDone(s, Request(s, e, user, input).0, e, user, Request(s, e, user, input).1.email)
  {
  }

  lemma ConfirmNotice(s: State, e: Env, user: Uuid, input: BodyField)
    requires Confirm(s, e, user, input).1.Changed?
    ensures NoticeDone(s, Confirm(s, e, user, input).0, e, user, Confirm(s, e, user, input).1.email)
  {
  }

  lemma NoticeTells(s: State, s': State, e: Env, user: Uuid, email: string)
    requires NoticeDone(s, s', e, user, email) && !HasKey(s.db.outbox, ChangedKey(user, e.nonce))
    ensures Told(s, s', e, user, email)
  {
    var account := s.identity[IdentityOf(s.db, user).value];
    if account.email != "" {
      EnqueuedRow(s.db.outbox, e.outboxId, ChangedMail(email, e.now, account, user, e.nonce), e.now);
    }
  }
}

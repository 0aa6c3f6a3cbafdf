/**
  What the e-mail change operations keep over whole runs: any sequence of requests, confirms and
  cancels by any users with any surroundings, policy changes, and dispatchers working on the outbox.
*/
module EmailChangeRuns {
  import opened Prelude
  import opened Strings
  import opened Templates
  import opened Outbox
  import opened EmailChange
  import OutboxProtocol
  import AccountPolicy

  const DAY_MS := 86_400_000

  /** What a committed transaction did to a user's requests. */
  datatype Entry =
    | Requested(user: Uuid, id: Uuid, token: Token, email: string, at: int)
    | ChangedNow(user: Uuid)
    | Withdrawn(user: Uuid)
    | Confirmed(user: Uuid, id: Uuid, at: int)
    | Lapsed(user: Uuid, id: Uuid)

  datatype World = World(s: State, log: seq<Entry>)

  datatype Step =
    | DoRequest(user: Uuid, input: BodyField, e: Env)
    | DoConfirm(user: Uuid, input: BodyField, e: Env)
    | DoCancel(user: Uuid, e: Env)
    | DoSetPolicy(policy: AccountPolicy.EmailRule)
    | DoDispatch(outbox: Table)

  ghost function Apply(w: World, step: Step): World {
    match step
    case DoRequest(user, input, e) =>
      var (s', reply) := Request(w.s, e, user, input);
      World(s', w.log + (match reply
                         case Waiting(email, _) => [Requested(user, e.changeId, e.token, email, e.now)]
                         case Changed(_) => [ChangedNow(user)]
                         case _ => []))
    case DoConfirm(user, input, e) =>
      var (s', reply) := Confirm(w.s, e, user, input);
      World(s', w.log + ConfirmEntries(w.s, s', e, user, input, reply))
    case DoCancel(user, e) =>
      var (s', reply) := Cancel(w.s, e, user);
      World(s', w.log + if reply == Cancelled then [Withdrawn(user)] else [])
    case DoSetPolicy(policy) => w.(s := w.s.(db := w.s.db.(policy := policy)))
    case DoDispatch(outbox) =>
      if OutboxProtocol.TableEvolves(w.s.db.outbox, outbox) && outbox.Keys == w.s.db.outbox.Keys && TableOk(outbox)
      then w.(s := w.s.(db := w.s.db.(outbox := outbox))) else w
  }

  ghost function ConfirmEntries(s: State, s': State, e: Env, user: Uuid, input: BodyField, reply: Reply): seq<Entry> {
    if !input.Typed? || Matching(s.db.changes, user, Sha256(input.s)) == {} then []
    else
      var id := Found(s.db.changes, user, Sha256(input.s));
      if reply.Changed? then [Confirmed(user, id, e.now)]
      else if s'.db.changes != s.db.changes then [Lapsed(user, id)]
      else []
  }

  ghost function Run(w: World, steps: seq<Step>): World
    decreases |steps|
  {
    if steps == [] then w else Apply(Run(w, Init(steps)), Last(steps))
  }

  lemma RunOneMore(w: World, steps: seq<Step>, n: nat)
    requires n < |steps|
    ensures Run(w, steps[..n + 1]) == Apply(Run(w, steps[..n]), steps[n])
  {
    assert Init(steps[..n + 1]) == steps[..n] && Last(steps[..n + 1]) == steps[n];
  }

  /** Any directory and users, no requests and no e-mails yet. */
  predicate Fresh(w: World) {
    w.s.db.changes == map[] && w.s.db.outbox == map[] && w.log == []
  }

  // ---- the latest entry of a user ----

  function Latest(log: seq<Entry>, user: Uuid): Option<Entry> {
    if log == [] then None
    else if Last(log).user == user then Some(Last(log))
    else Latest(Init(log), user)
  }

  lemma LatestAppend(log: seq<Entry>, entry: Entry, user: Uuid)
    ensures Latest(log + [entry], user) == if entry.user == user then Some(entry) else Latest(log, user)
  {
    assert Init(log + [entry]) == log;
  }

  /** `Latest` is the last position of the log that speaks of the user. */
  lemma {:induction false} LatestPosition(log: seq<Entry>, user: Uuid) returns (n: nat)
    requires Latest(log, user).Some?
    ensures n < |log| && Latest(log, user) == Some(log[n]) && log[n].user == user
    ensures forall k :: n < k < |log| ==> log[k].user != user
  {
    if Last(log).user == user {
      n := |log| - 1;
    } else {
      n := LatestPosition(Init(log), user);
      assert forall k :: n < k < |log| - 1 ==> Init(log)[k] == log[k];
    }
  }

  // ---- the invariant ----

  /** The PENDING rows are exactly the users' latest entries that are requests. */
  predicate PendingIsLatest(w: World) {
    forall id :: id in w.s.db.changes && w.s.db.changes[id].status == PENDING ==>
      var c := w.s.db.changes[id];
      var l := Latest(w.log, c.user);
      l.Some? && l.value.Requested? && l.value.id == id
  }

  predicate RowOf(w: World, r: Entry, c: Change)
    requires r.Requested?
  {
    c.user == r.user && c.newEmail == r.email && c.tokenHash == Sha256(r.token)
    && c.requestedAt == r.at && c.expiresAt == r.at + DAY_MS
  }

  /** Each logged request has its row, PENDING as long as it is the user's latest entry. */
  predicate RequestsRecorded(w: World) {
    forall n :: 0 <= n < |w.log| && w.log[n].Requested? ==>
      && w.log[n].id in w.s.db.changes && RowOf(w, w.log[n], w.s.db.changes[w.log[n].id])
      && (Latest(w.log, w.log[n].user) == Some(w.log[n]) ==> w.s.db.changes[w.log[n].id].status == PENDING)
  }

  predicate IdsDistinct(log: seq<Entry>) {
    forall m, n :: 0 <= m < n < |log| && log[m].Requested? && log[n].Requested? ==> log[m].id != log[n].id
  }

  /** A confirm or a lapse answers the entry just before it. */
  predicate AnswersLatest(log: seq<Entry>) {
    forall n :: 0 <= n < |log| && (log[n].Confirmed? || log[n].Lapsed?) ==> AnswerOk(log, n)
  }

  predicate AnswerOk(log: seq<Entry>, n: nat)
    requires n < |log| && (log[n].Confirmed? || log[n].Lapsed?)
  {
    var l := Latest(log[..n], log[n].user);
    && l.Some? && l.value.Requested? && l.value.id == log[n].id
    && (log[n].Confirmed? ==> log[n].at < l.value.at + DAY_MS)
  }

  predicate LogInv(w: World) {
    && HashesDistinct(w.s.db.changes)
    && PendingIsLatest(w) && RequestsRecorded(w) && IdsDistinct(w.log) && AnswersLatest(w.log)
  }

  /** A step that adds nothing to the log and leaves the requests alone. */
  lemma LogInvFramed(w: World, w': World)
    requires LogInv(w) && w'.log == w.log && w'.s.db.changes == w.s.db.changes
    ensures LogInv(w')
  {
    assert forall n :: 0 <= n < |w.log| && w.log[n].Requested? ==> RowOf(w', w.log[n], w.s.db.changes[w.log[n].id]);
  }

  predicate Closes(entry: Entry) { !entry.Requested? }

  /** The user's pending request is closed, if there is one, and the log says so. */
  lemma LogInvClose(w: World, w': World, entry: Entry)
    requires LogInv(w) && Closes(entry) && w'.log == w.log + [entry]
    requires w'.s.db.changes.Keys == w.s.db.changes.Keys
    requires forall id :: id in w.s.db.changes ==>
               var c, c' := w.s.db.changes[id], w'.s.db.changes[id];
               && c' == c.(status := c'.status, completedAt := c'.completedAt)
               && (if c.user == entry.user then c'.status != PENDING else c' == c)
    requires entry.Confirmed? || entry.Lapsed? ==> AnswerOk(w.log + [entry], |w.log|)
    ensures LogInv(w')
  {
    forall user ensures Latest(w'.log, user) == if entry.user == user then Some(entry) else Latest(w.log, user) {
      LatestAppend(w.log, entry, user);
    }
    forall n | 0 <= n < |w'.log| && w'.log[n].Requested?
      ensures w'.log[n].id in w'.s.db.changes && RowOf(w', w'.log[n], w'.s.db.changes[w'.log[n].id])
      ensures Latest(w'.log, w'.log[n].user) == Some(w'.log[n]) ==> w'.s.db.changes[w'.log[n].id].status == PENDING
    {
      assert w'.log[n] == w.log[n];
      assert RowOf(w, w.log[n], w.s.db.changes[w.log[n].id]);
    }
    AnswersAppend(w.log, entry);
  }

  lemma AnswersAppend(log: seq<Entry>, entry: Entry)
    requires AnswersLatest(log)
    requires entry.Confirmed? || entry.Lapsed? ==> AnswerOk(log + [entry], |log|)
    ensures AnswersLatest(log + [entry])
  {
    var more := log + [entry];
    forall n | 0 <= n < |more| && (more[n].Confirmed? || more[n].Lapsed?)
      ensures AnswerOk(more, n)
    {
      if n < |log| {
        assert more[..n] == log[..n];
        assert AnswerOk(log, n);
      }
    }
  }

  lemma LogInvRequest(w: World, user: Uuid, input: BodyField, e: Env)
    requires LogInv(w)
    ensures LogInv(Apply(w, DoRequest(user, input, e)))
  {
    match Request(w.s, e, user, input).1 {
      case Waiting(_, _) => LogInvWaiting(w, user, input, e);
      case Changed(_) => LogInvChanged(w, user, input, e);
      case _ =>
        RefusedShape(w, user, input, e);
        LogInvFramed(w, Apply(w, DoRequest(user, input, e)));
    }
  }

  lemma LogInvChanged(w: World, user: Uuid, input: BodyField, e: Env)
    requires LogInv(w) && Request(w.s, e, user, input).1.Changed?
    ensures LogInv(Apply(w, DoRequest(user, input, e)))
  {
    ChangedShape(w, user, input, e);
    LogInvClose(w, Apply(w, DoRequest(user, input, e)), ChangedNow(user));
  }

  lemma RefusedShape(w: World, user: Uuid, input: BodyField, e: Env)
    requires !Request(w.s, e, user, input).1.Changed? && !Request(w.s, e, user, input).1.Waiting?
    ensures var w' := Apply(w, DoRequest(user, input, e)); w'.log == w.log && w'.s.db.changes == w.s.db.changes
  {
  }

  lemma ChangedShape(w: World, user: Uuid, input: BodyField, e: Env)
    requires Request(w.s, e, user, input).1.Changed?
    ensures var w' := Apply(w, DoRequest(user, input, e));
            w'.log == w.log + [ChangedNow(user)] && w'.s.db.changes == CancelPending(w.s.db.changes, user, e.now)
  {
  }

  lemma LogInvWaiting(w: World, user: Uuid, input: BodyField, e: Env)
    requires LogInv(w) && Request(w.s, e, user, input).1.Waiting?
    ensures LogInv(Apply(w, DoRequest(user, input, e)))
  {
    var w' := Apply(w, DoRequest(user, input, e));
    var email := Request(w.s, e, user, input).1.email;
    WaitingInserts(w.s, e, user, input);
    LogInvInsert(w, w', e, user, email);
  }

  /** A request that waits for confirmation passed the table's unique indexes. */
  lemma WaitingInserts(s: State, e: Env, user: Uuid, input: BodyField)
    requires Request(s, e, user, input).1.Waiting?
    ensures var (s', reply) := Request(s, e, user, input);
            var cancelled := CancelPending(s.db.changes, user, e.now);
            && InsertAllowed(cancelled, e.changeId, NewChange(e, user, reply.email))
            && s'.db.changes == cancelled[e.changeId := NewChange(e, user, reply.email)]
  {
  }

  lemma LogInvInsert(w: World, w': World, e: Env, user: Uuid, email: string)
    requires LogInv(w) && w'.log == w.log + [Requested(user, e.changeId, e.token, email, e.now)]
    requires var cancelled := CancelPending(w.s.db.changes, user, e.now);
             && InsertAllowed(cancelled, e.changeId, NewChange(e, user, email))
             && w'.s.db.changes == cancelled[e.changeId := NewChange(e, user, email)]
    ensures LogInv(w')
  {
    InsertKeepsRecords(w, w', e, user, email);
    InsertKeepsHashes(w.s.db.changes, e, user, email);
    AnswersAppend(w.log, Requested(user, e.changeId, e.token, email, e.now));
  }

  lemma InsertKeepsRecords(w: World, w': World, e: Env, user: Uuid, email: string)
    requires PendingIsLatest(w) && RequestsRecorded(w) && IdsDistinct(w.log)
    requires w'.log == w.log + [Requested(user, e.changeId, e.token, email, e.now)]
    requires var cancelled := CancelPending(w.s.db.changes, user, e.now);
             && e.changeId !in cancelled && w'.s.db.changes == cancelled[e.changeId := NewChange(e, user, email)]
    ensures PendingIsLatest(w') && RequestsRecorded(w') && IdsDistinct(w'.log)
  {
    var entry := Requested(user, e.changeId, e.token, email, e.now);
    var before, after := w.s.db.changes, w'.s.db.changes;
    forall u ensures Latest(w'.log, u) == if user == u then Some(entry) else Latest(w.log, u) {
      LatestAppend(w.log, entry, u);
    }
    forall n | 0 <= n < |w.log| && w.log[n].Requested?
      ensures w.log[n].id != e.changeId && w.log[n].id in after && RowOf(w', w.log[n], after[w.log[n].id])
      ensures Latest(w'.log, w.log[n].user) == Some(w.log[n]) ==> after[w.log[n].id].status == PENDING
    {
      assert RowOf(w, w.log[n], before[w.log[n].id]);
    }
  }

  lemma InsertKeepsHashes(before: map<Uuid, Change>, e: Env, user: Uuid, email: string)
    requires HashesDistinct(before)
    requires InsertAllowed(CancelPending(before, user, e.now), e.changeId, NewChange(e, user, email))
    ensures HashesDistinct(CancelPending(before, user, e.now)[e.changeId := NewChange(e, user, email)])
  {
    var cancelled := CancelPending(before, user, e.now);
    assert forall id :: id in cancelled ==> cancelled[id].tokenHash == before[id].tokenHash;
  }

  /** The two ways in which a confirm changes the requests. */
  lemma ConfirmShape(w: World, user: Uuid, input: BodyField, e: Env)
    requires Apply(w, DoConfirm(user, input, e)).log != w.log
    ensures var w' := Apply(w, DoConfirm(user, input, e));
            && input.Typed? && Matching(w.s.db.changes, user, Sha256(input.s)) != {} && e.commits
            && var id := Found(w.s.db.changes, user, Sha256(input.s));
            var c := w.s.db.changes[id];
            if e.now < c.expiresAt then
              && w'.log == w.log + [Confirmed(user, id, e.now)]
              && w'.s.db.changes == w.s.db.changes[id := c.(status := CONFIRMED, completedAt := Some(e.now))]
            else
              && w'.log == w.log + [Lapsed(user, id)]
              && w'.s.db.changes == w.s.db.changes[id := c.(status := EXPIRED, completedAt := Some(e.now))]
  {
  }

  /** A confirm whose log is unchanged left the requests alone. */
  lemma ConfirmFrame(w: World, user: Uuid, input: BodyField, e: Env)
    requires Apply(w, DoConfirm(user, input, e)).log == w.log
    ensures Apply(w, DoConfirm(user, input, e)).s.db.changes == w.s.db.changes
  {
  }

  lemma LogInvConfirm(w: World, user: Uuid, input: BodyField, e: Env)
    requires LogInv(w)
    ensures LogInv(Apply(w, DoConfirm(user, input, e)))
  {
    var w' := Apply(w, DoConfirm(user, input, e));
    if w'.log == w.log {
      ConfirmFrame(w, user, input, e);
      LogInvFramed(w, w');
    } else {
      ConfirmShape(w, user, input, e);
      LogInvAnswer(w, w', user, Found(w.s.db.changes, user, Sha256(input.s)), e.now);
    }
  }

  lemma LogInvAnswer(w: World, w': World, user: Uuid, id: Uuid, now: int)
    requires LogInv(w) && id in w.s.db.changes
    requires w.s.db.changes[id].user == user && w.s.db.changes[id].status == PENDING
    requires var c := w.s.db.changes[id];
             var done := if now < c.expiresAt then CONFIRMED else EXPIRED;
             && w'.log == w.log + [if now < c.expiresAt then Confirmed(user, id, now) else Lapsed(user, id)]
             && w'.s.db.changes == w.s.db.changes[id := c.(status := done, completedAt := Some(now))]
    ensures LogInv(w')
  {
    var entry := Last(w'.log);
    assert w'.log[..|w.log|] == w.log;
    var n := LatestPosition(w.log, user);
    assert RowOf(w, w.log[n], w.s.db.changes[id]);
    LogInvClose(w, w', entry);
  }

  lemma LogInvStep(w: World, step: Step)
    requires LogInv(w)
    ensures LogInv(Apply(w, step))
  {
    match step {
      case DoRequest(user, input, e) => LogInvRequest(w, user, input, e);
      case DoConfirm(user, input, e) => LogInvConfirm(w, user, input, e);
      case DoCancel(user, e) =>
        var w' := Apply(w, step);
        if w'.log == w.log { LogInvFramed(w, w'); } else { LogInvClose(w, w', Withdrawn(user)); }
      case _ => LogInvFramed(w, Apply(w, step));
    }
  }

  lemma {:induction false} LogInvRun(w: World, steps: seq<Step>)
    requires Fresh(w)
    ensures LogInv(Run(w, steps))
    decreases |steps|
  {
    if steps != [] {
      LogInvRun(w, Init(steps));
      LogInvStep(Run(w, Init(steps)), Last(steps));
    }
  }

  // ---- what follows for users ----

  /** A user never has two requests waiting. */
  lemma OnePendingPerUser(w: World, steps: seq<Step>, a: Uuid, b: Uuid)
    requires Fresh(w)
    requires var changes := Run(w, steps).s.db.changes;
             && a in changes && b in changes && changes[a].user == changes[b].user
             && changes[a].status == PENDING && changes[b].status == PENDING
    ensures a == b
  {
    LogInvRun(w, steps);
  }

  lemma StepKeepsClosed(w: World, step: Step, id: Uuid)
    requires id in w.s.db.changes && w.s.db.changes[id].status != PENDING
    ensures id in Apply(w, step).s.db.changes && Apply(w, step).s.db.changes[id] == w.s.db.changes[id]
  {
    match step {
      case DoConfirm(user, input, e) =>
        if Apply(w, step).log == w.log { ConfirmFrame(w, user, input, e); } else { ConfirmShape(w, user, input, e); }
      case DoRequest(user, input, e) =>
        if Request(w.s, e, user, input).1.Waiting? { WaitingInserts(w.s, e, user, input); }
      case _ =>
    }
  }

  /** A closed request stays exactly as it was closed. */
  lemma {:induction false} ClosedStaysClosed(w: World, steps: seq<Step>, id: Uuid)
    requires id in w.s.db.changes && w.s.db.changes[id].status != PENDING
    ensures id in Run(w, steps).s.db.changes && Run(w, steps).s.db.changes[id] == w.s.db.changes[id]
    decreases |steps|
  {
    if steps != [] {
      ClosedStaysClosed(w, Init(steps), id);
      StepKeepsClosed(Run(w, Init(steps)), Last(steps), id);
    }
  }

  /** The user is linked, the policy and every port allow setting `email` now, and the commit goes through. */
  predicate CanSet(s: State, e: Env, user: Uuid, email: string) {
    && e.commits && IdentityOf(s.db, user).Some?
    && var k := IdentityOf(s.db, user).value;
    && !s.db.policy.ADMIN_ONLY? && ReadRefusal(s, e, k).None? && FreeRefusal(s, e, user, k, email).None?
    && ApplyRefusal(s, e, user, s.identity[k], email).None?
  }

  /**
    After any run, a confirm succeeds exactly when the user's latest committed entry is the request
    that carried this token, less than 24 hours old, and the address can be set; then it sets that
    request's address in both places.
  */
  lemma ConfirmSucceedsIff(w0: World, steps: seq<Step>, user: Uuid, token: string, e: Env)
    requires Fresh(w0)
    ensures var w := Run(w0, steps);
            var (s', reply) := Confirm(w.s, e, user, Typed(token));
            var l := Latest(w.log, user);
            var ready := l.Some? && l.value.Requested? && l.value.token == token
                         && e.now < l.value.at + DAY_MS && CanSet(w.s, e, user, l.value.email);
            && (reply.Changed? <==> ready)
            && (ready ==>
                  && reply == Changed(l.value.email) && user in s'.db.users && s'.db.users[user].email == l.value.email
                  && IdentityOf(w.s.db, user).value in s'.identity
                  && s'.identity[IdentityOf(w.s.db, user).value].email == l.value.email)
  {
    var w := Run(w0, steps);
    LogInvRun(w0, steps);
    var l := Latest(w.log, user);
    if l.Some? && l.value.Requested? {
      var n := LatestPosition(w.log, user);
      assert RowOf(w, w.log[n], w.s.db.changes[l.value.id]);
      if l.value.token == token { assert l.value.id in Matching(w.s.db.changes, user, Sha256(token)); }
    }
    if Matching(w.s.db.changes, user, Sha256(token)) != {} {
      var id := Found(w.s.db.changes, user, Sha256(token));
      var n := LatestPosition(w.log, user);
      assert RowOf(w, w.log[n], w.s.db.changes[id]);
    }
  }

  /**
    Every success in the log answers a request of the same user made less than 24 hours before, with
    nothing of that user's committed in between, and no request is answered twice.
  */
  lemma ConfirmedAtMostOnce(w0: World, steps: seq<Step>, n: nat)
    requires Fresh(w0)
    requires var log := Run(w0, steps).log; n < |log| && log[n].Confirmed?
    ensures var log := Run(w0, steps).log;
            && (exists m :: 0 <= m < n && log[m].Requested? && log[m].user == log[n].user && log[m].id == log[n].id
                            && log[n].at < log[m].at + DAY_MS
                            && forall k :: m < k < n ==> log[k].user != log[n].user)
            && (forall j :: 0 <= j < |log| && j != n && (log[j].Confirmed? || log[j].Lapsed?) ==>
                  log[j].id != log[n].id)
  {
    LogInvRun(w0, steps);
    var log := Run(w0, steps).log;
    var m := AnsweredRequest(log, n);
    forall j | 0 <= j < |log| && j != n && (log[j].Confirmed? || log[j].Lapsed?)
      ensures log[j].id != log[n].id
    {
      var i := AnsweredRequest(log, j);
    }
  }

  /** The request an answer refers to, with nothing of the user's in between. */
  lemma AnsweredRequest(log: seq<Entry>, n: nat) returns (m: nat)
    requires AnswersLatest(log) && n < |log| && (log[n].Confirmed? || log[n].Lapsed?)
    ensures m < n && log[m].Requested? && log[m].user == log[n].user && log[m].id == log[n].id
    ensures log[n].Confirmed? ==> log[n].at < log[m].at + DAY_MS
    ensures forall k :: m < k < n ==> log[k].user != log[n].user
  {
    assert AnswerOk(log, n);
    m := LatestPosition(log[..n], log[n].user);
    assert forall k :: m < k < n ==> log[..n][k] == log[k];
  }

  // ---- the audit trail ----

  type Trace = (Uuid, string, string, Option<Uuid>)

  function TraceOf(a: AuditEvent): Trace { (a.user, a.action, a.mode, a.changeId) }

  function Traces(audits: seq<AuditEvent>): (t: seq<Trace>)
    ensures |t| == |audits|
  {
    if audits == [] then [] else Traces(Init(audits)) + [TraceOf(Last(audits))]
  }

  /** The audit events that a log of committed transactions calls for. */
  function Trail(log: seq<Entry>): seq<Trace> {
    if log == [] then []
    else
      var before := Latest(Init(log), Last(log).user);
      Trail(Init(log)) + Calls(Last(log), before)
  }

  lemma PendingMeansRequested(w: World, user: Uuid)
    requires LogInv(w)
    ensures HasPending(w.s.db.changes, user) <==> Latest(w.log, user).Some? && Latest(w.log, user).value.Requested?
  {
    if Latest(w.log, user).Some? && Latest(w.log, user).value.Requested? {
      var n := LatestPosition(w.log, user);
      assert RowOf(w, w.log[n], w.s.db.changes[w.log[n].id]);
    }
  }

  /** The events a log entry calls for, given the user's latest entry before it. */
  function Calls(entry: Entry, before: Option<Entry>): seq<Trace> {
    match entry
    case Requested(user, id, _, _, _) => [(user, "email.change.requested", "", Some(id))]
    case ChangedNow(user) => [(user, "email.change.confirmed", "IMMEDIATE", None)]
    case Confirmed(user, id, _) => [(user, "email.change.confirmed", "VERIFIED", Some(id))]
    case Withdrawn(user) =>
      if before.Some? && before.value.Requested? then [(user, "email.change.cancelled", "", None)] else []
    case Lapsed(_, _) => []
  }

  /** A step that logs adds the events its entry calls for; one that does not adds none. */
  predicate AuditsMatch(w: World, w': World) {
    if w'.log == w.log then w'.s.db.audits == w.s.db.audits
    else
      && |w'.log| == |w.log| + 1 && Init(w'.log) == w.log
      && var calls := Calls(Last(w'.log), Latest(w.log, Last(w'.log).user));
      if calls == [] then w'.s.db.audits == w.s.db.audits
      else |w'.s.db.audits| > 0 && Init(w'.s.db.audits) == w.s.db.audits && calls == [TraceOf(Last(w'.s.db.audits))]
  }

  lemma RequestAudits(w: World, user: Uuid, input: BodyField, e: Env)
    ensures AuditsMatch(w, Apply(w, DoRequest(user, input, e)))
  {
  }

  lemma ConfirmAudits(w: World, user: Uuid, input: BodyField, e: Env)
    ensures AuditsMatch(w, Apply(w, DoConfirm(user, input, e)))
  {
  }

  lemma CancelAudits(w: World, user: Uuid, e: Env)
    requires LogInv(w)
    ensures AuditsMatch(w, Apply(w, DoCancel(user, e)))
  {
    PendingMeansRequested(w, user);
  }

  lemma TrailStep(w: World, step: Step)
    requires LogInv(w) && Traces(w.s.db.audits) == Trail(w.log)
    ensures Traces(Apply(w, step).s.db.audits) == Trail(Apply(w, step).log)
  {
    var w' := Apply(w, step);
    match step {
      case DoRequest(user, input, e) => RequestAudits(w, user, input, e);
      case DoConfirm(user, input, e) => ConfirmAudits(w, user, input, e);
      case DoCancel(user, e) => CancelAudits(w, user, e);
      case _ =>
    }
    TrailFromMatch(w, w');
  }

  lemma TrailFromMatch(w: World, w': World)
    requires AuditsMatch(w, w') && Traces(w.s.db.audits) == Trail(w.log)
    ensures Traces(w'.s.db.audits) == Trail(w'.log)
  {
    if w'.log != w.log {
      assert Trail(w'.log) == Trail(w.log) + Calls(Last(w'.log), Latest(w.log, Last(w'.log).user));
    }
  }

  /** The audit events of any run are exactly those of its committed changes, in order. */
  lemma {:induction false} AuditsFollowLog(w: World, steps: seq<Step>)
    requires Fresh(w) && w.s.db.audits == []
    ensures Traces(Run(w, steps).s.db.audits) == Trail(Run(w, steps).log)
    decreases |steps|
  {
    if steps != [] {
      AuditsFollowLog(w, Init(steps));
      LogInvRun(w, Init(steps));
      TrailStep(Run(w, Init(steps)), Last(steps));
    }
  }
}

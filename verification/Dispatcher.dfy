/**
  AccountEmailDispatcher of account-email.ts, one tenant, run by one process while the clock stands
  still. Interleaved dispatchers and a moving clock are the subject of OutboxProtocol.dfy.
*/
module Dispatcher {
  import opened Prelude
  import opened Templates
  import opened Outbox

  datatype Job = Job(id: Id, template: string, locale: string, recipient: string, variables: Variables, token: nat)

  /** What goes to SMTP; the Message-ID is a function of the row id alone. */
  datatype Outgoing = Outgoing(messageId: Id, to: string, template: string, locale: string, variables: Variables)

  datatype Answer = Accepted | SmtpError(code: string, permanent: bool) | Thrown

  function JobOf(id: Id, r: Row): Job
    requires RowOk(r) && Open(r)
  {
    Job(id, r.template, r.locale, r.recipient.value, r.variables.value, r.attempts)
  }

  function CodeOf(reason: Reason): string {
    match reason
    case InvalidTemplate => "INVALID_TEMPLATE"
    case InvalidLocale => "INVALID_LOCALE"
    case InvalidVariables => "INVALID_VARIABLES"
    case TemplateFailed => "TEMPLATE_FAILED"
  }

  class Database {
    var rows: Table

    constructor (rows: Table)
      ensures this.rows == rows
    {
      this.rows := rows;
    }

    /** `enqueueAccountEmail`: the id of the one row that holds the key, and whether this call made it. */
    method EnqueueAccountEmail(id: Id, mail: Mail, now: int) returns (r: Result<(Id, bool), Option<Reason>>)
      requires TableOk(rows)
      modifies this
      ensures TableOk(rows) && rows == TableAfter(old(rows), Enqueue(old(rows), id, mail, now))
      ensures r.Ok? <==> Enqueue(old(rows), id, mail, now).Added? || Enqueue(old(rows), id, mail, now).Known?
      ensures r.Ok? ==> r.value.0 in rows && rows[r.value.0].dedupeKey == mail.dedupeKey
      ensures r.Ok? ==> (r.value.1 <==> r.value.0 !in old(rows))
      ensures r.Err? && r.error.Some? ==> Enqueue(old(rows), id, mail, now) == Refused(r.error.value)
    {
      var refusal := EnqueueRefusal(mail.template, mail.locale, mail.recipient, mail.variables, mail.dedupeKey);
      if refusal.Some? { return Err(refusal); }
      EnqueueOncePerKey(rows, id, mail, now);
      if HasKey(rows, mail.dedupeKey) {
        var k :| k in rows && rows[k].dedupeKey == mail.dedupeKey;
        return Ok((k, false));
      }
      if id in rows { return Err(None); }
      rows := rows[id := NewRow(mail, now)];
      return Ok((id, true));
    }
  }

  /** The SMTP port: an arbitrary answer per e-mail, and a record of the calls. */
  class Sender {
    const answer: Outgoing -> Answer
    var calls: seq<Outgoing>

    constructor (answer: Outgoing -> Answer)
      ensures this.answer == answer && calls == []
    {
      this.answer := answer;
      calls := [];
    }

    method Send(email: Outgoing) returns (a: Answer)
      modifies this
      ensures calls == old(calls) + [email] && a == answer(email)
    {
      calls := calls + [email];
      a := answer(email);
    }
  }

  function SetOf(ids: seq<Id>): set<Id> {
    set id | id in ids
  }

  /** Strictly ascending in the claim order, nothing due skipped over. */
  ghost predicate DrainOrder(t: Table, due: set<Id>, handled: seq<Id>) {
    && due <= t.Keys
    && SetOf(handled) <= due
    && (forall i, j :: 0 <= i < j < |handled| ==> handled[i] != handled[j] && Before(t, handled[i], handled[j]))
    && (forall i, d :: 0 <= i < |handled| && d in due && d !in handled ==> Before(t, handled[i], d))
  }

  class AccountEmailDispatcher {
    const db: Database
    const sender: Sender
    const cfg: Config
    const opts: RenderOptions

    constructor (db: Database, sender: Sender, cfg: Config, opts: RenderOptions)
      ensures this.db == db && this.sender == sender && this.cfg == cfg && this.opts == opts
    {
      this.db, this.sender, this.cfg, this.opts := db, sender, cfg, opts;
    }

    // ---- what one round does, as functions of the row it claims ----

    function Renders(job: Job): bool {
      RenderRefusal(job.template, job.locale, job.variables, opts).None?
    }

    function OutgoingOf(job: Job): Outgoing {
      Outgoing(job.id, job.recipient, job.template, job.locale, job.variables)
    }

    function DeliveryOf(job: Job): Delivery {
      var refusal := RenderRefusal(job.template, job.locale, job.variables, opts);
      if refusal.Some? then Failed(CodeOf(refusal.value), true)
      else
        match sender.answer(OutgoingOf(job))
        case Accepted => Delivered
        case SmtpError(code, permanent) => Failed(code, permanent)
        case Thrown => Failed("SEND_FAILED", false)
    }

    function ClaimJob(id: Id, r: Row, now: int): Job
      requires RowOk(r) && Open(r)
    {
      JobOf(id, ClaimedRow(r, now, cfg.leaseMs))
    }

    function RowAfter(id: Id, r: Row, now: int): Row
      requires RowOk(r) && Open(r)
    {
      var job := ClaimJob(id, r, now);
      ClosedRow(ClaimedRow(r, now, cfg.leaseMs), job.token, ClosingOf(cfg, job.token, DeliveryOf(job), now))
    }

    function OutcomeOf(id: Id, r: Row, now: int): Outcome
      requires RowOk(r) && Open(r)
    {
      var job := ClaimJob(id, r, now);
      Verdict(cfg, job.token, DeliveryOf(job))
    }

    function CallsOf(id: Id, r: Row, now: int): seq<Outgoing>
      requires RowOk(r) && Open(r)
    {
      var job := ClaimJob(id, r, now);
      if Renders(job) then [OutgoingOf(job)] else []
    }

    // ---- the methods ----

    method BackoffMs(attempts: int) returns (ms: int)
      ensures ms == Backoff(cfg, attempts)
    {
      var doublings := Max(attempts - 1, 0);
      var factor := 1;
      for i := 0 to doublings
        invariant factor == Pow2(i)
      {
        factor := 2 * factor;
      }
      ms := Min(cfg.baseBackoffMs * factor, cfg.maxBackoffMs);
    }

    /** One transaction. `locked` are the rows other transactions hold, which SKIP LOCKED passes over. */
    method Claim(now: int, locked: set<Id>) returns (job: Option<Job>)
      requires TableOk(db.rows)
      modifies db
      ensures TableOk(db.rows)
      ensures var free := DueIds(old(db.rows), now) - locked;
              if free == {} then job.None? && db.rows == old(db.rows)
              else
                && job.Some? && IsFirst(old(db.rows), free, job.value.id)
                && db.rows == old(db.rows)[job.value.id := ClaimedRow(old(db.rows)[job.value.id], now, cfg.leaseMs)]
                && job.value == ClaimJob(job.value.id, old(db.rows)[job.value.id], now)
    {
      var free := DueIds(db.rows, now) - locked;
      if free == {} { return None; }
      ghost var first := FirstExists(db.rows, free);
      var id :| id in free && forall j :: j in free && j != id ==> Before(db.rows, id, j);
      var row := ClaimedRow(db.rows[id], now, cfg.leaseMs);
      db.rows := db.rows[id := row];
      job := Some(Job(id, row.template, row.locale, row.recipient.value, row.variables.value, row.attempts));
    }

    /** One transaction: `UPDATE ... WHERE id AND status = 'SENDING' AND attempts`. */
    method Finish(job: Job, c: Closing)
      requires TableOk(db.rows)
      modifies db
      ensures TableOk(db.rows)
      ensures db.rows == if job.id in old(db.rows)
                         then old(db.rows)[job.id := ClosedRow(old(db.rows)[job.id], job.token, c)]
                         else old(db.rows)
    {
      if job.id in db.rows && db.rows[job.id].status == Sending && db.rows[job.id].attempts == job.token {
        var row := db.rows[job.id].(leaseExpiresAt := None);
        match c {
          case CloseSent(at) => row := row.(status := Sent, sentAt := Some(at), lastErrorCode := None);
          case CloseDead(code) => row := row.(status := Dead, lastErrorCode := Some(code));
          case Reschedule(at, code) => row := row.(status := Pending, availableAt := at, lastErrorCode := Some(code));
        }
        if row.status != Pending {
          row := row.(recipient := None, variables := None);
        }
        db.rows := db.rows[job.id := row];
      }
    }

    method FinishFailed(job: Job, code: string, permanent: bool, now: int) returns (outcome: Outcome)
      requires TableOk(db.rows)
      modifies db
      ensures TableOk(db.rows)
      ensures outcome == Verdict(cfg, job.token, Failed(code, permanent))
      ensures db.rows == if job.id in old(db.rows)
                         then old(db.rows)[job.id := ClosedRow(old(db.rows)[job.id], job.token,
                                                               ClosingOf(cfg, job.token, Failed(code, permanent), now))]
                         else old(db.rows)
    {
      var dead := permanent || job.token >= cfg.maxAttempts;
      if dead {
        Finish(job, CloseDead(code));
        return DEAD;
      }
      var wait := BackoffMs(job.token);
      Finish(job, Reschedule(now + wait, code));
      return RETRY;
    }

    method DispatchNext(now: int, locked: set<Id>) returns (outcome: Option<Outcome>, ghost id: Id)
      requires TableOk(db.rows)
      modifies db, sender
      ensures TableOk(db.rows)
      ensures var free := DueIds(old(db.rows), now) - locked;
              if free == {} then outcome.None? && db.rows == old(db.rows) && sender.calls == old(sender.calls)
              else
                && IsFirst(old(db.rows), free, id)
                && db.rows == old(db.rows)[id := RowAfter(id, old(db.rows)[id], now)]
                && outcome == Some(OutcomeOf(id, old(db.rows)[id], now))
                && sender.calls == old(sender.calls) + CallsOf(id, old(db.rows)[id], now)
    {
      var claimed := Claim(now, locked);
      if claimed.None? { return None, 0; }
      id := claimed.value.id;
      var o := Deliver(claimed.value, now);
      return Some(o), id;
    }

    /** Render, send and finish: the part of a round outside the claim's transaction. */
    method Deliver(job: Job, now: int) returns (o: Outcome)
      requires TableOk(db.rows)
      modifies db, sender
      ensures TableOk(db.rows)
      ensures o == Verdict(cfg, job.token, DeliveryOf(job))
      ensures db.rows == if job.id in old(db.rows)
                         then old(db.rows)[job.id := ClosedRow(old(db.rows)[job.id], job.token,
                                                               ClosingOf(cfg, job.token, DeliveryOf(job), now))]
                         else old(db.rows)
      ensures sender.calls == old(sender.calls) + (if Renders(job) then [OutgoingOf(job)] else [])
    {
      var refusal := RenderRefusal(job.template, job.locale, job.variables, opts);
      if refusal.Some? {
        o := FinishFailed(job, CodeOf(refusal.value), true, now);
        return;
      }
      var answer := sender.Send(Outgoing(job.id, job.recipient, job.template, job.locale, job.variables));
      match answer {
        case Accepted =>
          Finish(job, CloseSent(now));
          o := SENT;
        case SmtpError(code, permanent) => o := FinishFailed(job, code, permanent, now);
        case Thrown => o := FinishFailed(job, "SEND_FAILED", false, now);
      }
    }

    // ---- draining ----

    /** Every round moves its row out of the due set, provided a retry waits at all. */
    lemma RowAfterNotDue(id: Id, r: Row, now: int)
      requires RowOk(r) && Open(r)
      ensures !Due(RowAfter(id, r, now), now) <==>
              (OutcomeOf(id, r, now) == RETRY ==> Backoff(cfg, r.attempts + 1) > 0)
    {
    }

    ghost function Settled(t: Table, handled: seq<Id>, now: int): Table
      requires TableOk(t) && SetOf(handled) <= DueIds(t, now)
    {
      map id | id in t :: if id in SetOf(handled) then RowAfter(id, t[id], now) else t[id]
    }

    ghost function CallsFor(t: Table, handled: seq<Id>, now: int): seq<Outgoing>
      requires TableOk(t) && SetOf(handled) <= DueIds(t, now)
    {
      if handled == [] then []
      else
        assert SetOf(Init(handled)) <= SetOf(handled) && Last(handled) in SetOf(handled);
        CallsFor(t, Init(handled), now) + CallsOf(Last(handled), t[Last(handled)], now)
    }

    ghost function OutcomesFor(t: Table, handled: seq<Id>, now: int): (o: seq<Outcome>)
      requires TableOk(t) && SetOf(handled) <= DueIds(t, now)
      ensures |o| == |handled|
      ensures forall i :: 0 <= i < |handled| ==>
                handled[i] in SetOf(handled) && o[i] == OutcomeOf(handled[i], t[handled[i]], now)
    {
      if handled == [] then []
      else
        assert SetOf(Init(handled)) <= SetOf(handled) && Last(handled) in SetOf(handled);
        OutcomesFor(t, Init(handled), now) + [OutcomeOf(Last(handled), t[Last(handled)], now)]
    }

    /** Rows and due set after the rounds `handled`, which started from table `t`. */
    ghost predicate Progress(t: Table, rows: Table, handled: seq<Id>, now: int)
      requires TableOk(t)
    {
      && DrainOrder(t, DueIds(t, now), handled)
      && rows == Settled(t, handled, now)
      && DueIds(rows, now) == DueIds(t, now) - SetOf(handled)
    }

    lemma SetOfExtend(handled: seq<Id>, id: Id)
      ensures SetOf(handled + [id]) == SetOf(handled) + {id}
    {
    }

    /** The claim of one more row keeps the drain in order. */
    lemma DrainOrderExtend(t: Table, rows: Table, handled: seq<Id>, now: int, id: Id)
      requires TableOk(t) && Progress(t, rows, handled, now)
      requires IsFirst(rows, DueIds(rows, now), id)
      ensures DrainOrder(t, DueIds(t, now), handled + [id]) && id !in handled && t[id] == rows[id]
    {
      var more := handled + [id];
      SetOfExtend(handled, id);
      assert id in DueIds(t, now) && id !in SetOf(handled);
      forall i, d | 0 <= i < |more| && d in DueIds(t, now) && d !in more
        ensures Before(t, more[i], d)
      {
        if i == |handled| {
          assert d !in SetOf(handled);
          assert Before(rows, id, d);
        }
      }
    }

    lemma ProgressExtend(t: Table, rows: Table, handled: seq<Id>, now: int, id: Id)
      requires cfg.baseBackoffMs > 0 && cfg.maxBackoffMs > 0
      requires TableOk(t) && Progress(t, rows, handled, now)
      requires IsFirst(rows, DueIds(rows, now), id)
      ensures t[id] == rows[id] && TableOk(t)
      ensures Progress(t, rows[id := RowAfter(id, t[id], now)], handled + [id], now)
    {
      var more := handled + [id];
      DrainOrderExtend(t, rows, handled, now, id);
      SetOfExtend(handled, id);
      var after := rows[id := RowAfter(id, t[id], now)];
      assert after == Settled(t, more, now);
      BackoffPositive(t[id].attempts + 1);
      RowAfterNotDue(id, t[id], now);
      forall k
        ensures k in DueIds(after, now) <==> k in DueIds(t, now) - SetOf(more)
      {
        if k != id { assert k in DueIds(rows, now) <==> k in DueIds(after, now); }
      }
    }

    /** The outcomes returned and the calls to SMTP are those of the handled rows, in order. */
    ghost predicate Recorded(
        t: Table, handled: seq<Id>, now: int, outcomes: seq<Outcome>, earlier: seq<Outgoing>, calls: seq<Outgoing>)
      requires TableOk(t)
    {
      && SetOf(handled) <= DueIds(t, now)
      && outcomes == OutcomesFor(t, handled, now)
      && calls == earlier + CallsFor(t, handled, now)
    }

    lemma RecordedExtend(t: Table, handled: seq<Id>, now: int, outcomes: seq<Outcome>,
                         earlier: seq<Outgoing>, calls: seq<Outgoing>, id: Id)
      requires TableOk(t) && Recorded(t, handled, now, outcomes, earlier, calls) && id in DueIds(t, now)
      ensures Recorded(t, handled + [id], now, outcomes + [OutcomeOf(id, t[id], now)],
                       earlier, calls + CallsOf(id, t[id], now))
    {
      SetOfExtend(handled, id);
      assert Init(handled + [id]) == handled;
    }

    ghost predicate Draining(
        t: Table, rows: Table, handled: seq<Id>, now: int,
        outcomes: seq<Outcome>, earlier: seq<Outgoing>, calls: seq<Outgoing>)
      requires TableOk(t)
    {
      Progress(t, rows, handled, now) && Recorded(t, handled, now, outcomes, earlier, calls)
    }

    lemma DrainingExtend(
        t: Table, rows: Table, handled: seq<Id>, now: int,
        outcomes: seq<Outcome>, earlier: seq<Outgoing>, calls: seq<Outgoing>, id: Id)
      requires cfg.baseBackoffMs > 0 && cfg.maxBackoffMs > 0
      requires TableOk(t) && Draining(t, rows, handled, now, outcomes, earlier, calls)
      requires IsFirst(rows, DueIds(rows, now), id)
      ensures id in t && RowOk(t[id]) && Open(t[id]) && t[id] == rows[id]
      ensures Draining(t, rows[id := RowAfter(id, t[id], now)], handled + [id], now,
                       outcomes + [OutcomeOf(id, t[id], now)], earlier, calls + CallsOf(id, t[id], now))
    {
      ProgressExtend(t, rows, handled, now, id);
      RecordedExtend(t, handled, now, outcomes, earlier, calls, id);
    }

    lemma BackoffPositive(attempts: int)
      requires cfg.baseBackoffMs > 0 && cfg.maxBackoffMs > 0
      ensures Backoff(cfg, attempts) > 0
    {
      Positive(cfg.baseBackoffMs, Pow2(Max(attempts - 1, 0)));
    }

    lemma Positive(a: int, b: int)
      requires a > 0 && b > 0
      ensures a * b > 0
    {
    }

    lemma DrainEnds(t: Table, rows: Table, handled: seq<Id>, now: int)
      requires TableOk(t) && Progress(t, rows, handled, now)
      ensures |handled| <= |DueIds(t, now)| && (DueIds(rows, now) == {} ==> |handled| == |DueIds(t, now)|)
    {
      DistinctCount(handled);
      DueLeft(DueIds(t, now), handled);
    }

    /**
      With a positive backoff and a frozen clock, a drain handles the rows due at its start once
      each, in claim order, up to the limit, and touches no other row.
    */
    method DrainTenant(now: int, limit: nat) returns (outcomes: seq<Outcome>, ghost handled: seq<Id>)
      requires TableOk(db.rows) && cfg.baseBackoffMs > 0 && cfg.maxBackoffMs > 0
      modifies db, sender
      ensures TableOk(db.rows)
      ensures DrainOrder(old(db.rows), DueIds(old(db.rows), now), handled)
      ensures |handled| == Min(limit, |DueIds(old(db.rows), now)|)
      ensures outcomes == OutcomesFor(old(db.rows), handled, now)
      ensures sender.calls == old(sender.calls) + CallsFor(old(db.rows), handled, now)
      ensures db.rows == Settled(old(db.rows), handled, now)
      ensures DueIds(db.rows, now) == DueIds(old(db.rows), now) - SetOf(handled)
    {
      outcomes, handled := DrainLoop(now, limit);
      DrainEnds(old(db.rows), db.rows, handled, now);
    }

    /** The loop of `drainTenant`. */
    method DrainLoop(now: int, limit: nat) returns (outcomes: seq<Outcome>, ghost handled: seq<Id>)
      requires TableOk(db.rows) && cfg.baseBackoffMs > 0 && cfg.maxBackoffMs > 0
      modifies db, sender
      ensures TableOk(db.rows) && |outcomes| == |handled| <= limit
      ensures Draining(old(db.rows), db.rows, handled, now, outcomes, old(sender.calls), sender.calls)
      ensures |handled| < limit ==> DueIds(db.rows, now) == {}
    {
      ghost var start := db.rows;
      outcomes, handled := [], [];
      assert db.rows == Settled(start, handled, now);
      while |outcomes| < limit
        invariant TableOk(db.rows) && |outcomes| == |handled| <= limit
        invariant Draining(start, db.rows, handled, now, outcomes, old(sender.calls), sender.calls)
        decreases limit - |outcomes|
      {
        ghost var before, calls := db.rows, sender.calls;
        var outcome, id := DispatchNext(now, {});
        assert DueIds(before, now) - {} == DueIds(before, now);
        if outcome.None? { break; }
        DrainingExtend(start, before, handled, now, outcomes, old(sender.calls), calls, id);
        outcomes, handled := outcomes + [outcome.value], handled + [id];
      }
    }
  }

  lemma {:induction false} DistinctCount(s: seq<Id>)
    requires forall i, j :: 0 <= i < j < |s| ==> s[i] != s[j]
    ensures |SetOf(s)| == |s|
  {
    if s != [] {
      DistinctCount(Init(s));
      assert Last(s) !in Init(s);
      assert SetOf(s) == SetOf(Init(s)) + {Last(s)};
    }
  }

  /** The order leaves no choice: what a drain handles is fixed by the table and the number of rows. */
  lemma DrainOrderUnique(t: Table, due: set<Id>, a: seq<Id>, b: seq<Id>)
    requires DrainOrder(t, due, a) && DrainOrder(t, due, b) && |a| == |b|
    ensures a == b
  {
    if a != b {
      var i :| 0 <= i < |a| && a[i] != b[i] && forall k :: 0 <= k < i ==> a[k] == b[k] by { FirstDifference(a, b); }
      assert a[i] in SetOf(a) && b[i] in SetOf(b);
      EarlierHere(t, due, a, b, i);
      EarlierHere(t, due, b, a, i);
    }
  }

  lemma {:induction false} FirstDifference(a: seq<Id>, b: seq<Id>)
    requires |a| == |b| && a != b
    ensures exists i :: 0 <= i < |a| && a[i] != b[i] && forall k :: 0 <= k < i ==> a[k] == b[k]
  {
    if Init(a) == Init(b) {
      assert a == Init(a) + [Last(a)] && b == Init(b) + [Last(b)];
      var n := |a| - 1;
      assert a[n] != b[n] && forall k :: 0 <= k < n ==> a[k] == Init(a)[k] == Init(b)[k] == b[k];
    } else {
      FirstDifference(Init(a), Init(b));
      var i :| 0 <= i < |Init(a)| && Init(a)[i] != Init(b)[i] && forall k :: 0 <= k < i ==> Init(a)[k] == Init(b)[k];
      assert a[i] != b[i] && forall k :: 0 <= k < i ==> a[k] == Init(a)[k] == Init(b)[k] == b[k];
    }
  }

  lemma EarlierHere(t: Table, due: set<Id>, a: seq<Id>, b: seq<Id>, i: nat)
    requires DrainOrder(t, due, a) && DrainOrder(t, due, b) && i < |a| == |b| && a[i] != b[i]
    requires forall k :: 0 <= k < i ==> a[k] == b[k]
    ensures a[i] in due && b[i] in due && Before(t, a[i], b[i])
  {
    assert a[i] in SetOf(a) && b[i] in SetOf(b);
    if b[i] in a {
      var k :| 0 <= k < |a| && a[k] == b[i];
      assert k >= i;
    }
  }

  lemma DueLeft(due: set<Id>, handled: seq<Id>)
    requires SetOf(handled) <= due && |SetOf(handled)| == |handled|
    ensures |handled| <= |due|
    ensures due - SetOf(handled) == {} ==> |handled| == |due|
  {
    var s := SetOf(handled);
    assert due == s + (due - s);
    assert |due| == |s| + |due - s|;
  }
}

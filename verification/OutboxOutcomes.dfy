/**
  What a claim picks, what a finish leaves behind and when a row is in which status, told on delivery,
  attempts, limit and clock.
*/
module OutboxOutcomes {
  import opened Prelude
  import opened Templates
  import opened Outbox
  import opened OutboxProtocol
  import opened Dispatcher

  /** The failure is the last one: it is permanent, or the attempts are used up. */
  predicate LastFailure(cfg: Config, attempts: nat, permanent: bool) {
    permanent || attempts >= cfg.maxAttempts
  }

  /** The row after a round that was delivered at `now`. */
  predicate SentRow(before: Row, after: Row, now: int) {
    after == before.(status := Sent, sentAt := Some(now), lastErrorCode := None,
                     leaseExpiresAt := None, recipient := None, variables := None)
  }

  /** After its last failure. */
  predicate DeadRow(before: Row, after: Row, code: string) {
    after == before.(status := Dead, lastErrorCode := Some(code),
                     leaseExpiresAt := None, recipient := None, variables := None)
  }

  /** After a failure that is not the last: as before but for the wait, 2^(attempts - 1) times the base or the cap. */
  predicate WaitingRow(cfg: Config, before: Row, after: Row, code: string, attempts: nat, now: int)
    requires attempts >= 1
  {
    var wait := cfg.baseBackoffMs * Pow2(attempts - 1);
    after == before.(status := Pending, lastErrorCode := Some(code), leaseExpiresAt := None,
                     availableAt := now + if wait <= cfg.maxBackoffMs then wait else cfg.maxBackoffMs)
  }

  /** What a round makes of its row. */
  predicate ClosedAs(cfg: Config, before: Row, after: Row, attempts: nat, d: Delivery, now: int)
    requires attempts >= 1
  {
    match d
    case Delivered => SentRow(before, after, now)
    case Failed(code, permanent) =>
      if LastFailure(cfg, attempts, permanent) then DeadRow(before, after, code)
      else WaitingRow(cfg, before, after, code, attempts, now)
  }

  /** After any run: the finish of a round that no later claim has overtaken. */
  lemma FinishMeaning(cfg: Config, clock: int, steps: seq<Step>, k: nat)
    requires var w := Run(cfg, Start(clock), steps);
             && k < |w.rounds| && w.rounds[k].phase.Answered?
             && forall j :: k < j < |w.rounds| ==> w.rounds[j].id != w.rounds[k].id
    ensures var w := Run(cfg, Start(clock), steps);
            var r, rows := w.rounds[k], Apply(cfg, w, DoFinish(k)).rows;
            && r.id in w.rows && r.token >= 1 && rows.Keys == w.rows.Keys
            && (forall id :: id in rows && id != r.id ==> rows[id] == w.rows[id])
            && ClosedAs(cfg, w.rows[r.id], rows[r.id], r.token, r.phase.delivery, w.clock)
  {
    var w := Run(cfg, Start(clock), steps);
    InvRun(cfg, clock, steps);
    LatestHolds(cfg, w, k);
    assert RoundOk(cfg, w, k) && HolderOk(cfg, w, k);
  }

  // ---- status over runs ----

  /** The round has closed the row, and how it had gone. */
  predicate ClosedWith(w: World, k: nat, id: Id, d: Delivery) {
    && k < |w.rounds| && id in w.rows
    && w.rounds[k].id == id && w.rounds[k].token == w.rows[id].attempts && w.rounds[k].phase == Finished(d, true)
  }

  ghost predicate EndedDead(cfg: Config, w: World, id: Id) {
    exists k: nat, code, permanent ::
      ClosedWith(w, k, id, Failed(code, permanent)) && LastFailure(cfg, w.rows[id].attempts, permanent)
  }

  ghost predicate EndedWaiting(cfg: Config, w: World, id: Id) {
    exists k: nat, code, permanent ::
      ClosedWith(w, k, id, Failed(code, permanent)) && !LastFailure(cfg, w.rows[id].attempts, permanent)
  }

  ghost predicate EndedSent(w: World, id: Id) {
    exists k: nat :: ClosedWith(w, k, id, Delivered)
  }

  /**
    After any run: a row is SENT exactly if its latest round was accepted and closed it, DEAD exactly if
    that round closed it by a last failure, PENDING exactly if it was never claimed or closed by another
    failure, and SENDING exactly if it was claimed and that round has not closed it.
  */
  lemma StatusIff(cfg: Config, clock: int, steps: seq<Step>, id: Id)
    requires id in Run(cfg, Start(clock), steps).rows
    ensures var w := Run(cfg, Start(clock), steps);
            var row := w.rows[id];
            && (row.status == Sent <==> EndedSent(w, id))
            && (row.status == Dead <==> EndedDead(cfg, w, id))
            && (row.status == Pending <==> row.attempts == 0 || EndedWaiting(cfg, w, id))
            && (row.status == Sending <==>
                  row.attempts > 0 && !EndedSent(w, id) && !EndedDead(cfg, w, id) && !EndedWaiting(cfg, w, id))
  {
    var w := Run(cfg, Start(clock), steps);
    InvRun(cfg, clock, steps);
    if w.rows[id].attempts == 0 {
      NeverClosed(cfg, w, id);
    } else {
      assert Handed(w, id, w.rows[id].attempts);
      var k :| 0 <= k < |w.rounds| && w.rounds[k].id == id && w.rounds[k].token == w.rows[id].attempts;
      StatusOfHolder(cfg, w, id, k);
    }
  }

  lemma NeverClosed(cfg: Config, w: World, id: Id)
    requires Inv(cfg, w) && id in w.rows && w.rows[id].attempts == 0
    ensures w.rows[id].status == Pending && !EndedSent(w, id) && !EndedDead(cfg, w, id) && !EndedWaiting(cfg, w, id)
  {
    forall k: nat, d ensures !ClosedWith(w, k, id, d) {
      assert k < |w.rounds| ==> RoundOk(cfg, w, k);
    }
  }

  lemma StatusOfHolder(cfg: Config, w: World, id: Id, k: nat)
    requires Inv(cfg, w) && id in w.rows && w.rows[id].attempts > 0
    requires k < |w.rounds| && w.rounds[k].id == id && w.rounds[k].token == w.rows[id].attempts
    ensures var row := w.rows[id];
            && (row.status == Sent <==> EndedSent(w, id))
            && (row.status == Dead <==> EndedDead(cfg, w, id))
            && (row.status == Pending <==> EndedWaiting(cfg, w, id))
            && (row.status == Sending <==> !EndedSent(w, id) && !EndedDead(cfg, w, id) && !EndedWaiting(cfg, w, id))
  {
    assert HolderOk(cfg, w, k);
    forall j: nat, d | ClosedWith(w, j, id, d) ensures j == k {
      assert j < k ==> SameRow(w, j, k);
      assert k < j ==> SameRow(w, k, j);
    }
    if Applied(w.rounds[k]) {
      var d := w.rounds[k].phase.delivery;
      assert ClosedWith(w, k, id, d);
    }
  }

  // ---- what a claim picks ----

  /** The claim query's order as one list of numbers per row. */
  function Rank(t: Table, id: Id): (int, int, Id)
    requires id in t
  {
    (t[id].availableAt, t[id].createdAt, id)
  }

  predicate RankedBefore(a: (int, int, Id), b: (int, int, Id)) {
    if a.0 != b.0 then a.0 < b.0 else if a.1 != b.1 then a.1 < b.1 else a.2 < b.2
  }

  /** A row may be claimed: it waits and its time has come, or its lease is over. */
  predicate Claimable(r: Row, now: int) {
    match r.status
    case Pending => now >= r.availableAt
    case Sending => r.leaseExpiresAt.Some? && now >= r.leaseExpiresAt.value
    case _ => false
  }

  /**
    A claim takes a row exactly if it may be claimed, nobody has it locked, and it ranks before every
    other such row; it then is SENDING with one attempt more, for the length of the lease.
  */
  lemma ClaimTakesIff(cfg: Config, w: World, locked: set<Id>, id: Id)
    ensures var w' := Apply(cfg, w, DoClaim(locked));
            var taken := |w'.rounds| > |w.rounds| && Last(w'.rounds).id == id;
            && (taken <==>
                  && id in w.rows && Claimable(w.rows[id], w.clock) && id !in locked
                  && forall j :: j in w.rows && Claimable(w.rows[j], w.clock) && j !in locked && j != id ==>
                       RankedBefore(Rank(w.rows, id), Rank(w.rows, j)))
            && (taken ==>
                  && Last(w'.rounds).token == w.rows[id].attempts + 1
                  && w'.rows == w.rows[id := w.rows[id].(status := Sending, attempts := w.rows[id].attempts + 1,
                                                         leaseExpiresAt := Some(w.clock + cfg.leaseMs))])
  {
    var free := DueIds(w.rows, w.clock) - locked;
    assert forall j :: j in free <==> j in w.rows && Claimable(w.rows[j], w.clock) && j !in locked;
    if free != {} {
      var first := First(w.rows, free);
      assert first in free;
      assert id in free && id != first ==> Before(w.rows, first, id);
    }
  }

  // ---- the dispatcher ----

  /** How rendering and sending of one row go. */
  function DeliveryFor(d: AccountEmailDispatcher, id: Id, r: Row): Delivery
    requires RowOk(r) && Open(r)
  {
    match RenderRefusal(r.template, r.locale, r.variables.value, d.opts)
    case Some(InvalidTemplate) => Failed("INVALID_TEMPLATE", true)
    case Some(InvalidLocale) => Failed("INVALID_LOCALE", true)
    case Some(InvalidVariables) => Failed("INVALID_VARIABLES", true)
    case Some(TemplateFailed) => Failed("TEMPLATE_FAILED", true)
    case None =>
      match d.sender.answer(Outgoing(id, r.recipient.value, r.template, r.locale, r.variables.value))
      case Accepted => Delivered
      case SmtpError(code, permanent) => Failed(code, permanent)
      case Thrown => Failed("SEND_FAILED", false)
  }

  /** What `DispatchNext` leaves of the row it handles, and the outcome it returns. */
  lemma RoundMeaning(d: AccountEmailDispatcher, id: Id, r: Row, now: int)
    requires RowOk(r) && Open(r)
    ensures var delivery := DeliveryFor(d, id, r);
            var claimed :=
              r.(status := Sending, attempts := r.attempts + 1, leaseExpiresAt := Some(now + d.cfg.leaseMs));
            && ClosedAs(d.cfg, claimed, d.RowAfter(id, r, now), r.attempts + 1, delivery, now)
            && (d.OutcomeOf(id, r, now) == SENT <==> delivery == Delivered)
            && (d.OutcomeOf(id, r, now) == DEAD <==>
                  delivery.Failed? && (delivery.permanent || r.attempts + 1 >= d.cfg.maxAttempts))
            && (d.OutcomeOf(id, r, now) == RETRY <==>
                  delivery.Failed? && !delivery.permanent && r.attempts + 1 < d.cfg.maxAttempts)
            && d.CallsOf(id, r, now)
               == if RenderRefusal(r.template, r.locale, r.variables.value, d.opts).Some? then []
                  else [Outgoing(id, r.recipient.value, r.template, r.locale, r.variables.value)]
  {
  }

  /**
    With the default options a row gets eight attempts, a minute each; a transient failure of the first
    seven waits.
  */
  lemma DefaultLimits(attempts: nat, permanent: bool)
    ensures LastFailure(DEFAULTS, attempts, permanent) <==> permanent || attempts >= 8
    ensures DEFAULTS.leaseMs == 60_000 && DEFAULTS.baseBackoffMs == 30_000 && DEFAULTS.maxBackoffMs == 3_600_000
  {
  }

  /** A new row waits from the moment it was put there, with no attempt made. */
  lemma AddedRowIs(t: Table, id: Id, m: Mail, now: int)
    requires Enqueue(t, id, m, now).Added?
    ensures var t' := Enqueue(t, id, m, now).table;
            && id !in t && t' == t[id := t'[id]]
            && t'[id] == Row(m.template, m.locale, Some(m.recipient), Some(m.variables), m.dedupeKey,
                             Pending, 0, now, None, None, None, now)
  {
  }
}

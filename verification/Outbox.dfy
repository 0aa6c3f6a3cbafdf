/**
  The account_email_outbox table of one tenant and the row transitions of account-email.ts.
  The class in Dispatcher.dfy and the state machine in OutboxProtocol.dfy share these.
*/
module Outbox {
  import opened Prelude
  import opened Templates

  /** Row ids are UUIDs, compared as 128-bit numbers. */
  type Id = nat

  datatype Status = Pending | Sending | Sent | Dead

  datatype Row = Row(
    template: string, locale: string, recipient: Option<string>, variables: Option<Variables>,
    dedupeKey: string, status: Status, attempts: nat, availableAt: int,
    leaseExpiresAt: Option<int>, lastErrorCode: Option<string>, sentAt: Option<int>, createdAt: int)

  type Table = map<Id, Row>

  predicate Open(r: Row) { r.status == Pending || r.status == Sending }

  /** Recipient and variables are there exactly while open, the lease while SENDING, sentAt once SENT. */
  predicate RowOk(r: Row) {
    && (if Open(r) then r.recipient.Some? && r.variables.Some? else r.recipient.None? && r.variables.None?)
    && (r.status == Sending <==> r.leaseExpiresAt.Some?)
    && (r.status == Sent <==> r.sentAt.Some?)
  }

  predicate TableOk(t: Table) {
    && (forall id :: id in t ==> RowOk(t[id]))
    && (forall a, b :: a in t && b in t && t[a].dedupeKey == t[b].dedupeKey ==> a == b)
  }

  // ---- enqueue ----

  datatype Mail = Mail(template: string, locale: string, recipient: string, variables: Variables, dedupeKey: string)

  datatype Enqueued = Added(table: Table) | Known | Refused(reason: Reason) | IdTaken

  function NewRow(m: Mail, now: int): Row {
    Row(m.template, m.locale, Some(m.recipient), Some(m.variables), m.dedupeKey, Pending, 0, now, None, None, None, now)
  }

  predicate HasKey(t: Table, key: string) {
    exists id :: id in t && t[id].dedupeKey == key
  }

  /** `INSERT ... ON CONFLICT (tenant_id, dedupe_key) DO NOTHING` behind the input checks. */
  function Enqueue(t: Table, id: Id, m: Mail, now: int): Enqueued {
    var refusal := EnqueueRefusal(m.template, m.locale, m.recipient, m.variables, m.dedupeKey);
    if refusal.Some? then Refused(refusal.value)
    else if HasKey(t, m.dedupeKey) then Known
    else if id in t then IdTaken
    else Added(t[id := NewRow(m, now)])
  }

  /** The table after a call, which is the old one unless a row was added. */
  function TableAfter(t: Table, e: Enqueued): Table {
    if e.Added? then e.table else t
  }

  predicate OneRowFor(t: Table, key: string) {
    exists k :: k in t && t[k].dedupeKey == key && forall j :: j in t && t[j].dedupeKey == key ==> j == k
  }

  /** However often a key is enqueued, the table holds one row for it: the first. */
  lemma EnqueueOncePerKey(t: Table, id: Id, m: Mail, now: int)
    requires TableOk(t)
    ensures var e := Enqueue(t, id, m, now);
            && TableOk(TableAfter(t, e))
            && (e.Added? ==>
                  && !HasKey(t, m.dedupeKey) && e.table.Keys == t.Keys + {id}
                  && (forall k :: k in t ==> e.table[k] == t[k])
                  && (forall id2, m2: Mail, now2 :: m2.dedupeKey == m.dedupeKey ==>
                        !Enqueue(e.table, id2, m2, now2).Added?))
            && (e.Added? || e.Known? ==> OneRowFor(TableAfter(t, e), m.dedupeKey))
  {
    var e := Enqueue(t, id, m, now);
    if e.Added? {
      AddedRow(t, id, m, now);
    } else if e.Known? {
      var k :| k in t && t[k].dedupeKey == m.dedupeKey;
    }
  }

  lemma AddedRow(t: Table, id: Id, m: Mail, now: int)
    requires TableOk(t) && id !in t && !HasKey(t, m.dedupeKey)
    ensures var t' := t[id := NewRow(m, now)];
            TableOk(t') && HasKey(t', m.dedupeKey) && OneRowFor(t', m.dedupeKey)
  {
    var t' := t[id := NewRow(m, now)];
    forall a | a in t && t[a].dedupeKey == m.dedupeKey ensures false {
      assert HasKey(t, m.dedupeKey);
    }
    assert t'[id].dedupeKey == m.dedupeKey;
    OnlyRow(t', id);
  }

  lemma OnlyRow(t: Table, id: Id)
    requires id in t && forall j :: j in t && t[j].dedupeKey == t[id].dedupeKey ==> j == id
    ensures HasKey(t, t[id].dedupeKey) && OneRowFor(t, t[id].dedupeKey)
  {
  }

  // ---- the order of the claim query ----

  predicate Due(r: Row, now: int) {
    || (r.status == Pending && r.availableAt <= now)
    || (r.status == Sending && r.leaseExpiresAt.Some? && r.leaseExpiresAt.value <= now)
  }

  function DueIds(t: Table, now: int): set<Id> {
    set id | id in t && Due(t[id], now)
  }

  /** `ORDER BY available_at, created_at, id` */
  predicate Before(t: Table, a: Id, b: Id)
    requires a in t && b in t
  {
    || t[a].availableAt < t[b].availableAt
    || (t[a].availableAt == t[b].availableAt && t[a].createdAt < t[b].createdAt)
    || (t[a].availableAt == t[b].availableAt && t[a].createdAt == t[b].createdAt && a < b)
  }

  predicate IsFirst(t: Table, ids: set<Id>, id: Id)
    requires ids <= t.Keys
  {
    id in ids && forall j :: j in ids && j != id ==> Before(t, id, j)
  }

  lemma {:induction false} FirstExists(t: Table, ids: set<Id>) returns (id: Id)
    requires ids <= t.Keys && ids != {}
    ensures IsFirst(t, ids, id)
    decreases ids
  {
    var some :| some in ids;
    if ids == {some} {
      id := some;
    } else {
      var rest := FirstExists(t, ids - {some});
      id := if Before(t, some, rest) then some else rest;
      forall j | j in ids && j != id
        ensures Before(t, id, j)
      {
        assert j != some ==> j in ids - {some};
      }
    }
  }

  // ---- row transitions ----

  datatype Config = Config(leaseMs: int, maxAttempts: int, baseBackoffMs: int, maxBackoffMs: int)

  const DEFAULTS := Config(60_000, 8, 30_000, 3_600_000)

  function Min(a: int, b: int): int { if a <= b then a else b }

  function Max(a: int, b: int): int { if a >= b then a else b }

  function Backoff(cfg: Config, attempts: int): int {
    Min(cfg.baseBackoffMs * Pow2(Max(attempts - 1, 0)), cfg.maxBackoffMs)
  }

  function ClaimedRow(r: Row, now: int, leaseMs: int): Row {
    r.(status := Sending, attempts := r.attempts + 1, leaseExpiresAt := Some(now + leaseMs))
  }

  datatype Closing = CloseSent(at: int) | CloseDead(code: string) | Reschedule(availableAt: int, code: string)

  /** The compare-and-set that ends a round: it only touches the row its own claim left behind. */
  function ClosedRow(r: Row, token: nat, c: Closing): Row {
    if r.status != Sending || r.attempts != token then r
    else
      match c
      case CloseSent(at) =>
        r.(status := Sent, sentAt := Some(at), lastErrorCode := None, leaseExpiresAt := None,
           recipient := None, variables := None)
      case CloseDead(code) =>
        r.(status := Dead, lastErrorCode := Some(code), leaseExpiresAt := None,
           recipient := None, variables := None)
      case Reschedule(at, code) =>
        r.(status := Pending, availableAt := at, lastErrorCode := Some(code), leaseExpiresAt := None)
  }

  /** How rendering and sending went for one claim. */
  datatype Delivery = Delivered | Failed(code: string, permanent: bool)

  datatype Outcome = SENT | RETRY | DEAD

  function Verdict(cfg: Config, token: nat, d: Delivery): Outcome {
    if d.Delivered? then SENT else if d.permanent || token >= cfg.maxAttempts then DEAD else RETRY
  }

  function ClosingOf(cfg: Config, token: nat, d: Delivery, now: int): Closing {
    match Verdict(cfg, token, d)
    case SENT => CloseSent(now)
    case DEAD => CloseDead(if d.Failed? then d.code else "")
    case RETRY => Reschedule(now + Backoff(cfg, token), if d.Failed? then d.code else "")
  }

  // ---- backoff ----

  /** Each wait doubles the one before until the cap. */
  lemma BackoffDoubles(cfg: Config, attempts: nat)
    requires cfg.baseBackoffMs >= 0 && cfg.maxBackoffMs >= 0 && attempts >= 1
    ensures Backoff(cfg, attempts + 1) == Min(2 * Backoff(cfg, attempts), cfg.maxBackoffMs)
    ensures Backoff(cfg, attempts) <= Backoff(cfg, attempts + 1)
  {
    var b := cfg.baseBackoffMs * Pow2(attempts - 1);
    assert cfg.baseBackoffMs * Pow2(attempts) == 2 * b;
    assert b >= 0;
  }

  /** The waits after failures 1 to k. */
  function TotalWait(cfg: Config, k: nat): int {
    if k == 0 then 0 else TotalWait(cfg, k - 1) + Backoff(cfg, k)
  }

  lemma {:induction false} PowMonotone(a: nat, b: nat)
    requires a <= b
    ensures Pow2(a) <= Pow2(b)
    decreases b
  {
    if a < b { PowMonotone(a, b - 1); }
  }

  /** More failures never mean a shorter wait. */
  lemma BackoffMonotone(cfg: Config, a: int, b: int)
    requires cfg.baseBackoffMs >= 0 && a <= b
    ensures Backoff(cfg, a) <= Backoff(cfg, b)
  {
    var p, q := Pow2(Max(a - 1, 0)), Pow2(Max(b - 1, 0));
    PowMonotone(Max(a - 1, 0), Max(b - 1, 0));
    Distribute(cfg.baseBackoffMs, p, q - p);
  }

  /** k waits never add up to more than k caps. */
  lemma {:induction false} WaitsCapped(cfg: Config, k: nat)
    ensures TotalWait(cfg, k) <= cfg.maxBackoffMs * k
  {
    if k > 0 {
      WaitsCapped(cfg, k - 1);
      Distribute(cfg.maxBackoffMs, k - 1, 1);
    }
  }

  /** Below the cap, k waits add up to base * (2^k - 1). */
  lemma {:induction false} WaitsDouble(cfg: Config, k: nat)
    requires k >= 1 && cfg.baseBackoffMs >= 0
    requires cfg.baseBackoffMs * Pow2(k - 1) <= cfg.maxBackoffMs
    ensures TotalWait(cfg, k) == cfg.baseBackoffMs * (Pow2(k) - 1)
  {
    var p := Pow2(k - 1);
    Distribute(cfg.baseBackoffMs, p - 1, p);
    assert Pow2(k) - 1 == (p - 1) + p;
    if k > 1 {
      Distribute(cfg.baseBackoffMs, Pow2(k - 2), Pow2(k - 2));
      WaitsDouble(cfg, k - 1);
    }
  }

  lemma Distribute(a: int, b: nat, c: nat)
    ensures a * (b + c) == a * b + a * c
    ensures a >= 0 ==> a * b >= 0 && a * c >= 0
  {
  }

  /** Seven retries with the default options: 3 810 seconds. */
  lemma DefaultTotalWait()
    ensures TotalWait(DEFAULTS, 7) == 3_810_000
  {
    assert Pow2(3) == 8;
    assert Pow2(6) == 64;
    assert Pow2(7) == 128;
    WaitsDouble(DEFAULTS, 7);
  }
}

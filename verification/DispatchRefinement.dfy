/**
  The dispatcher's methods against the protocol: a round that nothing disturbs is four steps of
  OutboxProtocol.dfy, and a whole drain is a run of it, so what every run keeps holds for drains.
*/
module DispatchRefinement {
  import opened Prelude
  import opened Outbox
  import opened OutboxProtocol
  import opened Dispatcher

  /** Claim, send when the e-mail renders, answer, finish. */
  function RoundSteps(d: AccountEmailDispatcher, w: World, id: Id): seq<Step>
    requires id in w.rows && RowOk(w.rows[id]) && Open(w.rows[id])
  {
    var job, n := d.ClaimJob(id, w.rows[id], w.clock), |w.rounds|;
    [DoClaim({}), if d.Renders(job) then DoSend(n) else DoTick(w.clock), DoAnswer(n, d.DeliveryOf(job)), DoFinish(n)]
  }

  /** The claim query has one answer. */
  lemma FirstIs(t: Table, ids: set<Id>, id: Id)
    requires ids <= t.Keys && ids != {} && IsFirst(t, ids, id)
    ensures First(t, ids) == id
  {
    var first := First(t, ids);
    assert first == id || Before(t, id, first);
  }

  /** A claimed round with its answer in. */
  function WithAnswer(w: World, n: nat, sent: bool, delivery: Delivery): World
    requires n < |w.rounds|
  {
    w.(rounds := w.rounds[n := w.rounds[n].(sent := sent, phase := Answered(delivery))])
  }

  lemma SendAndAnswer(cfg: Config, w: World, n: nat, renders: bool, delivery: Delivery)
    requires n < |w.rounds| && w.rounds[n].phase == Claimed && !w.rounds[n].sent
    requires renders || (delivery.Failed? && delivery.permanent)
    ensures Apply(cfg, Apply(cfg, w, if renders then DoSend(n) else DoTick(w.clock)), DoAnswer(n, delivery))
            == WithAnswer(w, n, renders, delivery)
  {
  }

  lemma ClaimsFirst(cfg: Config, w: World, id: Id)
    requires IsFirst(w.rows, DueIds(w.rows, w.clock), id)
    ensures Apply(cfg, w, DoClaim({})) == ClaimAt(cfg, w, id)
  {
    assert DueIds(w.rows, w.clock) - {} == DueIds(w.rows, w.clock);
    FirstIs(w.rows, DueIds(w.rows, w.clock), id);
  }

  lemma RoundRuns(d: AccountEmailDispatcher, w: World, id: Id)
    requires id in w.rows && RowOk(w.rows[id]) && Open(w.rows[id])
    requires IsFirst(w.rows, DueIds(w.rows, w.clock), id)
    ensures var job, n := d.ClaimJob(id, w.rows[id], w.clock), |w.rounds|;
            n < |ClaimAt(d.cfg, w, id).rounds| &&
            Run(d.cfg, w, RoundSteps(d, w, id))
            == FinishAt(d.cfg, WithAnswer(ClaimAt(d.cfg, w, id), n, d.Renders(job), d.DeliveryOf(job)), n)
  {
    var job, n := d.ClaimJob(id, w.rows[id], w.clock), |w.rounds|;
    ClaimsFirst(d.cfg, w, id);
    SendAndAnswer(d.cfg, ClaimAt(d.cfg, w, id), n, d.Renders(job), d.DeliveryOf(job));
    var renders, delivery := d.Renders(job), d.DeliveryOf(job);
    RunFour(d.cfg, w, DoClaim({}), if renders then DoSend(n) else DoTick(w.clock), DoAnswer(n, delivery), DoFinish(n));
  }

  /** Those four steps leave the claimed row as `DispatchNext` does, and no other row changed. */
  lemma RoundRefines(d: AccountEmailDispatcher, w: World, id: Id)
    requires TableOk(w.rows) && IsFirst(w.rows, DueIds(w.rows, w.clock), id)
    ensures var w' := Run(d.cfg, w, RoundSteps(d, w, id));
            && w'.rows == w.rows[id := d.RowAfter(id, w.rows[id], w.clock)] && w'.clock == w.clock
            && |w'.rounds| == |w.rounds| + 1 && w'.rounds[..|w.rounds|] == w.rounds && Applied(Last(w'.rounds))
            && Last(w'.rounds).id == id && (Last(w'.rounds).sent <==> d.CallsOf(id, w.rows[id], w.clock) != [])
  {
    RoundRuns(d, w, id);
  }

  lemma PrefixInOrder(t: Table, due: set<Id>, handled: seq<Id>)
    requires handled != [] && DrainOrder(t, due, handled)
    ensures DrainOrder(t, due, Init(handled)) && Last(handled) in due && Last(handled) !in Init(handled)
    ensures forall k :: k in due && k !in Init(handled) && k != Last(handled) ==> Before(t, Last(handled), k)
  {
    var n := |handled| - 1;
    assert Last(handled) in SetOf(handled);
    forall k | k in SetOf(Init(handled)) ensures k in due {
      assert k in SetOf(handled);
    }
    forall i, k | 0 <= i < n && k in due && k !in Init(handled) ensures Before(t, handled[i], k) {
      if k == handled[n] { assert Before(t, handled[i], handled[n]); } else { assert k !in handled; }
    }
    forall k | k in due && k !in Init(handled) && k != Last(handled) ensures Before(t, Last(handled), k) {
      assert k !in handled;
    }
  }

  /** The next row in the order is the one the claim query finds in the table as the earlier rounds left it. */
  lemma NextIsFirst(d: AccountEmailDispatcher, t: Table, rows: Table, handled: seq<Id>, now: int)
    requires TableOk(t) && handled != [] && DrainOrder(t, DueIds(t, now), handled)
    requires d.Progress(t, rows, Init(handled), now)
    ensures IsFirst(rows, DueIds(rows, now), Last(handled))
  {
    var due, last := DueIds(rows, now), Last(handled);
    PrefixInOrder(t, DueIds(t, now), handled);
    assert forall k :: k in due ==> k !in SetOf(Init(handled)) && rows[k] == t[k];
    assert last !in SetOf(Init(handled)) && last in due;
    forall k | k in due && k != last ensures Before(rows, last, k) {
      assert Before(t, last, k);
    }
  }

  /** A drain is a run: the steps that lead from a world to the table `DrainTenant` leaves behind. */
  lemma {:induction false} DrainRefines(d: AccountEmailDispatcher, w: World, handled: seq<Id>)
      returns (steps: seq<Step>)
    requires d.cfg.baseBackoffMs > 0 && d.cfg.maxBackoffMs > 0
    requires TableOk(w.rows) && DrainOrder(w.rows, DueIds(w.rows, w.clock), handled)
    ensures var w' := Run(d.cfg, w, steps);
            && TableOk(w'.rows) && w'.clock == w.clock && |w'.rounds| == |w.rounds| + |handled|
            && d.Progress(w.rows, w'.rows, handled, w.clock)
            && w'.rows == d.Settled(w.rows, handled, w.clock)
    decreases |handled|
  {
    if handled == [] {
      steps := [];
      assert d.Settled(w.rows, handled, w.clock) == w.rows;
    } else {
      PrefixInOrder(w.rows, DueIds(w.rows, w.clock), handled);
      var before := DrainRefines(d, w, Init(handled));
      var mid := Run(d.cfg, w, before);
      OneMoreRound(d, w.rows, mid, handled);
      steps := before + RoundSteps(d, mid, Last(handled));
      RunConcat(d.cfg, w, before, RoundSteps(d, mid, Last(handled)));
      RunKeepsTable(d.cfg, w, steps);
    }
  }

  lemma OneMoreRound(d: AccountEmailDispatcher, t: Table, w: World, handled: seq<Id>)
    requires d.cfg.baseBackoffMs > 0 && d.cfg.maxBackoffMs > 0
    requires TableOk(t) && TableOk(w.rows) && handled != [] && DrainOrder(t, DueIds(t, w.clock), handled)
    requires d.Progress(t, w.rows, Init(handled), w.clock)
    ensures Last(handled) in w.rows && Open(w.rows[Last(handled)])
    ensures var w' := Run(d.cfg, w, RoundSteps(d, w, Last(handled)));
            && w'.clock == w.clock && |w'.rounds| == |w.rounds| + 1 && d.Progress(t, w'.rows, handled, w.clock)
  {
    NextProgress(d, t, w.rows, handled, w.clock);
    RoundRefines(d, w, Last(handled));
  }

  lemma NextProgress(d: AccountEmailDispatcher, t: Table, rows: Table, handled: seq<Id>, now: int)
    requires d.cfg.baseBackoffMs > 0 && d.cfg.maxBackoffMs > 0
    requires TableOk(t) && handled != [] && DrainOrder(t, DueIds(t, now), handled)
    requires d.Progress(t, rows, Init(handled), now)
    ensures var id := Last(handled);
            && IsFirst(rows, DueIds(rows, now), id) && id in t && rows[id] == t[id] && RowOk(t[id]) && Open(t[id])
            && d.Progress(t, rows[id := d.RowAfter(id, t[id], now)], handled, now)
  {
    NextIsFirst(d, t, rows, handled, now);
    d.ProgressExtend(t, rows, Init(handled), now, Last(handled));
    assert Init(handled) + [Last(handled)] == handled;
  }

  lemma {:induction false} RunKeepsTable(cfg: Config, w: World, steps: seq<Step>)
    requires TableOk(w.rows)
    ensures TableOk(Run(cfg, w, steps).rows)
    decreases |steps|
  {
    if steps != [] {
      RunKeepsTable(cfg, w, Init(steps));
      StepKeepsTable(cfg, Run(cfg, w, Init(steps)), Last(steps));
    }
  }

  lemma StepKeepsTable(cfg: Config, w: World, s: Step)
    requires TableOk(w.rows)
    ensures TableOk(Apply(cfg, w, s).rows)
  {
    var w' := Apply(cfg, w, s);
    if s.DoEnqueue? { EnqueueOncePerKey(w.rows, s.id, s.mail, w.clock); }
    if s.DoFinish? && w' != w { FinishTable(cfg, w, s.k); }
    if s.DoClaim? && w' != w { ClaimTable(cfg, w, First(w.rows, DueIds(w.rows, w.clock) - s.locked)); }
  }

  lemma ClaimTable(cfg: Config, w: World, id: Id)
    requires TableOk(w.rows) && id in w.rows && Due(w.rows[id], w.clock)
    ensures TableOk(ClaimAt(cfg, w, id).rows)
  {
    var rows := ClaimAt(cfg, w, id).rows;
    assert forall k :: k in rows ==> rows[k].dedupeKey == w.rows[k].dedupeKey;
  }
}

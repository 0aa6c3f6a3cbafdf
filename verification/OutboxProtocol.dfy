/**
  Any number of dispatchers on one outbox. Each transaction of account-email.ts is one step; between
  the steps of one round anything may happen, the process may crash and the clock may move on.
  Rounds are never forgotten, so statements about whole runs are statements about the last world.
*/
module OutboxProtocol {
  import opened Prelude
  import opened Templates
  import opened Outbox

  /** `Finished(d, applied)`: the compare-and-set ran, and `applied` says whether it matched. */
  datatype Phase =
    | Claimed | InFlight | Answered(delivery: Delivery) | Finished(delivery: Delivery, applied: bool) | Crashed

  /** One claim and what became of it. `takeover`: the row was still SENDING when claimed. */
  datatype Round = Round(id: Id, token: nat, claimedAt: int, leaseUntil: int, takeover: bool, sent: bool, phase: Phase)

  datatype World = World(rows: Table, rounds: seq<Round>, clock: int)

  datatype Step =
    | DoEnqueue(id: Id, mail: Mail)
    | DoClaim(locked: set<Id>)
    | DoSend(k: nat)
    | DoAnswer(k: nat, delivery: Delivery)
    | DoFinish(k: nat)
    | DoCrash(k: nat)
    | DoTick(to: int)

  lemma ThereIsFirst(t: Table, ids: set<Id>)
    requires ids <= t.Keys && ids != {}
    ensures exists id :: IsFirst(t, ids, id)
  {
    var id := FirstExists(t, ids);
  }

  ghost function First(t: Table, ids: set<Id>): (id: Id)
    requires ids <= t.Keys && ids != {}
    ensures IsFirst(t, ids, id)
  {
    ThereIsFirst(t, ids);
    var id :| IsFirst(t, ids, id);
    id
  }

  predicate Applied(r: Round) { r.phase.Finished? && r.phase.applied }

  predicate Running(r: Round) { r.phase.Claimed? || r.phase.InFlight? || r.phase.Answered? }

  function Enter(w: World, k: nat, phase: Phase): World
    requires k < |w.rounds|
  {
    w.(rounds := w.rounds[k := w.rounds[k].(phase := phase)])
  }

  /** A step that is not possible in `w` changes nothing. */
  ghost function Apply(cfg: Config, w: World, s: Step): World {
    match s
    case DoEnqueue(id, mail) =>
      w.(rows := TableAfter(w.rows, Enqueue(w.rows, id, mail, w.clock)))
    case DoClaim(locked) =>
      var free := DueIds(w.rows, w.clock) - locked;
      if free == {} then w else ClaimAt(cfg, w, First(w.rows, free))
    case DoSend(k) =>
      if k < |w.rounds| && w.rounds[k].phase.Claimed?
      then w.(rounds := w.rounds[k := w.rounds[k].(phase := InFlight, sent := true)]) else w
    case DoAnswer(k, d) =>
      if k < |w.rounds| && (w.rounds[k].phase.InFlight? || (w.rounds[k].phase.Claimed? && d.Failed? && d.permanent))
      then Enter(w, k, Answered(d)) else w
    case DoFinish(k) =>
      if k < |w.rounds| && w.rounds[k].phase.Answered? && w.rounds[k].id in w.rows then FinishAt(cfg, w, k) else w
    case DoCrash(k) =>
      if k < |w.rounds| && Running(w.rounds[k]) then Enter(w, k, Crashed) else w
    case DoTick(to) => if to >= w.clock then w.(clock := to) else w
  }

  function ClaimAt(cfg: Config, w: World, id: Id): World
    requires id in w.rows
  {
    var row := ClaimedRow(w.rows[id], w.clock, cfg.leaseMs);
    w.(rows := w.rows[id := row],
       rounds := w.rounds + [Round(id, row.attempts, w.clock, w.clock + cfg.leaseMs,
                                   w.rows[id].status == Sending, false, Claimed)])
  }

  function FinishAt(cfg: Config, w: World, k: nat): World
    requires k < |w.rounds| && w.rounds[k].phase.Answered? && w.rounds[k].id in w.rows
  {
    var r := w.rounds[k];
    var row := w.rows[r.id];
    var closing := ClosingOf(cfg, r.token, r.phase.delivery, w.clock);
    var matched := row.status == Sending && row.attempts == r.token;
    Enter(w, k, Finished(r.phase.delivery, matched)).(rows := w.rows[r.id := ClosedRow(row, r.token, closing)])
  }

  ghost function Run(cfg: Config, w: World, steps: seq<Step>): World
    decreases |steps|
  {
    if steps == [] then w else Apply(cfg, Run(cfg, w, Init(steps)), Last(steps))
  }

  function Start(clock: int): World { World(map[], [], clock) }

  // ---- the invariant ----

  predicate SameRow(w: World, i: nat, j: nat)
    requires i < |w.rounds| && j < |w.rounds|
  {
    w.rounds[i].id == w.rounds[j].id
  }

  predicate RoundOk(cfg: Config, w: World, k: nat)
    requires k < |w.rounds|
  {
    var r := w.rounds[k];
    && r.id in w.rows && 1 <= r.token <= w.rows[r.id].attempts
    && r.leaseUntil == r.claimedAt + cfg.leaseMs && r.claimedAt <= w.clock
    && (r.phase.InFlight? ==> r.sent)
    && (r.phase.Answered? && r.phase.delivery.Delivered? ==> r.sent)
    && (r.phase.Finished? && r.phase.delivery.Delivered? ==> r.sent)
  }

  /** Tokens of one row go up with the claims. */
  predicate TokensRise(w: World) {
    forall i, j :: 0 <= i < j < |w.rounds| && SameRow(w, i, j) ==> w.rounds[i].token < w.rounds[j].token
  }

  /** Every value the attempts column ever had was handed to some claim. */
  predicate TokensUsed(w: World) {
    forall id, t :: id in w.rows && 1 <= t <= w.rows[id].attempts ==> Handed(w, id, t)
  }

  predicate Handed(w: World, id: Id, t: nat) {
    exists k :: 0 <= k < |w.rounds| && w.rounds[k].id == id && w.rounds[k].token == t
  }

  function StatusAfter(o: Outcome): Status {
    match o case SENT => Sent case DEAD => Dead case RETRY => Pending
  }

  /** The latest round of a row explains the row's status. */
  predicate HolderOk(cfg: Config, w: World, k: nat)
    requires k < |w.rounds| && w.rounds[k].id in w.rows
  {
    var r := w.rounds[k];
    var row := w.rows[r.id];
    r.token == row.attempts ==>
      if row.status == Sending then !Applied(r) && row.leaseExpiresAt == Some(r.leaseUntil)
      else Applied(r) && row.status == StatusAfter(Verdict(cfg, r.token, r.phase.delivery))
  }

  predicate HoldersOk(cfg: Config, w: World) {
    forall k :: 0 <= k < |w.rounds| ==> w.rounds[k].id in w.rows && HolderOk(cfg, w, k)
  }

  predicate FreshOk(w: World) {
    forall id :: id in w.rows && w.rows[id].attempts == 0 ==> w.rows[id].status == Pending
  }

  /** A row is claimed again only after its round closed it, or when that round's lease was over. */
  predicate LeasesRespected(w: World) {
    forall i, j :: 0 <= i < j < |w.rounds| && SameRow(w, i, j) ==>
      Applied(w.rounds[i]) || w.rounds[j].claimedAt >= w.rounds[i].leaseUntil
  }

  ghost predicate Inv(cfg: Config, w: World) {
    && TableOk(w.rows)
    && (forall k :: 0 <= k < |w.rounds| ==> RoundOk(cfg, w, k))
    && TokensRise(w) && TokensUsed(w) && HoldersOk(cfg, w) && FreshOk(w) && LeasesRespected(w)
  }

  lemma ClaimUses(cfg: Config, w: World, id: Id)
    requires TokensUsed(w) && id in w.rows
    ensures TokensUsed(ClaimAt(cfg, w, id))
  {
    var w' := ClaimAt(cfg, w, id);
    var n := |w.rounds|;
    forall d, t | d in w'.rows && 1 <= t <= w'.rows[d].attempts
      ensures Handed(w', d, t)
    {
      if d == id && t == w.rows[id].attempts + 1 {
        assert w'.rounds[n].id == d && w'.rounds[n].token == t;
      } else {
        assert Handed(w, d, t);
        var k :| 0 <= k < n && w.rounds[k].id == d && w.rounds[k].token == t;
        assert w'.rounds[k].id == d && w'.rounds[k].token == t;
      }
    }
  }

  lemma InvClaim(cfg: Config, w: World, id: Id)
    requires Inv(cfg, w) && id in w.rows && Due(w.rows[id], w.clock)
    ensures Inv(cfg, ClaimAt(cfg, w, id))
  {
    var w' := ClaimAt(cfg, w, id);
    var n := |w.rounds|;
    ClaimUses(cfg, w, id);
    forall i, j | 0 <= i < j < |w'.rounds| && SameRow(w', i, j)
      ensures w'.rounds[i].token < w'.rounds[j].token
      ensures Applied(w'.rounds[i]) || w'.rounds[j].claimedAt >= w'.rounds[i].leaseUntil
    {
      assert RoundOk(cfg, w, i);
      if j < n { assert SameRow(w, i, j); } else { LeaseOver(cfg, w, i); }
    }
    forall k | 0 <= k < |w'.rounds|
      ensures RoundOk(cfg, w', k) && HolderOk(cfg, w', k)
    {
      if k < n { assert RoundOk(cfg, w, k) && HolderOk(cfg, w, k); }
    }
  }

  /** If a row is due, each of its rounds has either closed it or run out of lease. */
  lemma LeaseOver(cfg: Config, w: World, i: nat)
    requires Inv(cfg, w) && i < |w.rounds| && Due(w.rows[w.rounds[i].id], w.clock)
    ensures Applied(w.rounds[i]) || w.clock >= w.rounds[i].leaseUntil
  {
    var r := w.rounds[i];
    var row := w.rows[r.id];
    assert RoundOk(cfg, w, i) && HolderOk(cfg, w, i);
    if r.token < row.attempts {
      assert Handed(w, r.id, row.attempts);
      var j :| 0 <= j < |w.rounds| && w.rounds[j].id == r.id && w.rounds[j].token == row.attempts;
      assert RoundOk(cfg, w, j);
      if j < i { assert SameRow(w, j, i); } else { assert SameRow(w, i, j); }
    }
  }

  /** A finish leaves every round's row explained, whether or not it matched. */
  lemma FinishRounds(cfg: Config, w: World, k: nat, i: nat)
    requires Inv(cfg, w) && k < |w.rounds| && w.rounds[k].phase.Answered? && i < |w.rounds|
    requires w.rounds[k].id in w.rows
    ensures RoundOk(cfg, FinishAt(cfg, w, k), i) && HolderOk(cfg, FinishAt(cfg, w, k), i)
  {
    assert RoundOk(cfg, w, i) && HolderOk(cfg, w, i) && RoundOk(cfg, w, k) && HolderOk(cfg, w, k);
    if i < k && SameRow(w, i, k) {
      assert w.rounds[i].token < w.rounds[k].token;
    } else if k < i && SameRow(w, k, i) {
      assert w.rounds[k].token < w.rounds[i].token;
    }
  }

  lemma InvFinish(cfg: Config, w: World, k: nat)
    requires Inv(cfg, w) && k < |w.rounds| && w.rounds[k].phase.Answered? && w.rounds[k].id in w.rows
    ensures Inv(cfg, FinishAt(cfg, w, k))
  {
    var w' := FinishAt(cfg, w, k);
    forall i | 0 <= i < |w'.rounds|
      ensures RoundOk(cfg, w', i) && HolderOk(cfg, w', i)
    {
      FinishRounds(cfg, w, k, i);
    }
    FinishTable(cfg, w, k);
    Framed(w, w');
  }

  lemma FinishTable(cfg: Config, w: World, k: nat)
    requires TableOk(w.rows) && k < |w.rounds| && w.rounds[k].phase.Answered? && w.rounds[k].id in w.rows
    ensures TableOk(FinishAt(cfg, w, k).rows)
  {
    var rows := FinishAt(cfg, w, k).rows;
    assert forall id :: id in rows ==> rows[id].dedupeKey == w.rows[id].dedupeKey;
  }

  /** A step that neither claims nor un-applies keeps the three statements about pairs of rounds. */
  lemma Framed(w: World, w': World)
    requires TokensRise(w) && TokensUsed(w) && LeasesRespected(w)
    requires |w'.rounds| == |w.rounds|
    requires forall i :: 0 <= i < |w.rounds| ==>
               w'.rounds[i] == w.rounds[i].(phase := w'.rounds[i].phase, sent := w'.rounds[i].sent)
               && (Applied(w.rounds[i]) ==> Applied(w'.rounds[i]))
    requires forall id :: id in w'.rows && w'.rows[id].attempts > 0 ==>
               id in w.rows && w.rows[id].attempts == w'.rows[id].attempts
    ensures TokensRise(w') && TokensUsed(w') && LeasesRespected(w')
  {
    forall i, j | 0 <= i < j < |w'.rounds| && SameRow(w', i, j)
      ensures w'.rounds[i].token < w'.rounds[j].token
      ensures Applied(w'.rounds[i]) || w'.rounds[j].claimedAt >= w'.rounds[i].leaseUntil
    {
      assert SameRow(w, i, j);
    }
    forall id, t | id in w'.rows && 1 <= t <= w'.rows[id].attempts
      ensures Handed(w', id, t)
    {
      assert Handed(w, id, t);
      var k :| 0 <= k < |w.rounds| && w.rounds[k].id == id && w.rounds[k].token == t;
      assert w'.rounds[k].id == id && w'.rounds[k].token == t;
    }
  }

  /** Steps inside one round that do not touch the table. */
  lemma InvEnter(cfg: Config, w: World, k: nat, r: Round)
    requires Inv(cfg, w) && k < |w.rounds| && Running(w.rounds[k]) && !r.phase.Finished?
    requires r == w.rounds[k].(phase := r.phase, sent := r.sent) && (w.rounds[k].sent ==> r.sent)
    requires r.phase.InFlight? || (r.phase.Answered? && r.phase.delivery.Delivered?) ==> r.sent
    ensures Inv(cfg, w.(rounds := w.rounds[k := r]))
  {
    var w' := w.(rounds := w.rounds[k := r]);
    forall i | 0 <= i < |w'.rounds|
      ensures RoundOk(cfg, w', i) && HolderOk(cfg, w', i)
    {
      assert RoundOk(cfg, w, i) && HolderOk(cfg, w, i);
    }
    Framed(w, w');
  }

  lemma InvEnqueue(cfg: Config, w: World, id: Id, mail: Mail)
    requires Inv(cfg, w)
    ensures Inv(cfg, Apply(cfg, w, DoEnqueue(id, mail)))
  {
    var w' := Apply(cfg, w, DoEnqueue(id, mail));
    EnqueueOncePerKey(w.rows, id, mail, w.clock);
    forall i | 0 <= i < |w'.rounds|
      ensures RoundOk(cfg, w', i) && HolderOk(cfg, w', i)
    {
      assert RoundOk(cfg, w, i) && HolderOk(cfg, w, i);
    }
    Framed(w, w');
  }

  lemma InvStep(cfg: Config, w: World, s: Step)
    requires Inv(cfg, w)
    ensures Inv(cfg, Apply(cfg, w, s))
  {
    var w' := Apply(cfg, w, s);
    match s {
      case DoEnqueue(id, mail) => InvEnqueue(cfg, w, id, mail);
      case DoClaim(locked) =>
        var free := DueIds(w.rows, w.clock) - locked;
        if free != {} { InvClaim(cfg, w, First(w.rows, free)); }
      case DoFinish(k) => if w' != w { InvFinish(cfg, w, k); }
      case DoTick(to) => InvTick(cfg, w, to);
      case _ =>
        if w' != w {
          assert RoundOk(cfg, w, s.k);
          InvEnter(cfg, w, s.k, w'.rounds[s.k]);
          assert w' == w.(rounds := w.rounds[s.k := w'.rounds[s.k]]);
        }
    }
  }

  lemma InvTick(cfg: Config, w: World, to: int)
    requires Inv(cfg, w)
    ensures Inv(cfg, Apply(cfg, w, DoTick(to)))
  {
    var w' := Apply(cfg, w, DoTick(to));
    assert forall k :: 0 <= k < |w.rounds| ==> RoundOk(cfg, w, k) ==> RoundOk(cfg, w', k);
    assert forall k :: 0 <= k < |w.rounds| ==>
        w.rounds[k].id in w.rows && (HolderOk(cfg, w, k) ==> HolderOk(cfg, w', k));
    Framed(w, w');
  }

  lemma {:induction false} InvRun(cfg: Config, clock: int, steps: seq<Step>)
    ensures Inv(cfg, Run(cfg, Start(clock), steps))
    decreases |steps|
  {
    if steps != [] {
      InvRun(cfg, clock, Init(steps));
      InvStep(cfg, Run(cfg, Start(clock), Init(steps)), Last(steps));
    }
  }

  // ---- what every run keeps ----

  /** Fencing: no value of the attempts column is ever handed to two claims, and none is skipped. */
  lemma FencingTokens(cfg: Config, clock: int, steps: seq<Step>, id: Id, t: nat)
    ensures var w := Run(cfg, Start(clock), steps);
            && (forall i, j | 0 <= i < j < |w.rounds| && w.rounds[i].id == w.rounds[j].id == id ::
                  !(w.rounds[i].token == w.rounds[j].token == t))
            && (Handed(w, id, t) <==> id in w.rows && 1 <= t <= w.rows[id].attempts)
  {
    var w := Run(cfg, Start(clock), steps);
    InvRun(cfg, clock, steps);
    forall i, j | 0 <= i < j < |w.rounds| && w.rounds[i].id == w.rounds[j].id
      ensures w.rounds[i].token != w.rounds[j].token
    {
      assert SameRow(w, i, j);
    }
    if Handed(w, id, t) {
      var k :| 0 <= k < |w.rounds| && w.rounds[k].id == id && w.rounds[k].token == t;
      assert RoundOk(cfg, w, k);
    }
  }

  /** The finish of a superseded claim changes no row; an unsuperseded first finish always does. */
  lemma FinishAppliesIffLatest(cfg: Config, clock: int, steps: seq<Step>, k: nat)
    requires var w := Run(cfg, Start(clock), steps); k < |w.rounds| && w.rounds[k].phase.Answered?
    ensures var w := Run(cfg, Start(clock), steps);
            var w' := Apply(cfg, w, DoFinish(k));
            (w'.rows == w.rows <==> exists j :: k < j < |w.rounds| && SameRow(w, k, j))
  {
    var w := Run(cfg, Start(clock), steps);
    InvRun(cfg, clock, steps);
    var r := w.rounds[k];
    assert RoundOk(cfg, w, k) && HolderOk(cfg, w, k);
    var row := w.rows[r.id];
    if j :| k < j < |w.rounds| && SameRow(w, k, j) {
      assert RoundOk(cfg, w, j);
      assert w.rounds[k].token < w.rounds[j].token;
      assert w.rows[r.id := row] == w.rows;
    } else {
      forall j | k < j < |w.rounds|
        ensures w.rounds[j].id != r.id
      {
        assert !SameRow(w, k, j);
      }
      LatestHolds(cfg, w, k);
      assert Apply(cfg, w, DoFinish(k)).rows[r.id].status != Sending;
    }
  }

  lemma LatestHolds(cfg: Config, w: World, k: nat)
    requires Inv(cfg, w) && k < |w.rounds|
    requires forall j :: k < j < |w.rounds| ==> w.rounds[j].id != w.rounds[k].id
    ensures w.rounds[k].token == w.rows[w.rounds[k].id].attempts
  {
    var r := w.rounds[k];
    assert RoundOk(cfg, w, k);
    assert Handed(w, r.id, w.rows[r.id].attempts);
    var j :| 0 <= j < |w.rounds| && w.rounds[j].id == r.id && w.rounds[j].token == w.rows[r.id].attempts;
    assert j < k ==> SameRow(w, j, k);
  }

  /**
    If a round is still running, in particular sending, when a later claim of its row exists, its
    lease had run out when that claim was made.
  */
  lemma OverlapOnlyAfterLease(cfg: Config, clock: int, steps: seq<Step>, i: nat, j: nat)
    requires var w := Run(cfg, Start(clock), steps);
             i < j < |w.rounds| && SameRow(w, i, j) && Running(w.rounds[i])
    ensures var w := Run(cfg, Start(clock), steps);
            w.rounds[j].claimedAt >= w.rounds[i].claimedAt + cfg.leaseMs
  {
    InvRun(cfg, clock, steps);
    var w := Run(cfg, Start(clock), steps);
    assert RoundOk(cfg, w, i);
  }

  /** A round that closed its row and was followed by another claim of it had asked for a retry. */
  predicate RetriesOnly(cfg: Config, w: World) {
    forall i, j :: 0 <= i < j < |w.rounds| && SameRow(w, i, j) && Applied(w.rounds[i]) ==>
      Verdict(cfg, w.rounds[i].token, w.rounds[i].phase.delivery) == RETRY
  }

  lemma RetriesClaim(cfg: Config, w: World, id: Id)
    requires Inv(cfg, w) && RetriesOnly(cfg, w) && id in w.rows && Due(w.rows[id], w.clock)
    ensures RetriesOnly(cfg, ClaimAt(cfg, w, id))
  {
    var w', n := ClaimAt(cfg, w, id), |w.rounds|;
    forall i, j | 0 <= i < j < |w'.rounds| && SameRow(w', i, j) && Applied(w'.rounds[i])
      ensures Verdict(cfg, w'.rounds[i].token, w'.rounds[i].phase.delivery) == RETRY
    {
      if j < n { assert SameRow(w, i, j); } else { RetriedOrFollowed(cfg, w, i); }
    }
  }

  /** The latest round of a due row either is unfinished or asked for a retry. */
  lemma RetriedOrFollowed(cfg: Config, w: World, i: nat)
    requires Inv(cfg, w) && RetriesOnly(cfg, w) && i < |w.rounds| && Applied(w.rounds[i])
    requires w.rounds[i].id in w.rows && Due(w.rows[w.rounds[i].id], w.clock)
    ensures Verdict(cfg, w.rounds[i].token, w.rounds[i].phase.delivery) == RETRY
  {
    assert RoundOk(cfg, w, i) && HolderOk(cfg, w, i);
    var j := LatestRound(cfg, w, i);
    assert i < j ==> SameRow(w, i, j);
  }

  /** The round that holds a row's present attempts. */
  lemma LatestRound(cfg: Config, w: World, i: nat) returns (j: nat)
    requires Inv(cfg, w) && i < |w.rounds|
    ensures i <= j < |w.rounds| && w.rounds[j].id == w.rounds[i].id && w.rounds[j].id in w.rows
    ensures w.rounds[j].token == w.rows[w.rounds[j].id].attempts
  {
    var id := w.rounds[i].id;
    assert RoundOk(cfg, w, i);
    assert Handed(w, id, w.rows[id].attempts);
    j :| 0 <= j < |w.rounds| && w.rounds[j].id == id && w.rounds[j].token == w.rows[id].attempts;
    assert j < i ==> SameRow(w, j, i);
  }

  lemma RetriesStep(cfg: Config, w: World, s: Step)
    requires Inv(cfg, w) && RetriesOnly(cfg, w)
    ensures RetriesOnly(cfg, Apply(cfg, w, s))
  {
    var w' := Apply(cfg, w, s);
    if s.DoClaim? {
      var free := DueIds(w.rows, w.clock) - s.locked;
      if free != {} { RetriesClaim(cfg, w, First(w.rows, free)); }
    } else if s.DoFinish? {
      if w' != w { RetriesFinish(cfg, w, s.k); }
    } else {
      forall i, j | 0 <= i < j < |w'.rounds| && SameRow(w', i, j) && Applied(w'.rounds[i])
        ensures Verdict(cfg, w'.rounds[i].token, w'.rounds[i].phase.delivery) == RETRY
      {
        assert SameRow(w, i, j);
      }
    }
  }

  lemma RetriesFinish(cfg: Config, w: World, k: nat)
    requires Inv(cfg, w) && RetriesOnly(cfg, w)
    requires k < |w.rounds| && w.rounds[k].phase.Answered? && w.rounds[k].id in w.rows
    ensures RetriesOnly(cfg, FinishAt(cfg, w, k))
  {
    var w' := FinishAt(cfg, w, k);
    forall i, j | 0 <= i < j < |w'.rounds| && SameRow(w', i, j) && Applied(w'.rounds[i])
      ensures Verdict(cfg, w'.rounds[i].token, w'.rounds[i].phase.delivery) == RETRY
    {
      assert SameRow(w, i, j) && RoundOk(cfg, w, j);
    }
  }

  lemma {:induction false} RetriesRun(cfg: Config, clock: int, steps: seq<Step>)
    ensures RetriesOnly(cfg, Run(cfg, Start(clock), steps))
    decreases |steps|
  {
    if steps != [] {
      RetriesRun(cfg, clock, Init(steps));
      InvRun(cfg, clock, Init(steps));
      RetriesStep(cfg, Run(cfg, Start(clock), Init(steps)), Last(steps));
    }
  }

  /** SMTP may have accepted the round's e-mail: it was sent, and no failure came back. */
  predicate MayBeAccepted(r: Round) {
    && r.sent
    && (r.phase.Answered? ==> r.phase.delivery.Delivered?)
    && (r.phase.Finished? ==> r.phase.delivery.Delivered?)
  }

  /**
    One e-mail may be accepted twice only if the earlier round had lost its lease: a row is claimed again
    after a round that may have been accepted only when that round's lease was over.
  */
  lemma AcceptedAgainOnlyAfterLease(cfg: Config, clock: int, steps: seq<Step>, i: nat, j: nat)
    requires var w := Run(cfg, Start(clock), steps);
             i < j < |w.rounds| && SameRow(w, i, j) && MayBeAccepted(w.rounds[i])
    ensures var w := Run(cfg, Start(clock), steps);
            w.rounds[j].claimedAt >= w.rounds[i].claimedAt + cfg.leaseMs && !Applied(w.rounds[i])
  {
    InvRun(cfg, clock, steps);
    RetriesRun(cfg, clock, steps);
    var w := Run(cfg, Start(clock), steps);
    assert RoundOk(cfg, w, i);
  }

  /** The latest round of a row, as long as it has not closed it, keeps it from others exactly for its lease. */
  lemma HeldForTheLease(cfg: Config, clock: int, steps: seq<Step>, k: nat)
    requires var w := Run(cfg, Start(clock), steps);
             && k < |w.rounds| && !Applied(w.rounds[k])
             && forall j :: k < j < |w.rounds| ==> w.rounds[j].id != w.rounds[k].id
    ensures var w := Run(cfg, Start(clock), steps);
            w.rounds[k].id in w.rows && (Due(w.rows[w.rounds[k].id], w.clock) <==> w.clock >= w.rounds[k].leaseUntil)
  {
    var w := Run(cfg, Start(clock), steps);
    InvRun(cfg, clock, steps);
    LatestHolds(cfg, w, k);
    assert RoundOk(cfg, w, k) && HolderOk(cfg, w, k);
  }

  /** SENT is never written without an SMTP call that was accepted in the same round. */
  lemma SentMeansDelivered(cfg: Config, clock: int, steps: seq<Step>, id: Id)
    requires var w := Run(cfg, Start(clock), steps); id in w.rows && w.rows[id].status == Sent
    ensures var w := Run(cfg, Start(clock), steps);
            exists k :: 0 <= k < |w.rounds| && w.rounds[k].id == id && w.rounds[k].token == w.rows[id].attempts
                        && w.rounds[k].sent && w.rounds[k].phase == Finished(Delivered, true)
  {
    var w := Run(cfg, Start(clock), steps);
    InvRun(cfg, clock, steps);
    assert Handed(w, id, w.rows[id].attempts);
    var k :| 0 <= k < |w.rounds| && w.rounds[k].id == id && w.rounds[k].token == w.rows[id].attempts;
    assert RoundOk(cfg, w, k) && HolderOk(cfg, w, k);
  }

  /**
    What dispatching may do to a row: nothing once it is terminal; before, recipient and variables stay
    or are cleared.
  */
  predicate RowEvolves(r: Row, r': Row) {
    && (!Open(r) ==> r' == r)
    && r'.template == r.template && r'.locale == r.locale && r'.dedupeKey == r.dedupeKey && r'.createdAt == r.createdAt
    && r'.attempts >= r.attempts
    && (Open(r') ==> r'.recipient == r.recipient && r'.variables == r.variables)
  }

  predicate TableEvolves(t: Table, t': Table) {
    forall id :: id in t ==> id in t' && RowEvolves(t[id], t'[id])
  }

  lemma StepEvolves(cfg: Config, w: World, s: Step)
    ensures TableEvolves(w.rows, Apply(cfg, w, s).rows)
    ensures !s.DoEnqueue? ==> Apply(cfg, w, s).rows.Keys == w.rows.Keys
  {
  }

  /** SENT and DEAD are absorbing and no row is ever lost, along every continuation of every run. */
  lemma {:induction false} RunEvolves(cfg: Config, w: World, steps: seq<Step>)
    ensures TableEvolves(w.rows, Run(cfg, w, steps).rows)
    decreases |steps|
  {
    if steps != [] {
      var mid := Run(cfg, w, Init(steps));
      RunEvolves(cfg, w, Init(steps));
      StepEvolves(cfg, mid, Last(steps));
      assert forall id :: id in w.rows ==> id in mid.rows;
    }
  }

  /** The moment from which an open row is claimable. */
  function DueTime(r: Row): int
    requires RowOk(r) && Open(r)
  {
    if r.status == Pending then r.availableAt else r.leaseExpiresAt.value
  }

  lemma {:induction false} RunConcat(cfg: Config, w: World, a: seq<Step>, b: seq<Step>)
    ensures Run(cfg, w, a + b) == Run(cfg, Run(cfg, w, a), b)
    decreases |b|
  {
    if b == [] {
      assert a + b == a;
    } else {
      assert Init(a + b) == a + Init(b);
      RunConcat(cfg, w, a, Init(b));
    }
  }

  /** The steps of one undisturbed round: wait, claim past all other rows, send, finish. */
  function Deliver(w: World, id: Id): seq<Step>
    requires TableOk(w.rows) && id in w.rows && Open(w.rows[id])
  {
    [DoTick(Max(w.clock, DueTime(w.rows[id]))), DoClaim(w.rows.Keys - {id}), DoSend(|w.rounds|),
     DoAnswer(|w.rounds|, Delivered), DoFinish(|w.rounds|)]
  }

  /** No lost jobs: after any run, crashes included, every open row can still be delivered. */
  lemma OpenRowsCanBeDelivered(cfg: Config, clock: int, steps: seq<Step>, id: Id)
    requires var w := Run(cfg, Start(clock), steps); id in w.rows && Open(w.rows[id])
    ensures var w := Run(cfg, Start(clock), steps);
            TableOk(w.rows) && var w' := Run(cfg, Start(clock), steps + Deliver(w, id));
            id in w'.rows && w'.rows[id].status == Sent
  {
    var w := Run(cfg, Start(clock), steps);
    InvRun(cfg, clock, steps);
    RunConcat(cfg, Start(clock), steps, Deliver(w, id));
    DeliverSends(cfg, w, id);
  }

  lemma DeliverSends(cfg: Config, w: World, id: Id)
    requires TableOk(w.rows) && id in w.rows && Open(w.rows[id])
    ensures var w' := Run(cfg, w, Deliver(w, id)); id in w'.rows && w'.rows[id].status == Sent
  {
    var d := Deliver(w, id);
    var w1 := Apply(cfg, w, d[0]);
    ClaimsPastOthers(cfg, w1, id);
    assert Apply(cfg, w1, d[1]) == ClaimAt(cfg, w1, id);
    SendsClaimed(cfg, ClaimAt(cfg, w1, id), |w.rounds|);
    RunFive(cfg, w, d);
  }

  lemma ClaimsPastOthers(cfg: Config, w: World, id: Id)
    requires id in w.rows && Due(w.rows[id], w.clock)
    ensures Apply(cfg, w, DoClaim(w.rows.Keys - {id})) == ClaimAt(cfg, w, id)
  {
    var free := DueIds(w.rows, w.clock) - (w.rows.Keys - {id});
    assert free == {id};
    assert First(w.rows, free) in free;
  }

  lemma SendsClaimed(cfg: Config, w: World, k: nat)
    requires k < |w.rounds| && w.rounds[k].phase.Claimed? && w.rounds[k].id in w.rows
    requires var row := w.rows[w.rounds[k].id]; row.status == Sending && row.attempts == w.rounds[k].token
    ensures var w' := Apply(cfg, Apply(cfg, Apply(cfg, w, DoSend(k)), DoAnswer(k, Delivered)), DoFinish(k));
            w.rounds[k].id in w'.rows && w'.rows[w.rounds[k].id].status == Sent
  {
  }

  lemma RunMore(cfg: Config, w: World, steps: seq<Step>, s: Step)
    ensures Run(cfg, w, steps + [s]) == Apply(cfg, Run(cfg, w, steps), s)
  {
    assert Init(steps + [s]) == steps;
  }

  lemma RunFour(cfg: Config, w: World, a: Step, b: Step, c: Step, d: Step)
    ensures Run(cfg, w, [a, b, c, d]) == Apply(cfg, Apply(cfg, Apply(cfg, Apply(cfg, w, a), b), c), d)
  {
    RunMore(cfg, w, [], a);
    RunMore(cfg, w, [a], b);
    RunMore(cfg, w, [a, b], c);
    RunMore(cfg, w, [a, b, c], d);
    assert [] + [a] == [a] && [a] + [b] == [a, b] && [a, b] + [c] == [a, b, c] && [a, b, c] + [d] == [a, b, c, d];
  }

  lemma RunFive(cfg: Config, w: World, d: seq<Step>)
    requires |d| == 5
    ensures Run(cfg, w, d)
            == Apply(cfg, Apply(cfg, Apply(cfg, Apply(cfg, Apply(cfg, w, d[0]), d[1]), d[2]), d[3]), d[4])
  {
    RunFour(cfg, w, d[0], d[1], d[2], d[3]);
    RunMore(cfg, w, [d[0], d[1], d[2], d[3]], d[4]);
    assert d == [d[0], d[1], d[2], d[3]] + [d[4]];
  }

  /** `n` claims in a row, by any dispatchers, with no row locked by anyone else. */
  function Claims(n: nat): (steps: seq<Step>)
    ensures |steps| == n && forall i :: 0 <= i < n ==> steps[i] == DoClaim({})
  {
    if n == 0 then [] else [DoClaim({})] + Claims(n - 1)
  }

  /** The last round is a fresh claim of the row. */
  predicate JustClaimed(w: World, id: Id) {
    && w.rounds != [] && var r := Last(w.rounds);
    && r.id == id && r.phase.Claimed?
    && id in w.rows && w.rows[id].status == Sending && w.rows[id].attempts == r.token
  }

  /** A claim takes its row out of the due set for as long as the lease lasts. */
  lemma ClaimLeavesDue(cfg: Config, w: World)
    requires cfg.leaseMs > 0 && DueIds(w.rows, w.clock) != {}
    ensures var first := First(w.rows, DueIds(w.rows, w.clock));
            && Apply(cfg, w, DoClaim({})) == ClaimAt(cfg, w, first)
            && DueIds(ClaimAt(cfg, w, first).rows, w.clock) == DueIds(w.rows, w.clock) - {first}
  {
    assert DueIds(w.rows, w.clock) - {} == DueIds(w.rows, w.clock);
  }

  /** Every due row is claimed after at most as many claims as there are due rows. */
  lemma {:induction false} ClaimsReach(cfg: Config, w: World, id: Id) returns (n: nat)
    requires cfg.leaseMs > 0 && id in w.rows && Due(w.rows[id], w.clock)
    ensures 1 <= n <= |DueIds(w.rows, w.clock)|
    ensures var w' := Run(cfg, w, Claims(n));
            JustClaimed(w', id) && |w'.rounds| == |w.rounds| + n && w'.clock == w.clock
    decreases |DueIds(w.rows, w.clock)|
  {
    var due := DueIds(w.rows, w.clock);
    assert id in due;
    var first := First(w.rows, due);
    ClaimLeavesDue(cfg, w);
    var next := ClaimAt(cfg, w, first);
    if first == id {
      n := 1;
      OneClaim(cfg, w);
    } else {
      var m := ClaimsReach(cfg, next, id);
      n := m + 1;
      OneClaim(cfg, w);
      RunConcat(cfg, w, Claims(1), Claims(m));
      assert Claims(n) == Claims(1) + Claims(m);
    }
  }

  lemma OneClaim(cfg: Config, w: World)
    ensures Run(cfg, w, Claims(1)) == Apply(cfg, w, DoClaim({}))
  {
    assert Init(Claims(1)) == [] && Run(cfg, w, []) == w;
  }

  /** The steps up to a delivery after `n` claims. */
  function DeliverAfter(w: World, id: Id, n: nat): seq<Step>
    requires TableOk(w.rows) && id in w.rows && Open(w.rows[id]) && n >= 1
  {
    var k := |w.rounds| + n - 1;
    [DoTick(Max(w.clock, DueTime(w.rows[id])))] + Claims(n) + [DoSend(k), DoAnswer(k, Delivered), DoFinish(k)]
  }

  /**
    No lock helps it: after any run, once an open row is due and as many claims as there are due rows
    have been made, one of them has taken it, and its round can deliver it.
  */
  lemma OpenRowsAreReached(cfg: Config, clock: int, steps: seq<Step>, id: Id) returns (n: nat)
    requires cfg.leaseMs > 0
    requires var w := Run(cfg, Start(clock), steps); id in w.rows && Open(w.rows[id])
    ensures var w := Run(cfg, Start(clock), steps);
            && TableOk(w.rows) && 1 <= n <= |DueIds(w.rows, Max(w.clock, DueTime(w.rows[id])))|
            && var w' := Run(cfg, w, DeliverAfter(w, id, n));
            id in w'.rows && w'.rows[id].status == Sent
  {
    InvRun(cfg, clock, steps);
    n := DueRowsAreReached(cfg, Run(cfg, Start(clock), steps), id);
  }

  lemma DueRowsAreReached(cfg: Config, w: World, id: Id) returns (n: nat)
    requires cfg.leaseMs > 0 && TableOk(w.rows) && id in w.rows && Open(w.rows[id])
    ensures 1 <= n <= |DueIds(w.rows, Max(w.clock, DueTime(w.rows[id])))|
    ensures var w' := Run(cfg, w, DeliverAfter(w, id, n)); id in w'.rows && w'.rows[id].status == Sent
  {
    var tick := DoTick(Max(w.clock, DueTime(w.rows[id])));
    var w1 := Apply(cfg, w, tick);
    n := ClaimsReach(cfg, w1, id);
    var k := |w.rounds| + n - 1;
    var w2 := Run(cfg, w1, Claims(n));
    assert Last(w2.rounds) == w2.rounds[k];
    SendsClaimed(cfg, w2, k);
    RunParts(cfg, w, tick, Claims(n), DoSend(k), DoAnswer(k, Delivered), DoFinish(k));
  }

  lemma RunParts(cfg: Config, w: World, first: Step, mid: seq<Step>, a: Step, b: Step, c: Step)
    ensures Run(cfg, w, [first] + mid + [a, b, c])
            == Apply(cfg, Apply(cfg, Apply(cfg, Run(cfg, Apply(cfg, w, first), mid), a), b), c)
  {
    RunConcat(cfg, w, [first], mid);
    RunMore(cfg, w, [], first);
    assert [] + [first] == [first];
    RunMore(cfg, w, [first] + mid, a);
    RunMore(cfg, w, [first] + mid + [a], b);
    RunMore(cfg, w, [first] + mid + [a] + [b], c);
    assert [first] + mid + [a, b, c] == [first] + mid + [a] + [b] + [c];
  }

  // ---- attempts ----

  /** How often a row was claimed while still SENDING. */
  function Takeovers(rounds: seq<Round>, id: Id): nat {
    if rounds == [] then 0
    else Takeovers(Init(rounds), id) + (if Last(rounds).id == id && Last(rounds).takeover then 1 else 0)
  }

  lemma {:induction false} TakeoversKept(a: seq<Round>, b: seq<Round>, id: Id)
    requires |a| == |b| && forall i :: 0 <= i < |a| ==> a[i].id == b[i].id && a[i].takeover == b[i].takeover
    ensures Takeovers(a, id) == Takeovers(b, id)
  {
    if a != [] { TakeoversKept(Init(a), Init(b), id); }
  }

  predicate AttemptsBounded(cfg: Config, w: World) {
    forall id :: id in w.rows ==>
      && (w.rows[id].status == Pending ==> w.rows[id].attempts < cfg.maxAttempts)
      && w.rows[id].attempts <= cfg.maxAttempts + Takeovers(w.rounds, id)
  }

  lemma BoundStep(cfg: Config, w: World, s: Step)
    requires cfg.maxAttempts > 0 && Inv(cfg, w) && AttemptsBounded(cfg, w)
    ensures AttemptsBounded(cfg, Apply(cfg, w, s))
  {
    var w' := Apply(cfg, w, s);
    if s.DoClaim? {
      var free := DueIds(w.rows, w.clock) - s.locked;
      if free != {} { BoundClaim(cfg, w, First(w.rows, free)); }
    } else if s.DoFinish? {
      if w' != w { BoundFinish(cfg, w, s.k); }
    } else {
      BoundOther(cfg, w, s);
    }
  }

  lemma BoundOther(cfg: Config, w: World, s: Step)
    requires cfg.maxAttempts > 0 && AttemptsBounded(cfg, w) && !s.DoClaim? && !s.DoFinish?
    ensures AttemptsBounded(cfg, Apply(cfg, w, s))
  {
    var w' := Apply(cfg, w, s);
    forall id | id in w'.rows
      ensures w'.rows[id].status == Pending ==> w'.rows[id].attempts < cfg.maxAttempts
      ensures w'.rows[id].attempts <= cfg.maxAttempts + Takeovers(w'.rounds, id)
    {
      TakeoversKept(w.rounds, w'.rounds, id);
    }
  }

  lemma BoundClaim(cfg: Config, w: World, id: Id)
    requires AttemptsBounded(cfg, w) && id in w.rows && Due(w.rows[id], w.clock)
    ensures AttemptsBounded(cfg, ClaimAt(cfg, w, id))
  {
    assert Init(ClaimAt(cfg, w, id).rounds) == w.rounds;
  }

  lemma BoundFinish(cfg: Config, w: World, k: nat)
    requires AttemptsBounded(cfg, w) && k < |w.rounds| && w.rounds[k].phase.Answered? && w.rounds[k].id in w.rows
    ensures AttemptsBounded(cfg, FinishAt(cfg, w, k))
  {
    var w' := FinishAt(cfg, w, k);
    forall id | id in w'.rows
      ensures w'.rows[id].status == Pending ==> w'.rows[id].attempts < cfg.maxAttempts
      ensures w'.rows[id].attempts <= cfg.maxAttempts + Takeovers(w'.rounds, id)
    {
      TakeoversKept(w.rounds, w'.rounds, id);
    }
  }

  /**
    A PENDING row always has attempts to spare. The claim query does not test `maxAttempts`: what
    bounds the column is maxAttempts plus the number of takeovers of an expired lease.
  */
  lemma {:induction false} AttemptsBoundedRun(cfg: Config, clock: int, steps: seq<Step>)
    requires cfg.maxAttempts > 0
    ensures AttemptsBounded(cfg, Run(cfg, Start(clock), steps))
    decreases |steps|
  {
    if steps != [] {
      AttemptsBoundedRun(cfg, clock, Init(steps));
      InvRun(cfg, clock, Init(steps));
      BoundStep(cfg, Run(cfg, Start(clock), Init(steps)), Last(steps));
    }
  }

  /**
    The claim that hands out a value above maxAttempts is the takeover of a row whose attempts are used
    up: SENDING with attempts at the limit or above, which is the test the claim query lacks.
  */
  lemma ClaimPassesIff(cfg: Config, clock: int, steps: seq<Step>, id: Id)
    requires cfg.maxAttempts > 0
    requires var w := Run(cfg, Start(clock), steps); id in w.rows && Due(w.rows[id], w.clock)
    ensures var w := Run(cfg, Start(clock), steps);
            ClaimAt(cfg, w, id).rows[id].attempts > cfg.maxAttempts <==>
            w.rows[id].status == Sending && w.rows[id].attempts >= cfg.maxAttempts
  {
    AttemptsBoundedRun(cfg, clock, steps);
  }

  /** A claim of a PENDING row never hands out more than maxAttempts. */
  predicate FirstsWithin(cfg: Config, rounds: seq<Round>) {
    forall k :: 0 <= k < |rounds| && !rounds[k].takeover ==> rounds[k].token <= cfg.maxAttempts
  }

  lemma {:induction false} FirstsWithinRun(cfg: Config, clock: int, steps: seq<Step>)
    requires cfg.maxAttempts > 0
    ensures FirstsWithin(cfg, Run(cfg, Start(clock), steps).rounds)
    decreases |steps|
  {
    if steps != [] {
      FirstsWithinRun(cfg, clock, Init(steps));
      AttemptsBoundedRun(cfg, clock, Init(steps));
      FirstsWithinStep(cfg, Run(cfg, Start(clock), Init(steps)), Last(steps));
    }
  }

  lemma FirstsWithinStep(cfg: Config, w: World, s: Step)
    requires AttemptsBounded(cfg, w) && FirstsWithin(cfg, w.rounds)
    ensures FirstsWithin(cfg, Apply(cfg, w, s).rounds)
  {
    match s {
      case DoClaim(locked) =>
        var free := DueIds(w.rows, w.clock) - locked;
        if free != {} { assert Due(w.rows[First(w.rows, free)], w.clock); }
      case _ =>
    }
  }

  /** Over any run, a row's attempts are above maxAttempts exactly when a takeover was handed such a value. */
  lemma AttemptsPassIff(cfg: Config, clock: int, steps: seq<Step>, id: Id)
    requires cfg.maxAttempts > 0
    requires id in Run(cfg, Start(clock), steps).rows
    ensures var w := Run(cfg, Start(clock), steps);
            w.rows[id].attempts > cfg.maxAttempts <==>
            exists k :: 0 <= k < |w.rounds| && w.rounds[k].id == id
                        && w.rounds[k].takeover && w.rounds[k].token > cfg.maxAttempts
  {
    var w := Run(cfg, Start(clock), steps);
    InvRun(cfg, clock, steps);
    FirstsWithinRun(cfg, clock, steps);
    if w.rows[id].attempts > cfg.maxAttempts {
      assert Handed(w, id, w.rows[id].attempts);
    }
    if k :| 0 <= k < |w.rounds| && w.rounds[k].id == id && w.rounds[k].takeover && w.rounds[k].token > cfg.maxAttempts {
      assert RoundOk(cfg, w, k);
    }
  }

  /**
    Without a crash the column can still pass maxAttempts: a send that outlives its lease is enough.
    One allowed attempt, two claims, nobody crashed.
  */
  lemma SlowSendPassesMaxAttempts(mail: Mail)
    requires EnqueueRefusal(mail.template, mail.locale, mail.recipient, mail.variables, mail.dedupeKey) == None
    ensures var cfg := DEFAULTS.(maxAttempts := 1);
            var steps := [DoEnqueue(7, mail), DoClaim({}), DoSend(0), DoTick(cfg.leaseMs), DoClaim({})];
            && (forall s :: s in steps ==> !s.DoCrash?)
            && var w := Run(cfg, Start(0), steps);
            7 in w.rows && w.rows[7].attempts == 2 && |w.rounds| == 2 && Running(w.rounds[0])
  {
    var cfg := DEFAULTS.(maxAttempts := 1);
    var steps := [DoEnqueue(7, mail), DoClaim({}), DoSend(0), DoTick(cfg.leaseMs), DoClaim({})];
    RunFive(cfg, Start(0), steps);
    var w1 := Apply(cfg, Start(0), steps[0]);
    assert w1.rows == map[7 := NewRow(mail, 0)];
    ClaimsOnly(cfg, w1, 7);
    var w2 := ClaimAt(cfg, w1, 7);
    var w3 := Apply(cfg, w2, steps[2]);
    var w4 := Apply(cfg, w3, steps[3]);
    ClaimsOnly(cfg, w4, 7);
  }

  lemma ClaimsOnly(cfg: Config, w: World, id: Id)
    requires w.rows.Keys == {id} && Due(w.rows[id], w.clock)
    ensures Apply(cfg, w, DoClaim({})) == ClaimAt(cfg, w, id)
  {
    assert DueIds(w.rows, w.clock) - {} == {id};
    assert First(w.rows, {id}) in {id};
  }
}

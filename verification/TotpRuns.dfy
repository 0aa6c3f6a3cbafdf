/**
  Concurrent confirms and restarts of TOTP enrolments. A confirm is three separate transactions' worth
  of work: count the attempt, ask the identity server, delete the enrolment. Anything may happen in
  between.
*/
module TotpRuns {
  import opened Prelude
  import opened Strings
  import opened Totp

  datatype Phase = Counted | Answered(answer: Totp.Answer) | Done

  datatype Confirming = Confirming(user: Id, enrolment: Id, phase: Phase)

  /** `used`: ids ever given to an enrolment; `calls`: the enrolments for which createTotp was called. */
  datatype World = World(
    enrolments: Enrolments, used: set<Id>, confirms: seq<Confirming>, calls: seq<Id>, credentials: seq<Id>)

  datatype Step =
    | DoStart(user: Id, id: Id, now: int)
    | DoCount(user: Id, id: Id, now: int)
    | DoCall(k: nat, answer: Answer)
    | DoFinish(k: nat)

  /** Ids are fresh UUIDs, so a start with a used one does not happen. */
  function Apply(w: World, s: Step): World {
    match s
    case DoStart(user, id, now) =>
      if id in w.used then w else w.(enrolments := Started(w.enrolments, user, id, now), used := w.used + {id})
    case DoCount(user, id, now) =>
      var (t, answer) := Claimed(w.enrolments, user, id, now);
      w.(enrolments := t,
         confirms := if answer == Granted then w.confirms + [Confirming(user, id, Counted)] else w.confirms)
    case DoCall(k, answer) =>
      if k < |w.confirms| && w.confirms[k].phase.Counted? then
        var id := w.confirms[k].enrolment;
        w.(confirms := w.confirms[k := w.confirms[k].(phase := Answered(answer))], calls := w.calls + [id],
           credentials := if answer == Created then w.credentials + [id] else w.credentials)
      else w
    case DoFinish(k) =>
      if k < |w.confirms| && w.confirms[k].phase == Answered(Created) then
        var c := w.confirms[k];
        w.(enrolments := Finished(w.enrolments, c.user, c.enrolment), confirms := w.confirms[k := c.(phase := Done)])
      else w
  }

  function Run(w: World, steps: seq<Step>): World
    decreases |steps|
  {
    if steps == [] then w else Apply(Run(w, Init(steps)), Last(steps))
  }

  const EMPTY := World(map[], {}, [], [], [])

  function Count(ids: seq<Id>, id: Id): nat {
    if ids == [] then 0 else Count(Init(ids), id) + (if Last(ids) == id then 1 else 0)
  }

  /** How many confirms counted an attempt for an enrolment, and how many of those have not called yet. */
  function Counts(confirms: seq<Confirming>, id: Id): nat {
    if confirms == [] then 0 else Counts(Init(confirms), id) + (if Last(confirms).enrolment == id then 1 else 0)
  }

  function Waiting(confirms: seq<Confirming>, id: Id): nat {
    if confirms == [] then 0
    else
      var c := Last(confirms);
      Waiting(Init(confirms), id) + (if c.enrolment == id && c.phase.Counted? then 1 else 0)
  }

  lemma {:induction false} CountsUpdate(confirms: seq<Confirming>, k: nat, phase: Phase, id: Id)
    requires k < |confirms| && !phase.Counted?
    ensures var after := confirms[k := confirms[k].(phase := phase)];
            && Counts(after, id) == Counts(confirms, id)
            && Waiting(after, id) == Waiting(confirms, id)
                 - (if confirms[k].enrolment == id && confirms[k].phase.Counted? then 1 else 0)
  {
    var after := confirms[k := confirms[k].(phase := phase)];
    if k == |confirms| - 1 {
      assert Init(after) == Init(confirms);
    } else {
      assert Init(after) == Init(confirms)[k := confirms[k].(phase := phase)];
      CountsUpdate(Init(confirms), k, phase, id);
    }
  }

  predicate OneOpenPerUser(t: Enrolments) {
    forall a, b :: a in t && b in t && t[a].user == t[b].user ==> a == b
  }

  /** Attempts, confirms and calls of one enrolment add up, and never pass the limit. */
  predicate Tally(w: World, id: Id) {
    && Counts(w.confirms, id) <= TOTP_MAX_ATTEMPTS
    && Counts(w.confirms, id) == Count(w.calls, id) + Waiting(w.confirms, id)
    && Count(w.credentials, id) <= Count(w.calls, id)
    && (id in w.enrolments ==> id in w.used && w.enrolments[id].attempts == Counts(w.confirms, id))
    && (id !in w.used ==> Counts(w.confirms, id) == 0)
  }

  ghost predicate Inv(w: World) {
    OneOpenPerUser(w.enrolments) && forall id :: Tally(w, id)
  }

  lemma TallyStep(w: World, s: Step, id: Id)
    requires Tally(w, id)
    ensures Tally(Apply(w, s), id)
  {
    match s {
      case DoStart(_, _, _) =>
      case DoCount(user, claimed, now) => TallyCount(w, user, claimed, now, id);
      case DoCall(k, answer) => TallyCall(w, k, answer, id);
      case DoFinish(k) => if Apply(w, s) != w { CountsUpdate(w.confirms, k, Done, id); }
    }
  }

  lemma TallyCount(w: World, user: Id, claimed: Id, now: int, id: Id)
    requires Tally(w, id)
    ensures Tally(Apply(w, DoCount(user, claimed, now)), id)
  {
    var w' := Apply(w, DoCount(user, claimed, now));
    if |w'.confirms| > |w.confirms| { assert Init(w'.confirms) == w.confirms; }
  }

  lemma TallyCall(w: World, k: nat, answer: Answer, id: Id)
    requires Tally(w, id)
    ensures Tally(Apply(w, DoCall(k, answer)), id)
  {
    var w' := Apply(w, DoCall(k, answer));
    if w' != w {
      CountsUpdate(w.confirms, k, Answered(answer), id);
      assert Init(w'.calls) == w.calls;
      if answer == Created { assert Init(w'.credentials) == w.credentials; }
    }
  }

  lemma {:induction false} InvRun(steps: seq<Step>)
    ensures Inv(Run(EMPTY, steps))
    decreases |steps|
  {
    if steps != [] {
      InvRun(Init(steps));
      var w := Run(EMPTY, Init(steps));
      forall id ensures Tally(Apply(w, Last(steps)), id) {
        TallyStep(w, Last(steps), id);
      }
    }
  }

  /** However confirms and restarts interleave, the identity server is asked at most five times per enrolment. */
  lemma AtMostFiveCalls(steps: seq<Step>, id: Id)
    ensures var w := Run(EMPTY, steps);
            && Count(w.calls, id) <= 5 && Count(w.credentials, id) <= 5 && OneOpenPerUser(w.enrolments)
  {
    InvRun(steps);
    assert Tally(Run(EMPTY, steps), id);
  }

  /** The enrolment was begun by its user in one of the steps, and ends ten minutes after that. */
  ghost predicate Begun(steps: seq<Step>, id: Id, e: Enrolment) {
    && e.expiresAt == e.createdAt + 600_000
    && exists n :: 0 <= n < |steps| && steps[n] == DoStart(e.user, id, e.createdAt)
  }

  lemma {:induction false} EnrolmentsBegun(steps: seq<Step>, id: Id)
    requires id in Run(EMPTY, steps).enrolments
    ensures Begun(steps, id, Run(EMPTY, steps).enrolments[id])
    decreases |steps|
  {
    if steps != [] {
      var before, last := Run(EMPTY, Init(steps)), Last(steps);
      var e := Run(EMPTY, steps).enrolments[id];
      if id in before.enrolments && !(last.DoStart? && last.id == id && id !in before.used) {
        EnrolmentsBegun(Init(steps), id);
        var n :| 0 <= n < |steps| - 1 && Init(steps)[n]
          == DoStart(before.enrolments[id].user, id, before.enrolments[id].createdAt);
        assert steps[n] == DoStart(e.user, id, e.createdAt);
      } else {
        assert steps[|steps| - 1] == DoStart(e.user, id, e.createdAt);
      }
    }
  }

  /**
    After any run, a confirm is counted exactly if the enrolment is there, is the user's own, was begun
    less than ten minutes before, and fewer than five confirms of it have been counted.
  */
  lemma CountedIff(steps: seq<Step>, user: Id, id: Id, now: int)
    ensures var w := Run(EMPTY, steps);
            var w' := Apply(w, DoCount(user, id, now));
            var counted := id in w.enrolments && w.enrolments[id].user == user
                           && now < w.enrolments[id].createdAt + 600_000 && Counts(w.confirms, id) < 5;
            && (id in w.enrolments ==> Begun(steps, id, w.enrolments[id]))
            && w'.confirms == (if counted then w.confirms + [Confirming(user, id, Counted)] else w.confirms)
            && (w'.enrolments != w.enrolments && !counted ==> w'.enrolments == w.enrolments - {id})
  {
    InvRun(steps);
    var w := Run(EMPTY, steps);
    assert Tally(w, id);
    if id in w.enrolments { EnrolmentsBegun(steps, id); }
  }

  /** A finish deletes its own enrolment or nothing: a newer one of the same user survives a stale confirm. */
  lemma StaleFinishSpares(steps: seq<Step>, k: nat, other: Id)
    requires var w := Run(EMPTY, steps); k < |w.confirms| && other in w.enrolments && other != w.confirms[k].enrolment
    ensures var w := Run(EMPTY, steps);
            var w' := Apply(w, DoFinish(k));
            && other in w'.enrolments && w'.enrolments[other] == w.enrolments[other]
            && (w.enrolments[other].user == w.confirms[k].user ==> w'.enrolments == w.enrolments)
  {
    InvRun(steps);
    var w := Run(EMPTY, steps);
    if w.enrolments[other].user == w.confirms[k].user && w.confirms[k].enrolment in w.enrolments {
      assert w.enrolments[w.confirms[k].enrolment].user != w.confirms[k].user;
    }
  }

  /** Once an enrolment is gone no further attempt is counted for it, ever. */
  lemma {:induction false} GoneTakesNoClaims(w: World, steps: seq<Step>, id: Id)
    requires id in w.used && id !in w.enrolments
    ensures var w' := Run(w, steps);
            id in w'.used && id !in w'.enrolments && Counts(w'.confirms, id) == Counts(w.confirms, id)
    decreases |steps|
  {
    if steps != [] {
      GoneTakesNoClaims(w, Init(steps), id);
      var mid := Run(w, Init(steps));
      var end := Apply(mid, Last(steps));
      match Last(steps) {
        case DoStart(_, _, _) =>
        case DoCount(_, _, _) => if |end.confirms| > |mid.confirms| { assert Init(end.confirms) == mid.confirms; }
        case DoCall(k, answer) => if end != mid { CountsUpdate(mid.confirms, k, Answered(answer), id); }
        case DoFinish(k) => if end != mid { CountsUpdate(mid.confirms, k, Done, id); }
      }
    }
  }

  // ---- how many credentials one enrolment can yield ----

  /** Attempts that can still be counted for an enrolment from time `t` on. */
  function Remaining(w: World, id: Id, t: int): nat {
    if id in w.enrolments && t < w.enrolments[id].expiresAt && w.enrolments[id].attempts < TOTP_MAX_ATTEMPTS
    then TOTP_MAX_ATTEMPTS - w.enrolments[id].attempts else 0
  }

  /** Credentials created, confirms that have counted and not yet asked, and attempts not yet counted. */
  function Potential(w: World, id: Id, t: int): nat {
    Count(w.credentials, id) + Waiting(w.confirms, id) + Remaining(w, id, t)
  }

  predicate NotBefore(steps: seq<Step>, t: int) {
    forall k :: 0 <= k < |steps| && steps[k].DoCount? ==> steps[k].now >= t
  }

  /** No step raises it. */
  lemma PotentialStep(w: World, s: Step, id: Id, t: int)
    requires Tally(w, id) && id in w.used && (s.DoCount? ==> s.now >= t)
    ensures Potential(Apply(w, s), id, t) <= Potential(w, id, t)
  {
    var w' := Apply(w, s);
    match s {
      case DoStart(_, _, _) =>
      case DoCount(user, claimed, now) =>
        if |w'.confirms| > |w.confirms| { assert Init(w'.confirms) == w.confirms; }
      case DoCall(k, answer) =>
        if w' != w {
          CountsUpdate(w.confirms, k, Answered(answer), id);
          if answer == Created { assert Init(w'.credentials) == w.credentials; }
        }
      case DoFinish(k) => if w' != w { CountsUpdate(w.confirms, k, Done, id); }
    }
  }

  lemma UsedStays(w: World, s: Step)
    ensures w.used <= Apply(w, s).used
  {
  }

  lemma {:induction false} PotentialRun(w: World, more: seq<Step>, id: Id, t: int)
    requires Tally(w, id) && id in w.used && NotBefore(more, t)
    ensures var w' := Run(w, more); Tally(w', id) && id in w'.used && Potential(w', id, t) <= Potential(w, id, t)
    decreases |more|
  {
    if more != [] {
      assert NotBefore(Init(more), t);
      PotentialRun(w, Init(more), id, t);
      var mid := Run(w, Init(more));
      PotentialStep(mid, Last(more), id, t);
      TallyStep(mid, Last(more), id);
      UsedStays(mid, Last(more));
    }
  }

  lemma {:induction false} WaitingOne(confirms: seq<Confirming>, id: Id) returns (k: nat)
    requires Waiting(confirms, id) > 0
    ensures k < |confirms| && confirms[k].enrolment == id && confirms[k].phase.Counted?
  {
    if Last(confirms).enrolment == id && Last(confirms).phase.Counted? {
      k := |confirms| - 1;
    } else {
      k := WaitingOne(Init(confirms), id);
    }
  }

  /** A waiting confirm is answered with success. */
  lemma AnswerOne(w: World, id: Id, t: int) returns (s: Step)
    requires Waiting(w.confirms, id) > 0
    ensures s.DoCall?
    ensures var w' := Apply(w, s);
            && Count(w'.credentials, id) == Count(w.credentials, id) + 1
            && Waiting(w'.confirms, id) == Waiting(w.confirms, id) - 1 && w'.enrolments == w.enrolments
  {
    var k := WaitingOne(w.confirms, id);
    s := DoCall(k, Created);
    CountsUpdate(w.confirms, k, Answered(Created), id);
    assert Init(Apply(w, s).credentials) == w.credentials;
  }

  /** Another attempt is counted. */
  lemma CountOne(w: World, id: Id, t: int) returns (s: Step)
    requires Remaining(w, id, t) > 0
    ensures s.DoCount? && s.now == t
    ensures var w' := Apply(w, s);
            && w'.credentials == w.credentials && Waiting(w'.confirms, id) == Waiting(w.confirms, id) + 1
            && Remaining(w', id, t) == Remaining(w, id, t) - 1
  {
    s := DoCount(w.enrolments[id].user, id, t);
    assert Init(Apply(w, s).confirms) == w.confirms;
  }

  /** And all of it can be had, with the clock standing still at `t`. */
  lemma {:induction false} PotentialReached(w: World, id: Id, t: int) returns (more: seq<Step>)
    ensures forall k :: 0 <= k < |more| && more[k].DoCount? ==> more[k].now == t
    ensures Count(Run(w, more).credentials, id) == Potential(w, id, t)
    decreases Waiting(w.confirms, id) + 2 * Remaining(w, id, t)
  {
    if Waiting(w.confirms, id) == 0 && Remaining(w, id, t) == 0 {
      more := [];
    } else {
      var s: Step;
      if Waiting(w.confirms, id) > 0 { s := AnswerOne(w, id, t); } else { s := CountOne(w, id, t); }
      var rest := PotentialReached(Apply(w, s), id, t);
      more := [s] + rest;
      RunFrom(w, s, rest);
    }
  }

  lemma {:induction false} RunFrom(w: World, s: Step, rest: seq<Step>)
    ensures Run(w, [s] + rest) == Run(Apply(w, s), rest)
    decreases |rest|
  {
    if rest == [] {
      assert [s] + rest == [s] && Init([s]) == [] && Run(w, []) == w;
    } else {
      assert Init([s] + rest) == [s] + Init(rest);
      RunFrom(w, s, Init(rest));
    }
  }

  ghost predicate Yields(w: World, more: seq<Step>, id: Id, t: int, n: nat) {
    NotBefore(more, t) && Count(Run(w, more).credentials, id) >= n
  }

  /**
    After any run, `n` credentials of an enrolment are possible from time `t` on exactly when its
    potential is at least `n`. So a second one is ruled out if, and only if, at most one of these is
    left in all: a credential, a waiting confirm, an attempt.
  */
  lemma CredentialsPossibleIff(steps: seq<Step>, id: Id, t: int, n: nat)
    requires id in Run(EMPTY, steps).used
    ensures var w := Run(EMPTY, steps);
            (exists more :: Yields(w, more, id, t, n)) <==> n <= Potential(w, id, t)
  {
    InvRun(steps);
    var w := Run(EMPTY, steps);
    assert Tally(w, id);
    if more :| Yields(w, more, id, t, n) { PotentialRun(w, more, id, t); }
    if n <= Potential(w, id, t) {
      var more := PotentialReached(w, id, t);
      assert Yields(w, more, id, t, n);
    }
  }

  /** Two confirms that both counted before either finished can each create a credential. */
  lemma RacingConfirmsMayBothCreate()
    ensures var w := Run(EMPTY,
                         [DoStart(1, 7, 0), DoCount(1, 7, 1), DoCount(1, 7, 2),
                          DoCall(0, Created), DoCall(1, Created)]);
            Count(w.credentials, 7) == 2
  {
    var a, b, c, d, e := DoStart(1, 7, 0), DoCount(1, 7, 1), DoCount(1, 7, 2), DoCall(0, Created), DoCall(1, Created);
    RunFive(EMPTY, a, b, c, d, e);
    var w1 := Apply(EMPTY, a);
    var w3 := Apply(Apply(w1, b), c);
    assert w3.confirms == [Confirming(1, 7, Counted), Confirming(1, 7, Counted)];
    assert w3.credentials == [];
    var w4 := Apply(w3, d);
    assert w4.credentials == [7] && w4.confirms[1] == Confirming(1, 7, Counted);
    assert Apply(w4, e).credentials == [7, 7];
    CountTwo(7);
  }

  lemma CountTwo(id: Id)
    ensures Count([id, id], id) == 2
  {
    assert Init([id, id]) == [id] && Init([id]) == [];
    assert Count([], id) == 0 && Count([id], id) == 1;
  }

  lemma RunFive(w: World, a: Step, b: Step, c: Step, d: Step, e: Step)
    ensures Run(w, [a, b, c, d, e]) == Apply(Apply(Apply(Apply(Apply(w, a), b), c), d), e)
  {
    assert Init([a, b, c, d, e]) == [a, b, c, d] && Init([a, b, c, d]) == [a, b, c];
    assert Init([a, b, c]) == [a, b] && Init([a, b]) == [a];
    assert Init([a]) == [] && Run(w, []) == w;
    var w1, w2 := Run(w, [a]), Run(w, [a, b]);
    assert w1 == Apply(w, a) && w2 == Apply(w1, b);
    assert Run(w, [a, b, c]) == Apply(w2, c) && Run(w, [a, b, c, d]) == Apply(Apply(w2, c), d);
  }

  // ---- one confirm with nothing in between ----

  /** The steps of a confirm that nothing disturbs. */
  function ConfirmSteps(w: World, user: Id, id: Id, now: int, answer: Totp.Answer): seq<Step> {
    [DoCount(user, id, now)]
    + (if Claimed(w.enrolments, user, id, now).1 == Granted
       then [DoCall(|w.confirms|, answer), DoFinish(|w.confirms|)] else [])
  }

  /** They leave the enrolments as the method does when both its transactions commit. */
  lemma ConfirmIsRun(
      w: World, s: State, user: Id, id: Id, code: BodyField, name: BodyField, now: int,
      answer: Totp.Answer, credential: Id)
    requires s.enrolments == w.enrolments && user in s.linked && CodeOk(code) && RequiredText(name, LABEL_MAX).Some?
    ensures Run(w, ConfirmSteps(w, user, id, now, answer)).enrolments
            == Totp.Confirm(s, user, id, code, name, now, answer, credential, true, true).0.enrolments
  {
    var n := |w.confirms|;
    var w1 := Apply(w, DoCount(user, id, now));
    if Claimed(w.enrolments, user, id, now).1 == Granted {
      assert w1.confirms[n] == Confirming(user, id, Counted);
      var rest := [DoCall(n, answer), DoFinish(n)];
      RunFrom(w, DoCount(user, id, now), rest);
      RunFrom(w1, DoCall(n, answer), [DoFinish(n)]);
      assert rest == [DoCall(n, answer)] + [DoFinish(n)];
      RunFrom(Apply(w1, DoCall(n, answer)), DoFinish(n), []);
      assert [DoFinish(n)] + [] == [DoFinish(n)];
    } else {
      RunFrom(w, DoCount(user, id, now), []);
    }
  }
}

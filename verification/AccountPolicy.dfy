/**
  Account policy of one tenant, account-policy.ts: updates under a tenant-wide lock with an expected
  revision, an audit event per change, and the MFA flag pushed to the identity server as the last
  step before the commit.
*/
module AccountPolicy {
  import opened Prelude
  import opened Strings

  datatype EmailRule = VERIFY | IMMEDIATE | ADMIN_ONLY

  datatype Policy = Policy(emailChange: EmailRule, mfaRequired: bool)

  const DEFAULT := Policy(VERIFY, false)

  datatype Row = Row(emailChange: string, mfaRequired: bool, revision: nat, updatedAt: int)

  datatype View = View(policy: Policy, revision: nat, updatedAt: Option<int>)

  datatype AuditEvent = AuditEvent(before: Policy, after: Policy, reason: string, at: int)

  /** `flag` is what the identity server enforces. */
  datatype State = State(row: Option<Row>, audits: seq<AuditEvent>, flag: bool)

  datatype Port = NoPort | Down | Up

  datatype Env = Env(now: int, port: Port, commits: bool)

  /** A JSON field of the request body. */
  datatype Field = Absent | Bool(b: bool) | Text(s: string) | Integer(n: int) | Other

  datatype Input = Input(emailChange: Field, mfaRequired: Field, reason: Field, expectedRevision: Field)

  datatype Code = ValidationFailed | RevisionConflict | MfaEnforcementUnavailable | IdentityUnavailable | CommitFailed

  function RuleText(r: EmailRule): string {
    match r case VERIFY => "VERIFY" case IMMEDIATE => "IMMEDIATE" case ADMIN_ONLY => "ADMIN_ONLY"
  }

  function RuleFrom(s: string): Option<EmailRule> {
    if s == "VERIFY" then Some(VERIFY)
    else if s == "IMMEDIATE" then Some(IMMEDIATE)
    else if s == "ADMIN_ONLY" then Some(ADMIN_ONLY)
    else None
  }

  function Read(row: Option<Row>): View {
    match row
    case None => View(DEFAULT, 0, None)
    case Some(r) =>
      var rule := RuleFrom(r.emailChange);
      View(Policy(if rule.Some? then rule.value else DEFAULT.emailChange, r.mfaRequired), r.revision, Some(r.updatedAt))
  }

  predicate InputOk(i: Input) {
    && i.expectedRevision.Integer? && i.expectedRevision.n >= 0
    && i.reason.Text? && 3 <= |Trim(i.reason.s)| <= 500
    && !(i.emailChange.Absent? && i.mfaRequired.Absent?)
    && (i.emailChange.Absent? || (i.emailChange.Text? && RuleFrom(i.emailChange.s).Some?))
    && (i.mfaRequired.Absent? || i.mfaRequired.Bool?)
  }

  function Wanted(before: Policy, i: Input): Policy
    requires InputOk(i)
  {
    Policy(if i.emailChange.Text? then RuleFrom(i.emailChange.s).value else before.emailChange,
           if i.mfaRequired.Bool? then i.mfaRequired.b else before.mfaRequired)
  }

  function Refusal(s: State, e: Env, i: Input): Option<Code> {
    var before := Read(s.row);
    if !InputOk(i) then Some(ValidationFailed)
    else if before.revision != i.expectedRevision.n then Some(RevisionConflict)
    else
      var next := Wanted(before.policy, i);
      if next.mfaRequired == before.policy.mfaRequired || e.port == Up then None
      else if e.port == NoPort then Some(MfaEnforcementUnavailable)
      else Some(IdentityUnavailable)
  }

  function Updated(s: State, e: Env, i: Input): (State, Result<View, Code>) {
    var refusal := Refusal(s, e, i);
    var before := Read(s.row);
    if refusal.Some? then (s, Err(refusal.value))
    else
      var next := Wanted(before.policy, i);
      var flag := if next.mfaRequired != before.policy.mfaRequired then next.mfaRequired else s.flag;
      if next == before.policy then (s, if e.commits then Ok(before) else Err(CommitFailed))
      else if !e.commits then (s.(flag := flag), Err(CommitFailed))
      else
        var row := Row(RuleText(next.emailChange), next.mfaRequired, before.revision + 1, e.now);
        var audits := s.audits + [AuditEvent(before.policy, next, Trim(i.reason.s), e.now)];
        (State(Some(row), audits, flag), Ok(Read(Some(row))))
  }

  class AccountPolicyService {
    var row: Option<Row>
    var audits: seq<AuditEvent>
    var flag: bool

    constructor (flag: bool)
      ensures row == None && audits == [] && this.flag == flag
    {
      row, audits, this.flag := None, [], flag;
    }

    method Update(e: Env, i: Input) returns (r: Result<View, Code>)
      modifies this
      ensures (State(row, audits, flag), r) == Updated(old(State(row, audits, flag)), e, i)
    {
      if !i.expectedRevision.Integer? || i.expectedRevision.n < 0 { return Err(ValidationFailed); }
      if !i.reason.Text? || |Trim(i.reason.s)| < 3 || |Trim(i.reason.s)| > 500 { return Err(ValidationFailed); }
      if i.emailChange.Absent? && i.mfaRequired.Absent? { return Err(ValidationFailed); }
      if !i.emailChange.Absent? && (!i.emailChange.Text? || RuleFrom(i.emailChange.s).None?) {
        return Err(ValidationFailed);
      }
      if !i.mfaRequired.Absent? && !i.mfaRequired.Bool? { return Err(ValidationFailed); }

      var before := Read(row);
      if before.revision != i.expectedRevision.n { return Err(RevisionConflict); }
      var next := before.policy;
      if i.emailChange.Text? { next := next.(emailChange := RuleFrom(i.emailChange.s).value); }
      if i.mfaRequired.Bool? { next := next.(mfaRequired := i.mfaRequired.b); }
      if next == before.policy {
        return if e.commits then Ok(before) else Err(CommitFailed);
      }

      var txRow := match row
        case None => Row(RuleText(next.emailChange), next.mfaRequired, 1, e.now)
        case Some(stored) => Row(RuleText(next.emailChange), next.mfaRequired, stored.revision + 1, e.now);
      var txAudits := audits + [AuditEvent(before.policy, next, Trim(i.reason.s), e.now)];
      if next.mfaRequired != before.policy.mfaRequired {
        if e.port == NoPort { return Err(MfaEnforcementUnavailable); }
        if e.port == Down { return Err(IdentityUnavailable); }
        flag := next.mfaRequired;
      }
      if !e.commits { return Err(CommitFailed); }
      row, audits := Some(txRow), txAudits;
      return Ok(View(next, txRow.revision, Some(txRow.updatedAt)));
    }
  }

  // ---- runs ----

  datatype Step = Step(e: Env, i: Input)

  function Run(s: State, steps: seq<Step>): State
    decreases |steps|
  {
    if steps == [] then s else Updated(Run(s, Init(steps)), Last(steps).e, Last(steps).i).0
  }

  /** The events lead from the default to the policy in force, each a real change, and are counted by the revision. */
  predicate Chained(s: State) {
    && Read(s.row).revision == |s.audits|
    && (s.row.None? <==> s.audits == [])
    && (forall k :: 0 <= k < |s.audits| ==> s.audits[k].before != s.audits[k].after)
    && (forall k :: 0 < k < |s.audits| ==> s.audits[k].before == s.audits[k - 1].after)
    && (if s.audits == [] then Read(s.row).policy == DEFAULT
        else s.audits[0].before == DEFAULT && Last(s.audits).after == Read(s.row).policy)
  }

  lemma ChainedStep(s: State, e: Env, i: Input)
    requires Chained(s)
    ensures Chained(Updated(s, e, i).0)
    ensures s.audits <= Updated(s, e, i).0.audits
  {
  }

  lemma {:induction false} ChainedRun(flag: bool, steps: seq<Step>)
    ensures Chained(Run(State(None, [], flag), steps))
    decreases |steps|
  {
    if steps != [] {
      ChainedRun(flag, Init(steps));
      ChainedStep(Run(State(None, [], flag), Init(steps)), Last(steps).e, Last(steps).i);
    }
  }

  /** Audit events are only ever added. */
  lemma {:induction false} AuditsGrow(s: State, steps: seq<Step>)
    requires Chained(s)
    ensures Chained(Run(s, steps)) && s.audits <= Run(s, steps).audits
    decreases |steps|
  {
    if steps != [] {
      AuditsGrow(s, Init(steps));
      ChainedStep(Run(s, Init(steps)), Last(steps).e, Last(steps).i);
    }
  }

  /**
    Once an update has changed the policy, every later update with the same expected revision is
    refused as a conflict, whatever happened in between.
  */
  lemma OneChangePerRevision(s: State, first: Step, between: seq<Step>, second: Step)
    requires Chained(s) && Updated(s, first.e, first.i).0.row != s.row
    requires InputOk(second.i) && InputOk(first.i) && second.i.expectedRevision == first.i.expectedRevision
    ensures var later := Run(Updated(s, first.e, first.i).0, between);
            Updated(later, second.e, second.i) == (later, Err(RevisionConflict))
  {
    ChainedStep(s, first.e, first.i);
    AuditsGrow(Updated(s, first.e, first.i).0, between);
  }

  predicate FlagInStep(s: State) { s.flag == Read(s.row).policy.mfaRequired }

  /**
    In step before, the identity server's flag equals the stored one afterwards exactly when the commit
    went through, or the update was refused, or it did not change the flag.
  */
  lemma FlagInStepIff(s: State, e: Env, i: Input)
    requires FlagInStep(s)
    ensures FlagInStep(Updated(s, e, i).0) <==>
            || e.commits || Refusal(s, e, i).Some?
            || Wanted(Read(s.row).policy, i).mfaRequired == Read(s.row).policy.mfaRequired
  {
  }

  /** The update pushes a new flag to the identity server and then fails to commit. */
  predicate Loses(s: State, step: Step) {
    && !step.e.commits && Refusal(s, step.e, step.i).None?
    && Wanted(Read(s.row).policy, step.i).mfaRequired != Read(s.row).policy.mfaRequired
  }

  lemma RunOneMore(s: State, steps: seq<Step>, n: nat)
    requires n < |steps|
    ensures Run(s, steps[..n + 1]) == Updated(Run(s, steps[..n]), steps[n].e, steps[n].i).0
  {
    assert Init(steps[..n + 1]) == steps[..n] && Last(steps[..n + 1]) == steps[n];
  }

  /** Over any run the flags agree throughout exactly when no update loses its commit behind a pushed flag. */
  lemma FlagInStepThroughoutIff(s: State, steps: seq<Step>)
    requires FlagInStep(s)
    ensures (forall n :: 0 <= n <= |steps| ==> FlagInStep(Run(s, steps[..n]))) <==>
            (forall n :: 0 <= n < |steps| ==> !Loses(Run(s, steps[..n]), steps[n]))
  {
    if forall n :: 0 <= n <= |steps| ==> FlagInStep(Run(s, steps[..n])) {
      forall n | 0 <= n < |steps| ensures !Loses(Run(s, steps[..n]), steps[n]) {
        RunOneMore(s, steps, n);
        assert FlagInStep(Run(s, steps[..n])) && FlagInStep(Run(s, steps[..n + 1]));
        FlagInStepIff(Run(s, steps[..n]), steps[n].e, steps[n].i);
      }
    }
    if forall n :: 0 <= n < |steps| ==> !Loses(Run(s, steps[..n]), steps[n]) {
      forall n | 0 <= n <= |steps| ensures FlagInStep(Run(s, steps[..n])) {
        FlagInStepSoFar(s, steps, n);
      }
    }
  }

  lemma {:induction false} FlagInStepSoFar(s: State, steps: seq<Step>, n: nat)
    requires n <= |steps| && FlagInStep(s)
    requires forall k :: 0 <= k < |steps| ==> !Loses(Run(s, steps[..k]), steps[k])
    ensures FlagInStep(Run(s, steps[..n]))
  {
    if n > 0 {
      FlagInStepSoFar(s, steps, n - 1);
      RunOneMore(s, steps, n - 1);
      FlagInStepIff(Run(s, steps[..n - 1]), steps[n - 1].e, steps[n - 1].i);
    }
  }

  /** In particular over any run in which no commit fails. */
  lemma FlagInStepRun(s: State, steps: seq<Step>)
    requires FlagInStep(s) && forall k :: 0 <= k < |steps| ==> steps[k].e.commits
    ensures FlagInStep(Run(s, steps))
  {
    FlagInStepThroughoutIff(s, steps);
    assert steps[..|steps|] == steps;
  }

  /**
    Here repeating does repair, exactly if the repetition reaches the identity server and commits: the
    push is idempotent and the stored row still has the old revision.
  */
  lemma RepeatedUpdateRepairsIff(s: State, e: Env, e2: Env, i: Input)
    requires FlagInStep(s) && Loses(s, Step(e, i))
    ensures var s' := Updated(s, e, i).0;
            var (s'', r) := Updated(s', e2, i);
            var able := e2.port == Up && e2.commits;
            && !FlagInStep(s') && (FlagInStep(s'') <==> able)
            && (able ==> r.Ok? && s''.flag == s'.flag && |s''.audits| == |s.audits| + 1)
  {
  }
}

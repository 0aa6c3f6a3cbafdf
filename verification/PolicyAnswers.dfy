/**
  When a policy update goes through, what it then stores, and which error it gives otherwise, told on
  the request and the stored row alone.
*/
module PolicyAnswers {
  import opened Prelude
  import opened Strings
  import opened AccountPolicy

  function RevisionOf(s: State): nat { if s.row.Some? then s.row.value.revision else 0 }

  function MfaOf(s: State): bool { s.row.Some? && s.row.value.mfaRequired }

  /** The rule in force; anything unknown in the column counts as VERIFY. */
  predicate InForce(s: State, rule: EmailRule) {
    match rule
    case IMMEDIATE => s.row.Some? && s.row.value.emailChange == "IMMEDIATE"
    case ADMIN_ONLY => s.row.Some? && s.row.value.emailChange == "ADMIN_ONLY"
    case VERIFY => s.row.Some? ==> s.row.value.emailChange != "IMMEDIATE" && s.row.value.emailChange != "ADMIN_ONLY"
  }

  /** What is read, also where there is no row. */
  lemma ReadMeaning(s: State)
    ensures var v := Read(s.row);
            && v.revision == RevisionOf(s) && v.policy.mfaRequired == MfaOf(s) && InForce(s, v.policy.emailChange)
            && (forall rule :: InForce(s, rule) ==> rule == v.policy.emailChange)
            && v.updatedAt == if s.row.Some? then Some(s.row.value.updatedAt) else None
  {
  }

  /** Surrounded by white space at most, 3 to 500 characters. */
  ghost predicate ReasonOk(reason: string, i: nat, j: nat) {
    IsTrimmed(reason, i, j) && 3 <= j - i <= 500
  }

  ghost predicate RequestOk(r: Input) {
    && r.expectedRevision.Integer? && r.expectedRevision.n >= 0
    && r.reason.Text? && (exists i: nat, j: nat :: ReasonOk(r.reason.s, i, j))
    && (r.emailChange.Absent? || r.emailChange == Text("VERIFY") || r.emailChange == Text("IMMEDIATE")
        || r.emailChange == Text("ADMIN_ONLY"))
    && (r.mfaRequired.Absent? || r.mfaRequired == Bool(true) || r.mfaRequired == Bool(false))
    && !(r.emailChange.Absent? && r.mfaRequired.Absent?)
  }

  lemma RequestOkIff(r: Input)
    ensures InputOk(r) <==> RequestOk(r)
  {
    if r.reason.Text? {
      var i, j := TrimShape(r.reason.s);
      assert 3 <= j - i <= 500 ==> ReasonOk(r.reason.s, i, j);
      forall a: nat, b: nat | ReasonOk(r.reason.s, a, b) ensures 3 <= |Trim(r.reason.s)| <= 500 {
        TrimmedUnique(r.reason.s, a, b);
      }
    }
  }

  /** The update asks for the other value of the MFA flag. */
  predicate FlipsMfa(s: State, r: Input) { r.mfaRequired == Bool(!MfaOf(s)) }

  /** Every answer and its reason, the first that applies. */
  lemma UpdateAnswers(s: State, e: Env, r: Input)
    ensures var answer := Updated(s, e, r).1;
            var current := RequestOk(r) && r.expectedRevision == Integer(RevisionOf(s));
            && (answer.Ok? <==> current && e.commits && (FlipsMfa(s, r) ==> e.port == Up))
            && (answer == Err(ValidationFailed) <==> !RequestOk(r))
            && (answer == Err(RevisionConflict) <==> RequestOk(r) && !current)
            && (answer == Err(MfaEnforcementUnavailable) <==> current && FlipsMfa(s, r) && e.port == NoPort)
            && (answer == Err(IdentityUnavailable) <==> current && FlipsMfa(s, r) && e.port == Down)
            && (answer == Err(CommitFailed) <==> current && (FlipsMfa(s, r) ==> e.port == Up) && !e.commits)
  {
    RequestOkIff(r);
  }

  /** What an update that was answered Ok leaves in force: the fields it named, and for the rest what was there. */
  lemma UpdateStores(s: State, e: Env, r: Input)
    requires Updated(s, e, r).1.Ok?
    ensures var (s', answer) := Updated(s, e, r);
            && answer == Ok(Read(s'.row))
            && (r.mfaRequired.Bool? ==> MfaOf(s') == r.mfaRequired.b)
            && (r.mfaRequired.Absent? ==> MfaOf(s') == MfaOf(s))
            && (r.emailChange == Text("VERIFY") ==> InForce(s', VERIFY))
            && (r.emailChange == Text("IMMEDIATE") ==> InForce(s', IMMEDIATE))
            && (r.emailChange == Text("ADMIN_ONLY") ==> InForce(s', ADMIN_ONLY))
            && (r.emailChange.Absent? ==> forall rule :: InForce(s, rule) ==> InForce(s', rule))
            && s'.flag == (if FlipsMfa(s, r) then !MfaOf(s) else s.flag)
  {
    ReadMeaning(s);
    ReadMeaning(Updated(s, e, r).0);
  }

  /**
    A change of the policy is one new revision and one audit event, with the time and the trimmed
    reason; no change leaves all as it was.
  */
  lemma UpdateRecords(s: State, e: Env, r: Input, i: nat, j: nat)
    requires Updated(s, e, r).1.Ok? && r.reason.Text? && IsTrimmed(r.reason.s, i, j)
    ensures var s' := Updated(s, e, r).0;
            var before, after := Read(s.row).policy, Read(s'.row).policy;
            if before == after then s' == s
            else
              && RevisionOf(s') == RevisionOf(s) + 1 && s'.row.Some? && s'.row.value.updatedAt == e.now
              && s'.audits == s.audits + [AuditEvent(before, after, r.reason.s[i..j], e.now)]
  {
    TrimmedUnique(r.reason.s, i, j);
  }

  /** Any other answer leaves row and audit trail alone; the flag too, unless the commit was lost behind it. */
  lemma RefusedUpdateLeaves(s: State, e: Env, r: Input)
    requires Updated(s, e, r).1.Err?
    ensures var (s', answer) := Updated(s, e, r);
            && s'.row == s.row && s'.audits == s.audits
            && s'.flag == if answer == Err(CommitFailed) && FlipsMfa(s, r) then !MfaOf(s) else s.flag
  {
    ReadMeaning(s);
  }
}

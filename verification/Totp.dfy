/**
  TOTP enrolment and device removal of account-self-service.ts for one tenant, undisturbed. The order
  of the statements matters: an enrolment is committed before the identity server is read, an attempt
  before it is asked, and a removal asks it last. What interleaves is in TotpRuns.dfy and
  TotpDevices.dfy.
*/
module Totp {
  import opened Prelude
  import opened Strings

  type Id = nat

  const TOTP_ENROLMENT_TTL_MS := 10 * 60 * 1000
  const TOTP_MAX_ATTEMPTS := 5

  datatype Enrolment = Enrolment(user: Id, attempts: nat, createdAt: int, expiresAt: int)

  type Enrolments = map<Id, Enrolment>

  datatype AuditEvent = MfaEnrolled(user: Id, credential: Id) | MfaRemoved(user: Id, credential: Id)

  /** The tenant's tables, and each user's devices at the identity server. */
  datatype State = State(
    linked: set<Id>, enrolments: Enrolments, mfaRequired: bool, audits: seq<AuditEvent>, devices: map<Id, set<Id>>)

  datatype Code =
    | ValidationFailed | IdentityUnavailable | EnrolmentExpired | RateLimited | InvalidOtpCode | DuplicateLabel
    | DeviceNotFound | MfaRequiredLastDevice | CommitFailed

  /** What `createTotp` answers. */
  datatype Answer = Created | InvalidCode | LabelInUse | Unavailable

  /** What `deleteCredential` answers; `Gone` is a device that it does not know. */
  datatype DeleteAnswer = Deleted | Gone | Down

  function DevicesOf(devices: map<Id, set<Id>>, user: Id): set<Id> {
    if user in devices then devices[user] else {}
  }

  // ---- the enrolments table ----

  function OthersOnly(t: Enrolments, user: Id): Enrolments {
    map id | id in t && t[id].user != user :: t[id]
  }

  function Started(t: Enrolments, user: Id, id: Id, now: int): Enrolments {
    OthersOnly(t, user)[id := Enrolment(user, 0, now, now + TOTP_ENROLMENT_TTL_MS)]
  }

  datatype ClaimAnswer = Granted | Expired | Limited

  function Claimed(t: Enrolments, user: Id, id: Id, now: int): (Enrolments, ClaimAnswer) {
    if id !in t || t[id].user != user then (t, Expired)
    else if t[id].expiresAt <= now then (t - {id}, Expired)
    else if t[id].attempts >= TOTP_MAX_ATTEMPTS then (t, Limited)
    else (t[id := t[id].(attempts := t[id].attempts + 1)], Granted)
  }

  function Finished(t: Enrolments, user: Id, id: Id): Enrolments {
    if id in t && t[id].user == user then t - {id} else t
  }

  // ---- the operations ----

  /** `^\d{6,8}$` */
  predicate CodeOk(code: BodyField) {
    code.Typed? && 6 <= |code.s| <= 8 && forall k :: 0 <= k < |code.s| ==> '0' <= code.s[k] <= '9'
  }

  const LABEL_MAX := 64

  function Start(s: State, user: Id, id: Id, now: int, commits: bool, readsUp: bool): (State, Result<int, Code>) {
    if user !in s.linked then (s, Err(IdentityUnavailable))
    else if !commits then (s, Err(CommitFailed))
    else
      (s.(enrolments := Started(s.enrolments, user, id, now)),
       if readsUp then Ok(now + TOTP_ENROLMENT_TTL_MS) else Err(IdentityUnavailable))
  }

  /** Phase 1 of a confirm; None means that an attempt was counted. */
  function CountAttempt(s: State, user: Id, id: Id, now: int, commits: bool): (State, Option<Code>) {
    var (t, answer) := Claimed(s.enrolments, user, id, now);
    if user !in s.linked then (s, Some(IdentityUnavailable))
    else if !commits then (s, Some(CommitFailed))
    else
      (s.(enrolments := t),
       match answer case Granted => None case Expired => Some(EnrolmentExpired) case Limited => Some(RateLimited))
  }

  /** Phase 2, at the identity server. */
  function AskIdentity(s: State, user: Id, answer: Answer, credential: Id): (State, Option<Code>) {
    match answer
    case Created => (s.(devices := s.devices[user := DevicesOf(s.devices, user) + {credential}]), None)
    case InvalidCode => (s, Some(InvalidOtpCode))
    case LabelInUse => (s, Some(DuplicateLabel))
    case Unavailable => (s, Some(IdentityUnavailable))
  }

  /** Phase 3. */
  function CloseEnrolment(s: State, user: Id, id: Id, credential: Id, commits: bool): (State, Option<Code>) {
    if !commits then (s, Some(CommitFailed))
    else
      var audits := s.audits + [MfaEnrolled(user, credential)];
      (s.(enrolments := Finished(s.enrolments, user, id), audits := audits), None)
  }

  /** The three phases with nothing in between, each only if the one before went well. */
  function Confirm(
      s: State, user: Id, id: Id, code: BodyField, name: BodyField, now: int,
      answer: Answer, credential: Id, counts: bool, closes: bool)
      : (State, Option<Code>) {
    if !CodeOk(code) || RequiredText(name, LABEL_MAX).None? then (s, Some(ValidationFailed))
    else
      var (s1, r1) := CountAttempt(s, user, id, now, counts);
      if r1.Some? then (s1, r1)
      else
        var (s2, r2) := AskIdentity(s1, user, answer, credential);
        if r2.Some? then (s2, r2) else CloseEnrolment(s2, user, id, credential, closes)
  }

  /** A failed commit after the deletion leaves the device gone and no audit event. */
  function Remove(
      s: State, user: Id, credential: Id, readsUp: bool, deletes: DeleteAnswer, commits: bool): (State, Option<Code>) {
    var mine := DevicesOf(s.devices, user);
    if user !in s.linked || !readsUp then (s, Some(IdentityUnavailable))
    else if credential !in mine then (s, Some(DeviceNotFound))
    else if s.mfaRequired && mine == {credential} then (s, Some(MfaRequiredLastDevice))
    else if deletes.Gone? then (s, Some(DeviceNotFound))
    else if deletes.Down? then (s, Some(IdentityUnavailable))
    else
      var after := s.(devices := s.devices[user := mine - {credential}]);
      if !commits then (after, Some(CommitFailed))
      else (after.(audits := s.audits + [MfaRemoved(user, credential)]), None)
  }

  class TotpService {
    const linked: set<Id>
    const mfaRequired: bool
    var enrolments: Enrolments
    var audits: seq<AuditEvent>
    var devices: map<Id, set<Id>>

    constructor (s: State)
      ensures Tables() == s
    {
      linked, mfaRequired := s.linked, s.mfaRequired;
      enrolments, audits, devices := s.enrolments, s.audits, s.devices;
    }

    function Tables(): State
      reads this
    {
      State(linked, enrolments, mfaRequired, audits, devices)
    }

    method StartTotpEnrolment(user: Id, id: Id, now: int, commits: bool, readsUp: bool)
        returns (reply: Result<int, Code>)
      requires id !in enrolments
      modifies this`enrolments
      ensures (Tables(), reply) == Start(old(Tables()), user, id, now, commits, readsUp)
    {
      if user !in linked { return Err(IdentityUnavailable); }
      var mine := set k | k in enrolments && enrolments[k].user == user;
      var tx := enrolments - mine;
      tx := tx[id := Enrolment(user, 0, now, now + TOTP_ENROLMENT_TTL_MS)];
      if !commits { return Err(CommitFailed); }
      assert tx == Started(enrolments, user, id, now);
      enrolments := tx;
      if !readsUp { return Err(IdentityUnavailable); }
      return Ok(now + TOTP_ENROLMENT_TTL_MS);
    }

    /** `answer` is what the identity server says; `counts` and `closes` are the two commits. */
    method ConfirmTotpEnrolment(
        user: Id, id: Id, code: BodyField, name: BodyField, now: int,
        answer: Answer, credential: Id, counts: bool, closes: bool)
        returns (thrown: Option<Code>)
      modifies this
      ensures (Tables(), thrown)
              == Confirm(old(Tables()), user, id, code, name, now, answer, credential, counts, closes)
    {
      if !CodeOk(code) { return Some(ValidationFailed); }
      if RequiredText(name, LABEL_MAX).None? { return Some(ValidationFailed); }

      if user !in linked { return Some(IdentityUnavailable); }
      var tx := enrolments;
      var claim := Granted;
      if id !in tx || tx[id].user != user {
        claim := Expired;
      } else if tx[id].expiresAt <= now {
        tx, claim := tx - {id}, Expired;
      } else if tx[id].attempts >= TOTP_MAX_ATTEMPTS {
        claim := Limited;
      } else {
        tx := tx[id := tx[id].(attempts := tx[id].attempts + 1)];
      }
      if !counts { return Some(CommitFailed); }
      enrolments := tx;
      if claim == Expired { return Some(EnrolmentExpired); }
      if claim == Limited { return Some(RateLimited); }

      match answer {
        case InvalidCode => return Some(InvalidOtpCode);
        case LabelInUse => return Some(DuplicateLabel);
        case Unavailable => return Some(IdentityUnavailable);
        case Created =>
      }
      devices := devices[user := DevicesOf(devices, user) + {credential}];

      if !closes { return Some(CommitFailed); }
      if id in enrolments && enrolments[id].user == user { enrolments := enrolments - {id}; }
      audits := audits + [MfaEnrolled(user, credential)];
      return None;
    }

    method RemoveTotpDevice(user: Id, credential: Id, readsUp: bool, deletes: DeleteAnswer, commits: bool)
        returns (thrown: Option<Code>)
      modifies this`devices, this`audits
      ensures (Tables(), thrown) == Remove(old(Tables()), user, credential, readsUp, deletes, commits)
    {
      if user !in linked { return Some(IdentityUnavailable); }
      if !readsUp { return Some(IdentityUnavailable); }
      var mine := DevicesOf(devices, user);
      if credential !in mine { return Some(DeviceNotFound); }
      OneLeft(mine, credential);
      if mfaRequired && |mine| <= 1 { return Some(MfaRequiredLastDevice); }
      var tx := audits + [MfaRemoved(user, credential)];
      match deletes {
        case Gone => return Some(DeviceNotFound);
        case Down => return Some(IdentityUnavailable);
        case Deleted =>
      }
      devices := devices[user := mine - {credential}];
      if !commits { return Some(CommitFailed); }
      audits := tx;
      return None;
    }
  }

  /**
    The source counts the devices; with the one to be removed among them, one is left out exactly when
    it is the only one.
  */
  lemma OneLeft(s: set<Id>, x: Id)
    requires x in s
    ensures |s| <= 1 <==> s == {x}
  {
    assert s == {x} + (s - {x});
    assert |s| == 1 + |s - {x}|;
  }

  // ---- devices and audit trail ----

  datatype Operation =
    | StartOp(user: Id, id: Id, now: int, commits: bool, readsUp: bool)
    | ConfirmOp(
        user: Id, id: Id, code: BodyField, name: BodyField, now: int,
        answer: Answer, credential: Id, counts: bool, closes: bool)
    | RemoveOp(user: Id, credential: Id, readsUp: bool, deletes: DeleteAnswer, commits: bool)

  function Operate(s: State, o: Operation): State {
    match o
    case StartOp(user, id, now, commits, readsUp) => Start(s, user, id, now, commits, readsUp).0
    case ConfirmOp(user, id, code, name, now, answer, credential, counts, closes) =>
      Confirm(s, user, id, code, name, now, answer, credential, counts, closes).0
    case RemoveOp(user, credential, readsUp, deletes, commits) =>
      Remove(s, user, credential, readsUp, deletes, commits).0
  }

  /** The devices a user has by the audit trail, having started with those in `from`. */
  function Accounted(from: map<Id, set<Id>>, audits: seq<AuditEvent>, user: Id): set<Id> {
    if audits == [] then DevicesOf(from, user)
    else
      var before := Accounted(from, Init(audits), user);
      match Last(audits)
      case MfaEnrolled(u, c) => if u == user then before + {c} else before
      case MfaRemoved(u, c) => if u == user then before - {c} else before
  }

  ghost predicate InAccount(from: map<Id, set<Id>>, s: State) {
    forall user: Id :: DevicesOf(s.devices, user) == Accounted(from, s.audits, user)
  }

  /** The operation changes the devices at the identity server, and the commit that follows fails. */
  predicate Unaudited(s: State, o: Operation) {
    match o
    case StartOp(_, _, _, _, _) => false
    case ConfirmOp(user, id, code, name, now, answer, credential, counts, closes) =>
      && CodeOk(code) && RequiredText(name, LABEL_MAX).Some? && user in s.linked && counts && !closes
      && Claimed(s.enrolments, user, id, now).1 == Granted
      && answer == Created && credential !in DevicesOf(s.devices, user)
    case RemoveOp(user, credential, readsUp, deletes, commits) =>
      && user in s.linked && readsUp && deletes == Deleted && !commits && credential in DevicesOf(s.devices, user)
      && (s.mfaRequired ==> DevicesOf(s.devices, user) != {credential})
  }

  lemma AccountAppend(from: map<Id, set<Id>>, audits: seq<AuditEvent>, a: AuditEvent, user: Id)
    ensures var before := Accounted(from, audits, user);
            Accounted(from, audits + [a], user)
            == if a.user != user then before
               else if a.MfaEnrolled? then before + {a.credential} else before - {a.credential}
  {
    assert Init(audits + [a]) == audits;
  }

  /**
    Devices and audit trail, if they agree before an operation, agree after it exactly unless its last
    commit is lost.
  */
  lemma AccountStepIff(from: map<Id, set<Id>>, s: State, o: Operation)
    requires InAccount(from, s)
    ensures InAccount(from, Operate(s, o)) <==> !Unaudited(s, o)
  {
    var s' := Operate(s, o);
    OperateShape(s, o);
    if s'.audits == s.audits { SameAudits(from, s, s', o); } else { OneMoreAudit(from, s, s', Last(s'.audits)); }
  }

  /** What an operation may have done to devices and audit trail. */
  ghost predicate Shaped(s: State, s': State, o: Operation) {
    if s'.audits == s.audits then
      && OthersKept(s, s', o.user)
      && (DevicesOf(s'.devices, o.user) != DevicesOf(s.devices, o.user) <==> Unaudited(s, o))
    else
      && |s'.audits| == |s.audits| + 1 && Init(s'.audits) == s.audits && !Unaudited(s, o)
      && var a, mine := Last(s'.audits), DevicesOf(s.devices, o.user);
      && a.user == o.user && OthersKept(s, s', o.user)
      && DevicesOf(s'.devices, a.user) == if a.MfaEnrolled? then mine + {a.credential} else mine - {a.credential}
  }

  ghost predicate OthersKept(s: State, s': State, user: Id) {
    forall u: Id :: u != user ==> DevicesOf(s'.devices, u) == DevicesOf(s.devices, u)
  }

  lemma OperateShape(s: State, o: Operation)
    ensures Shaped(s, Operate(s, o), o)
  {
  }

  lemma SameAudits(from: map<Id, set<Id>>, s: State, s': State, o: Operation)
    requires InAccount(from, s) && s'.audits == s.audits
    requires OthersKept(s, s', o.user)
    ensures InAccount(from, s') <==> DevicesOf(s'.devices, o.user) == DevicesOf(s.devices, o.user)
  {
    assert DevicesOf(s.devices, o.user) == Accounted(from, s.audits, o.user);
    if DevicesOf(s'.devices, o.user) == DevicesOf(s.devices, o.user) {
      assert forall user: Id :: DevicesOf(s'.devices, user) == DevicesOf(s.devices, user);
    }
  }

  lemma OneMoreAudit(from: map<Id, set<Id>>, s: State, s': State, a: AuditEvent)
    requires InAccount(from, s) && s'.audits == s.audits + [a]
    requires OthersKept(s, s', a.user)
    requires var mine := DevicesOf(s.devices, a.user);
             DevicesOf(s'.devices, a.user) == if a.MfaEnrolled? then mine + {a.credential} else mine - {a.credential}
    ensures InAccount(from, s')
  {
    forall user: Id ensures DevicesOf(s'.devices, user) == Accounted(from, s'.audits, user) {
      AccountAppend(from, s.audits, a, user);
      assert DevicesOf(s.devices, user) == Accounted(from, s.audits, user);
    }
  }
}

/**
  What starting, confirming and removing answer and leave behind, in any state, told on the request and
  the stored rows with the limits of the product: ten minutes, five attempts, a label of 64 characters.
*/
module TotpAnswers {
  import opened Prelude
  import opened Strings
  import opened Totp

  // ---- starting ----

  /** Exactly the started enrolment is the user's; everybody else's are as they were. */
  lemma StartLeaves(s: State, user: Id, id: Id, now: int, commits: bool, readsUp: bool)
    requires id !in s.enrolments
    ensures var (s', reply) := Start(s, user, id, now, commits, readsUp);
            && (reply == Err(IdentityUnavailable) <==> user !in s.linked || (commits && !readsUp))
            && (reply == Err(CommitFailed) <==> user in s.linked && !commits)
            && (reply.Ok? ==> reply.value == now + 600_000)
            && s' == s.(enrolments := s'.enrolments)
            && (user !in s.linked || !commits ==> s' == s)
            && (user in s.linked && commits ==>
                  && id in s'.enrolments && s'.enrolments[id] == Enrolment(user, 0, now, now + 600_000)
                  && (forall k :: k in s'.enrolments && s'.enrolments[k].user == user ==> k == id)
                  && (forall k :: k in s.enrolments && s.enrolments[k].user != user ==>
                        k in s'.enrolments && s'.enrolments[k] == s.enrolments[k])
                  && (forall k :: k in s'.enrolments && k != id ==>
                        k in s.enrolments && s'.enrolments[k] == s.enrolments[k]))
  {
  }

  // ---- confirming ----

  /** Six to eight digits, and a label of 1 to 64 characters between white space, none of them a control character. */
  ghost predicate FormOk(code: BodyField, name: BodyField) {
    && code.Typed? && 6 <= |code.s| <= 8 && (forall k :: 0 <= k < |code.s| ==> code.s[k] in "0123456789")
    && name.Typed? && exists i: nat, j: nat :: LabelAt(name.s, i, j)
  }

  predicate LabelAt(s: string, i: nat, j: nat) {
    IsTrimmed(s, i, j) && 1 <= j - i <= 64 && forall k :: i <= k < j ==> !(s[k] < ' ' || s[k] == '\U{7f}')
  }

  lemma FormOkIff(code: BodyField, name: BodyField)
    ensures FormOk(code, name) <==> CodeOk(code) && RequiredText(name, LABEL_MAX).Some?
  {
    assert forall c: char :: '0' <= c <= '9' <==> c in "0123456789";
    if name.Typed? {
      var a, b := TrimShape(name.s);
      var t := Trim(name.s);
      assert forall k :: a <= k < b ==> name.s[k] == t[k - a];
      assert forall k :: 0 <= k < |t| ==> t[k] == name.s[a + k];
      assert RequiredText(name, LABEL_MAX).Some? ==> LabelAt(name.s, a, b);
      forall i: nat, j: nat | LabelAt(name.s, i, j) ensures RequiredText(name, LABEL_MAX).Some? {
        TrimmedUnique(name.s, i, j);
        assert forall k :: 0 <= k < |t| ==> t[k] == name.s[i + k];
      }
    }
  }

  /** The user has this enrolment open, it is not ten minutes old and fewer than five attempts were counted. */
  predicate Countable(s: State, user: Id, id: Id, now: int) {
    id in s.enrolments && s.enrolments[id].user == user && now < s.enrolments[id].expiresAt
      && s.enrolments[id].attempts < 5
  }

  predicate OpenFor(s: State, user: Id, id: Id, now: int) {
    id in s.enrolments && s.enrolments[id].user == user && now < s.enrolments[id].expiresAt
  }

  /** A confirm's answers; the identity server is asked exactly if the attempt was counted. */
  lemma ConfirmAnswers(
      s: State, user: Id, id: Id, code: BodyField, name: BodyField, now: int,
      answer: Answer, credential: Id, counts: bool, closes: bool)
    ensures var thrown := Confirm(s, user, id, code, name, now, answer, credential, counts, closes).1;
            var begins := FormOk(code, name) && user in s.linked && counts;
            var asks := begins && Countable(s, user, id, now);
            && (thrown == Some(ValidationFailed) <==> !FormOk(code, name))
            && (thrown == None <==> asks && answer == Created && closes)
            && (thrown == Some(EnrolmentExpired) <==> begins && !OpenFor(s, user, id, now))
            && (thrown == Some(RateLimited) <==> begins && OpenFor(s, user, id, now) && s.enrolments[id].attempts >= 5)
            && (thrown == Some(InvalidOtpCode) <==> asks && answer == InvalidCode)
            && (thrown == Some(DuplicateLabel) <==> asks && answer == LabelInUse)
            && (thrown == Some(IdentityUnavailable) <==>
                  FormOk(code, name) && (user !in s.linked || (asks && answer == Unavailable)))
            && (thrown == Some(CommitFailed) <==>
                  FormOk(code, name) && user in s.linked && (!counts || (asks && answer == Created && !closes)))
  {
    FormOkIff(code, name);
  }

  /** What a confirm leaves behind: an attempt more, or the enrolment gone, and a device exactly if one was created. */
  lemma ConfirmLeaves(
      s: State, user: Id, id: Id, code: BodyField, name: BodyField, now: int,
      answer: Answer, credential: Id, counts: bool, closes: bool)
    ensures var s' := Confirm(s, user, id, code, name, now, answer, credential, counts, closes).0;
            var begins := FormOk(code, name) && user in s.linked && counts;
            var asks := begins && Countable(s, user, id, now);
            var mine := DevicesOf(s.devices, user);
            && s'.devices == (if asks && answer == Created then s.devices[user := mine + {credential}] else s.devices)
            && s'.audits
               == s.audits + (if asks && answer == Created && closes then [MfaEnrolled(user, credential)] else [])
            && s'.linked == s.linked && s'.mfaRequired == s.mfaRequired
            && s'.enrolments ==
               if asks && answer == Created && closes then s.enrolments - {id}
               else if asks then s.enrolments[id := s.enrolments[id].(attempts := s.enrolments[id].attempts + 1)]
               else if begins && id in s.enrolments && s.enrolments[id].user == user
                 && now >= s.enrolments[id].expiresAt
               then s.enrolments - {id}
               else s.enrolments
  {
    FormOkIff(code, name);
  }

  // ---- removing ----

  /** A removal's answers. */
  lemma RemoveAnswers(s: State, user: Id, credential: Id, readsUp: bool, deletes: DeleteAnswer, commits: bool)
    ensures var thrown := Remove(s, user, credential, readsUp, deletes, commits).1;
            var mine := DevicesOf(s.devices, user);
            var there := user in s.linked && readsUp && credential in mine;
            var allowed := there && (s.mfaRequired ==> |mine| >= 2);
            && (thrown == None <==> allowed && deletes == Deleted && commits)
            && (thrown == Some(DeviceNotFound) <==>
                  user in s.linked && readsUp && (credential !in mine || (allowed && deletes == Gone)))
            && (thrown == Some(MfaRequiredLastDevice) <==> there && s.mfaRequired && |mine| == 1)
            && (thrown == Some(IdentityUnavailable) <==> user !in s.linked || !readsUp || (allowed && deletes == Down))
            && (thrown == Some(CommitFailed) <==> allowed && deletes == Deleted && !commits)
  {
    var mine := DevicesOf(s.devices, user);
    if credential in mine {
      OneLeft(mine, credential);
      assert mine == {} ==> credential !in mine;
      assert |mine| != 0;
    }
  }

  /** The device goes exactly when the identity server says so, and the audit event is written exactly on success. */
  lemma RemoveLeaves(s: State, user: Id, credential: Id, readsUp: bool, deletes: DeleteAnswer, commits: bool)
    ensures var (s', thrown) := Remove(s, user, credential, readsUp, deletes, commits);
            var mine := DevicesOf(s.devices, user);
            && s' == s.(devices := s'.devices, audits := s'.audits)
            && s'.audits == s.audits + (if thrown == None then [MfaRemoved(user, credential)] else [])
            && s'.devices == if thrown == None || thrown == Some(CommitFailed)
                             then s.devices[user := mine - {credential}] else s.devices
  {
  }
}

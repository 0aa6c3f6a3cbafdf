/**
  When two users of a tenant can end up with the same address but for its case. The check before a
  change ignores case and may have read an old table; the unique index is current and compares case.
*/
module EmailChangeCollisions {
  import opened Prelude
  import opened Strings
  import opened Templates
  import opened Outbox
  import opened EmailChange
  import opened EmailChangeRuns
  import opened EmailChangeSafety
  import AccountPolicy

  /** A change that was committed has set the address of its user, and nobody else's. */
  predicate Sets(s: State, s': State, user: Uuid, reply: Reply) {
    if reply.Changed?
    then user in s.db.users && s'.db.users == s.db.users[user := s.db.users[user].(email := reply.email)]
    else s'.db.users == s.db.users
  }

  lemma RequestSets(s: State, e: Env, user: Uuid, input: BodyField)
    ensures var (s', reply) := Request(s, e, user, input); Sets(s, s', user, reply)
  {
  }

  lemma ConfirmSets(s: State, e: Env, user: Uuid, input: BodyField)
    ensures var (s', reply) := Confirm(s, e, user, input); Sets(s, s', user, reply)
  {
  }

  lemma SetDistinctIff(users: map<Uuid, User>, user: Uuid, email: string)
    requires Distinct(users) && user in users
    ensures Distinct(users[user := users[user].(email := email)]) <==> !TakenBy(users, user, email)
  {
    var after := users[user := users[user].(email := email)];
    if v :| v in users && v != user && Lower(users[v].email) == Lower(email) {
      assert after[v] == users[v] && after[user].email == email;
    }
  }

  /**
    The step is an immediate request or a confirm that nothing refuses and whose commit goes through,
    for an address that somebody else has at that time, in any case.
  */
  ghost predicate Collides(s: State, step: Step) {
    match step
    case DoRequest(user, input, e) =>
      e.commits && RequestPushes(s, e, user, input) && TakenBy(s.db.users, user, EmailOf(input).value)
    case DoConfirm(user, input, e) =>
      e.commits && ConfirmPasses(s, e, user, input) && TakenBy(s.db.users, user, Opened(s, user, input).newEmail)
    case _ => false
  }

  lemma RequestChangesIff(s: State, e: Env, user: Uuid, input: BodyField)
    ensures var reply := Request(s, e, user, input).1;
            && (reply.Changed? <==> e.commits && RequestPushes(s, e, user, input))
            && (reply.Changed? ==> reply.email == EmailOf(input).value)
  {
  }

  lemma ConfirmChangesIff(s: State, e: Env, user: Uuid, input: BodyField)
    ensures var reply := Confirm(s, e, user, input).1;
            && (reply.Changed? <==> e.commits && ConfirmPasses(s, e, user, input))
            && (reply.Changed? ==> reply.email == Opened(s, user, input).newEmail)
  {
  }

  /** From distinct addresses, a step leads to distinct ones exactly when it does not collide. */
  lemma DistinctStepIff(w: World, step: Step)
    requires Distinct(w.s.db.users)
    ensures Distinct(Apply(w, step).s.db.users) <==> !Collides(w.s, step)
  {
    match step {
      case DoRequest(user, input, e) =>
        RequestSets(w.s, e, user, input);
        RequestChangesIff(w.s, e, user, input);
        var reply := Request(w.s, e, user, input).1;
        if reply.Changed? { SetDistinctIff(w.s.db.users, user, reply.email); }
      case DoConfirm(user, input, e) =>
        ConfirmSets(w.s, e, user, input);
        ConfirmChangesIff(w.s, e, user, input);
        var reply := Confirm(w.s, e, user, input).1;
        if reply.Changed? { SetDistinctIff(w.s.db.users, user, reply.email); }
      case _ =>
    }
  }

  /**
    Over any run, whatever the stored addresses look like and however old the tables were that the
    checks read: the addresses are distinct throughout exactly when no step collides where it is taken.
  */
  lemma DistinctThroughoutIff(w: World, steps: seq<Step>)
    requires Distinct(w.s.db.users)
    ensures (forall n :: 0 <= n <= |steps| ==> Distinct(Run(w, steps[..n]).s.db.users)) <==>
            (forall n :: 0 <= n < |steps| ==> !Collides(Run(w, steps[..n]).s, steps[n]))
  {
    if forall n :: 0 <= n <= |steps| ==> Distinct(Run(w, steps[..n]).s.db.users) {
      forall n | 0 <= n < |steps| ensures !Collides(Run(w, steps[..n]).s, steps[n]) {
        RunOneMore(w, steps, n);
        assert Distinct(Run(w, steps[..n]).s.db.users) && Distinct(Run(w, steps[..n + 1]).s.db.users);
        DistinctStepIff(Run(w, steps[..n]), steps[n]);
      }
    }
    if forall n :: 0 <= n < |steps| ==> !Collides(Run(w, steps[..n]).s, steps[n]) {
      forall n | 0 <= n <= |steps| ensures Distinct(Run(w, steps[..n]).s.db.users) {
        DistinctSoFar(w, steps, n);
      }
    }
  }

  lemma {:induction false} DistinctSoFar(w: World, steps: seq<Step>, n: nat)
    requires n <= |steps| && Distinct(w.s.db.users)
    requires forall k :: 0 <= k < |steps| ==> !Collides(Run(w, steps[..k]).s, steps[k])
    ensures Distinct(Run(w, steps[..n]).s.db.users)
  {
    if n > 0 {
      DistinctSoFar(w, steps, n - 1);
      RunOneMore(w, steps, n - 1);
      DistinctStepIff(Run(w, steps[..n - 1]), steps[n - 1]);
    }
  }

  // ---- a collision ----

  predicate Letter(c: char) { 'a' <= c <= 'z' }

  lemma PlainAddress(s: string)
    requires |s| == 8 && s[3] == '@' && s[5] == '.' && forall k :: 0 <= k < 8 && k != 3 && k != 5 ==> Letter(s[k])
    ensures EmailOf(Typed(s)) == Some(s) && Lower(s) == s && RecipientOk(s) && '@' in s
  {
    PlainCharacters(s);
    AddressAt(s, 3, 5);
    RecipientAt(s, 3);
  }

  lemma PlainCharacters(s: string)
    requires s != [] && forall k :: 0 <= k < |s| ==> s[k] == '@' || s[k] == '.' || 'a' <= s[k] <= 'z'
    ensures Trim(s) == s && Lower(s) == s && forall k :: 0 <= k < |s| ==> !IsControl(s[k]) && !IsSpace(s[k])
  {
    TrimmedUnique(s, 0, |s|);
    assert s[0..|s|] == s;
  }

  lemma AddressAt(s: string, at: nat, dot: nat)
    requires 0 < at && at + 1 < dot < |s| - 1 && s[at] == '@' && s[dot] == '.'
    requires forall k :: 0 <= k < |s| && k != at ==> s[k] == '.' || 'a' <= s[k] <= 'z'
    ensures AddressOk(s)
  {
    assert forall k :: 0 <= k < |s| && k != at ==> AddressChar(s[k]);
  }

  lemma RecipientAt(s: string, at: nat)
    requires 0 < at < |s| - 1 && |s| <= 320 && s[at] == '@'
    requires forall k :: 0 <= k < |s| ==> !IsSpace(s[k]) && (k != at ==> s[k] != '@')
    ensures RecipientOk(s)
  {
  }

  /** Two users; the second one has been made in the meantime and is not linked yet. */
  function Clash(u: Uuid, v: Uuid, own: string, stored: string): State {
    State(Db(map[u := User(own, Some(1), true), v := User(stored, None, true)], map[], map[], [],
      AccountPolicy.IMMEDIATE),
          map[1 := Account(own, "en")])
  }

  /** The stored address of the other one is the one typed but for its case. */
  predicate OnlyCaseApart(own: string, stored: string, typed: string) {
    && EmailOf(Typed(typed)) == Some(typed) && Lower(typed) == typed && '@' in typed
    && Lower(stored) == typed && stored != typed
    && RecipientOk(own) && Lower(own) != typed
  }

  /** A check that read the table before `v` was in it. */
  predicate StaleView(e: Env, u: Uuid, own: string) {
    && e.readsUp && e.searchUp && e.write == Taken && e.commits && !e.limited
    && e.seen == map[u := User(own, Some(1), true)]
  }

  /**
    If the stored address has a capital letter and the check read an old table, the index sees two
    different texts and the change goes through to the same address but for its case.
  */
  lemma StaleCheckCollides(u: Uuid, v: Uuid, e: Env, own: string, stored: string, typed: string)
    requires u != v && OnlyCaseApart(own, stored, typed) && StaleView(e, u, own)
    ensures var s := Clash(u, v, own, stored);
            var (s', reply) := Request(s, e, u, Typed(typed));
            Distinct(s.db.users) && reply == Changed(typed) && !Distinct(s'.db.users)
  {
    var s, input := Clash(u, v, own, stored), Typed(typed);
    TakenByCapital(s.db.users, u, v, stored, typed);
    NothingRefuses(u, v, e, own, stored, typed);
    RequestSets(s, e, u, input);
    RequestChangesIff(s, e, u, input);
    SetDistinctIff(s.db.users, u, typed);
  }

  lemma TakenByCapital(users: map<Uuid, User>, u: Uuid, v: Uuid, stored: string, typed: string)
    requires u != v && users.Keys == {u, v} && users[v].email == stored && Lower(users[u].email) != typed
    requires Lower(stored) == typed && Lower(typed) == typed && stored != typed
    ensures TakenBy(users, u, typed) && !IndexTaken(users, u, typed) && Distinct(users)
  {
  }

  lemma NothingRefuses(u: Uuid, v: Uuid, e: Env, own: string, stored: string, typed: string)
    requires u != v && OnlyCaseApart(own, stored, typed) && StaleView(e, u, own)
    ensures RequestPushes(Clash(u, v, own, stored), e, u, Typed(typed))
  {
    var s := Clash(u, v, own, stored);
    TakenByCapital(s.db.users, u, v, stored, typed);
    NoticePasses(map[], e, u, Account(own, "en"), typed);
    assert AdmitRefusal(s, e, u, Typed(typed)) == None;
  }

  lemma NoticePasses(t: Table, e: Env, u: Uuid, account: Account, email: string)
    requires t == map[] && RecipientOk(account.email) && account.locale == "en" && '@' in email
    ensures EnqueueCode(Enqueue(t, e.outboxId, ChangedMail(email, e.now, account, u, e.nonce), e.now)) == None
  {
    assert |ChangedKey(u, e.nonce)| <= 200;
  }

  /** For example. */
  lemma StaleCheckCanCollide(u: Uuid, v: Uuid, e: Env)
    requires u != v && StaleView(e, u, "bob@x.co")
    ensures var s := Clash(u, v, "bob@x.co", "Ann@x.co");
            var (s', reply) := Request(s, e, u, Typed("ann@x.co"));
            Distinct(s.db.users) && reply == Changed("ann@x.co") && !Distinct(s'.db.users)
  {
    var own, stored, typed := "bob@x.co", "Ann@x.co", "ann@x.co";
    AnnAndBob(own, stored, typed);
    StaleCheckCollides(u, v, e, own, stored, typed);
  }

  lemma AnnAndBob(own: string, stored: string, typed: string)
    requires own == "bob@x.co" && stored == "Ann@x.co" && typed == "ann@x.co"
    ensures OnlyCaseApart(own, stored, typed)
  {
    PlainAddress(typed);
    PlainAddress(own);
    CapitalLowers(stored, typed);
    assert own[0] != typed[0];
  }

  lemma CapitalLowers(stored: string, typed: string)
    requires |stored| == |typed| > 0 && stored[0] == 'A' && typed[0] == 'a' && stored[1..] == typed[1..]
    requires Lower(typed) == typed
    ensures Lower(stored) == typed && stored != typed
  {
    forall k | 0 <= k < |stored| ensures Lower(stored)[k] == typed[k] {
      assert k > 0 ==> stored[k] == stored[1..][k - 1] == typed[k] == Lower(typed)[k];
    }
  }
}

/**
  The last device of a user while removals, additions and policy changes interleave. A removal holds the
  user's lock from its reads to the deletion, so removals exclude each other; additions do not take it.
*/
module TotpDevices {
  import opened Prelude
  import opened Totp

  /** How far the running removal is; `seen` are the devices that it read. */
  datatype Removal =
    | Idle
    | DevicesRead(target: Id, seen: set<Id>)
    | Approved(target: Id, seen: set<Id>, sawRequired: bool)

  datatype Guarded = Guarded(devices: set<Id>, required: bool, removal: Removal)

  datatype Move =
    | ReadDevices(target: Id) | ReadPolicy | Delete(ok: bool) | Add(device: Id) | SetRequired(required: bool)

  function Play(g: Guarded, m: Move): Guarded {
    match m
    case ReadDevices(target) =>
      if g.removal.Idle? && target in g.devices then g.(removal := DevicesRead(target, g.devices)) else g
    case ReadPolicy =>
      if !g.removal.DevicesRead? then g
      else if g.required && |g.removal.seen| <= 1 then g.(removal := Idle)
      else g.(removal := Approved(g.removal.target, g.removal.seen, g.required))
    case Delete(ok) =>
      if !g.removal.Approved? then g
      else g.(devices := if ok then g.devices - {g.removal.target} else g.devices, removal := Idle)
    case Add(device) => g.(devices := g.devices + {device})
    case SetRequired(required) => g.(required := required)
  }

  function Plays(g: Guarded, moves: seq<Move>): Guarded
    decreases |moves|
  {
    if moves == [] then g else Play(Plays(g, Init(moves)), Last(moves))
  }

  /** What a removal saw is still there: only removals delete, and they exclude each other. */
  predicate SeenStillThere(g: Guarded) {
    match g.removal
    case Idle => true
    case DevicesRead(target, seen) => target in seen && seen <= g.devices
    case Approved(target, seen, sawRequired) => target in seen && seen <= g.devices && (sawRequired ==> |seen| >= 2)
  }

  lemma SeenStep(g: Guarded, m: Move)
    requires SeenStillThere(g)
    ensures SeenStillThere(Play(g, m))
  {
  }

  lemma {:induction false} SeenRun(g: Guarded, moves: seq<Move>)
    requires g.removal.Idle?
    ensures SeenStillThere(Plays(g, moves))
    decreases |moves|
  {
    if moves != [] {
      SeenRun(g, Init(moves));
      SeenStep(Plays(g, Init(moves)), Last(moves));
    }
  }

  /** The deletion that a removal is about to ask for takes the only device there is. */
  predicate AboutToEmpty(g: Guarded) {
    g.removal.Approved? && g.devices == {g.removal.target}
  }

  /**
    After any moves, the next one takes the last device exactly when it is a deletion that succeeds, of
    a removal whose target is the only device; and such a removal had read that MFA was not required.
  */
  lemma LastDeviceLostIff(g: Guarded, moves: seq<Move>, m: Move)
    requires g.removal.Idle? && Plays(g, moves).devices != {}
    ensures var before := Plays(g, moves);
            && (Play(before, m).devices == {} <==> m == Delete(true) && AboutToEmpty(before))
            && (AboutToEmpty(before) ==> !before.removal.sawRequired)
  {
    SeenRun(g, moves);
    var before := Plays(g, moves);
    if AboutToEmpty(before) {
      SubsetSize(before.removal.seen, before.devices);
    }
  }

  lemma SubsetSize(s: set<Id>, t: set<Id>)
    requires s <= t
    ensures |s| <= |t|
  {
    assert t == s + (t - s);
    assert |t| == |s| + |t - s|;
  }

  /** A device is safe: no removal, running or to come, can take the last one while MFA stays required. */
  predicate Safe(g: Guarded) {
    g.required && g.devices != {} && SeenStillThere(g) && !AboutToEmpty(g)
  }

  predicate StaysRequired(moves: seq<Move>) {
    forall k :: 0 <= k < |moves| ==> moves[k] != SetRequired(false)
  }

  lemma TakenFromMore(s: set<Id>, x: Id)
    requires s != {} && s != {x}
    ensures s - {x} != {}
  {
    assert s <= {x} <==> s == {x} || s == {};
    assert s - {x} == {} <==> s <= {x};
  }

  lemma SafeStep(g: Guarded, m: Move)
    requires Safe(g) && m != SetRequired(false)
    ensures Safe(Play(g, m))
  {
    var g' := Play(g, m);
    SeenStep(g, m);
    if g.removal.Approved? && m == Delete(true) {
      TakenFromMore(g.devices, g.removal.target);
    }
    if g'.removal.Approved? && AboutToEmpty(g') { SubsetSize(g'.removal.seen, g'.devices); }
  }

  lemma {:induction false} SafeRun(g: Guarded, moves: seq<Move>)
    requires Safe(g) && StaysRequired(moves)
    ensures Safe(Plays(g, moves))
    decreases |moves|
  {
    if moves != [] {
      assert StaysRequired(Init(moves));
      SafeRun(g, Init(moves));
      SafeStep(Plays(g, Init(moves)), Last(moves));
    }
  }

  ghost predicate Empties(g: Guarded, more: seq<Move>) {
    StaysRequired(more) && Plays(g, more).devices == {}
  }

  /**
    What can be checked when MFA is switched on: after any moves, a user with a device can lose the last
    one while MFA stays required exactly when a removal is under way that has been approved and whose
    target is the only device.
  */
  lemma LastDevicePossibleIff(g: Guarded, moves: seq<Move>)
    requires g.removal.Idle?
    requires Plays(g, moves).required && Plays(g, moves).devices != {}
    ensures var now := Plays(g, moves);
            (exists more :: Empties(now, more)) <==> AboutToEmpty(now)
  {
    var now := Plays(g, moves);
    SeenRun(g, moves);
    if AboutToEmpty(now) {
      var more := [Delete(true)];
      assert Init(more) == [] && Plays(now, []) == now;
      assert Empties(now, more);
    } else if more :| Empties(now, more) {
      SafeRun(now, more);
    }
  }

  /** In particular, while MFA stays required, a user who has a device keeps one. */
  lemma RequiredKeepsADevice(g: Guarded, moves: seq<Move>)
    requires g.removal.Idle? && g.required && g.devices != {}
    requires forall k :: 0 <= k < |moves| ==> moves[k] != SetRequired(false)
    ensures Plays(g, moves).devices != {} && Plays(g, moves).required
  {
    SafeRun(g, moves);
  }

  /** Switching MFA on between a removal's policy read and its deletion leaves a user without a device. */
  lemma SwitchingOnTooLate()
    ensures var g := Guarded({1}, false, Idle);
            var end := Plays(g, [ReadDevices(1), ReadPolicy, SetRequired(true), Delete(true)]);
            end.required && end.devices == {}
  {
    var g := Guarded({1}, false, Idle);
    var a, b, c, d := ReadDevices(1), ReadPolicy, SetRequired(true), Delete(true);
    assert Init([a, b, c, d]) == [a, b, c] && Init([a, b, c]) == [a, b] && Init([a, b]) == [a] && Init([a]) == [];
    assert Plays(g, []) == g && Plays(g, [a]) == Play(g, a);
    assert Plays(g, [a, b]) == Guarded({1}, false, Approved(1, {1}, false));
  }

  /** The moves of a removal that nothing disturbs. */
  function RemovalMoves(credential: Id, ok: bool): seq<Move> { [ReadDevices(credential), ReadPolicy, Delete(ok)] }

  /** They do to the user's devices what the method does, whether the last commit goes through or not. */
  lemma RemovalIsPlayed(s: State, user: Id, credential: Id, deletes: DeleteAnswer, commits: bool)
    requires user in s.linked
    ensures Plays(Guarded(DevicesOf(s.devices, user), s.mfaRequired, Idle),
            RemovalMoves(credential, deletes == Deleted))
            == Guarded(DevicesOf(Remove(s, user, credential, true, deletes, commits).0.devices, user),
                       s.mfaRequired, Idle)
  {
    var mine := DevicesOf(s.devices, user);
    var g := Guarded(mine, s.mfaRequired, Idle);
    if credential in mine { OneLeft(mine, credential); }
    PlaysThree(g, ReadDevices(credential), ReadPolicy, Delete(deletes == Deleted));
  }

  lemma PlaysThree(g: Guarded, a: Move, b: Move, c: Move)
    ensures Plays(g, [a, b, c]) == Play(Play(Play(g, a), b), c)
  {
    assert Init([a, b, c]) == [a, b] && Init([a, b]) == [a] && Init([a]) == [];
    assert Plays(g, []) == g && Plays(g, [a]) == Play(g, a) && Plays(g, [a, b]) == Play(Play(g, a), b);
  }
}

/** Whose calls are heard: over whole runs, what a Claim, Release, Disconnect or Stop does, and
    who may start a verify, an enroll, a delete or a stop. */
module DaemonClaims {
  import opened Bytes
  import opened Outcomes
  import opened Storage
  import opened Device
  import opened Daemon
  import opened DaemonSafety
  import Worker

  // ----- the claim that stands -----

  /** A Release or a disconnect that ends a claim made under this name. */
  predicate Ends(step: Step, name: BusName) {
    || step == ReleaseStep(None) || step == ReleaseStep(Some(name)) || step == DisconnectStep(name)
  }

  /** The `j`th step was this user's successful Claim under this name, and up to the `n`th
      step nothing ended it or took it over. */
  ghost predicate Standing(states: seq<State>, steps: seq<Step>, n: nat, j: nat, user: User, name: BusName) {
    && j < n <= |steps| && n < |states| && steps[j] == ClaimStep(user, name)
    && (states[j].claims.claimedBy == None
        || (states[j].claims.claimedBy == Some(user) && states[j].claims.action == None))
    && forall m :: j < m < n ==>
         && !Ends(steps[m], name)
         && !(steps[m].ClaimStep? && steps[m].user == user && states[m].claims.action == None)
  }

  ghost predicate Stands(states: seq<State>, steps: seq<Step>, n: nat, user: User, name: BusName) {
    exists j: nat :: Standing(states, steps, n, j, user, name)
  }

  ghost predicate Holder(s: State, user: User, name: BusName) {
    s.claims.claimedBy == Some(user) && s.claims.claimSender == Some(name)
  }

  /** What any step does to the claim. */
  lemma ClaimMoves(s: State, step: Step, t: State, threshold: nat, capacity: nat, user: User, name: BusName)
    requires Next(s, step, t, threshold, capacity) && Held(s)
    ensures Held(t)
    ensures Holder(s, user, name) ==>
              && (Ends(step, name) ==> t.claims.claimedBy == None)
              && (step.ClaimStep? && step.user == user && s.claims.action == None ==> Holder(t, user, step.name))
              && (!Ends(step, name) && !(step.ClaimStep? && step.user == user && s.claims.action == None) ==>
                    Holder(t, user, name))
    ensures s.claims.claimedBy == None ==> if step.ClaimStep? then Holder(t, step.user, step.name) else t.claims.claimedBy == None
  {
    if step.Advance? {
      hide AdvanceProc;
      AdvanceKeepsClaim(s, step.pid, threshold, capacity, step.input);
    } else {
      hide AdvanceProc;
    }
  }

  /** A claim has a user and a name, or neither. */
  predicate Held(s: State) {
    s.claims.claimedBy.Some? <==> s.claims.claimSender.Some?
  }

  ghost predicate SameClaim(s: State, t: State) {
    t.claims.claimedBy == s.claims.claimedBy && t.claims.claimSender == s.claims.claimSender
  }

  lemma AdvanceKeepsClaim(s: State, pid: nat, threshold: nat, capacity: nat, input: Input)
    requires pid in s.procs
    ensures SameClaim(s, AdvanceProc(s, pid, threshold, capacity, input))
  {
    hide AdvanceVerify, AdvanceEnroll, DeleteGate, DeleteWork, AdvanceStop, IsVerify, IsEnroll, Working, SameClaim;
    var p := s.procs[pid];
    if IsVerify(p) {
      VerifyKeepsClaim(s, pid, p, threshold, input);
    } else if IsEnroll(p) {
      EnrollKeepsClaim(s, pid, p, capacity, input);
    } else if p.StopEntry? {
      StopKeepsClaim(s, pid, p);
    } else if Working(p) {
      WorkKeepsClaim(s, pid, p, input);
    } else {
      GateKeepsClaim(s, pid, p, input);
    }
  }

  lemma VerifyKeepsClaim(s: State, pid: nat, p: Proc, threshold: nat, input: Input)
    ensures SameClaim(s, AdvanceVerify(s, pid, p, threshold, input))
  {
    hide Worker.Decide, Expected, UserSlots, Succeeded;
  }

  lemma EnrollKeepsClaim(s: State, pid: nat, p: Proc, capacity: nat, input: Input)
    ensures SameClaim(s, AdvanceEnroll(s, pid, p, capacity, input))
  {
    hide SlotOf, Lowest, SetSlot, UserSlots, Succeeded;
  }

  lemma GateKeepsClaim(s: State, pid: nat, p: Proc, input: Input)
    ensures SameClaim(s, DeleteGate(s, pid, p, input))
  {
    hide IsOrderOf, SlotOf, UserSlots;
  }

  lemma WorkKeepsClaim(s: State, pid: nat, p: Proc, input: Input)
    ensures SameClaim(s, DeleteWork(s, pid, p, input))
  {
    hide Succeeded, RemoveFinger;
  }

  lemma StopKeepsClaim(s: State, pid: nat, p: Proc)
    requires p.StopEntry?
    ensures SameClaim(s, AdvanceStop(s, pid, p))
  {
  }

  /** The state's claim is the one that stands. */
  ghost predicate ClaimKnown(states: seq<State>, steps: seq<Step>, n: nat)
    requires n < |states|
  {
    forall user, name :: Holder(states[n], user, name) <==> Stands(states, steps, n, user, name)
  }

  lemma StandsBy(states: seq<State>, steps: seq<Step>, n: nat, j: nat, user: User, name: BusName)
    requires Standing(states, steps, n, j, user, name)
    ensures Stands(states, steps, n, user, name)
  {
    hide Standing;
  }

  /** One more step. */
  lemma StandsOn(states: seq<State>, steps: seq<Step>, threshold: nat, capacity: nat, n: nat, user: User, name: BusName)
    requires 0 < n <= |steps| && n < |states| && Next(states[n - 1], steps[n - 1], states[n], threshold, capacity)
    requires Held(states[n - 1])
    requires ClaimKnown(states, steps, n - 1)
    ensures Holder(states[n], user, name) <==> Stands(states, steps, n, user, name)
  {
    hide Next, Ends;
    var s, step, t := states[n - 1], steps[n - 1], states[n];
    ClaimMoves(s, step, t, threshold, capacity, user, name);
    if Holder(t, user, name) {
      HolderStands(states, steps, threshold, capacity, n, user, name);
    }
    if Stands(states, steps, n, user, name) {
      var j: nat :| Standing(states, steps, n, j, user, name);
      if j == n - 1 {
        if s.claims.claimedBy == Some(user) {
          ClaimMoves(s, step, t, threshold, capacity, user, s.claims.claimSender.value);
        }
      } else {
        assert Standing(states, steps, n - 1, j, user, name);
        StandsBy(states, steps, n - 1, j, user, name);
      }
    }
  }

  lemma HolderStands(states: seq<State>, steps: seq<Step>, threshold: nat, capacity: nat, n: nat, user: User, name: BusName)
    requires 0 < n <= |steps| && n < |states| && Next(states[n - 1], steps[n - 1], states[n], threshold, capacity)
    requires Held(states[n - 1]) && Holder(states[n], user, name)
    requires ClaimKnown(states, steps, n - 1)
    ensures Stands(states, steps, n, user, name)
  {
    hide Next, Ends;
    var s, step, t := states[n - 1], steps[n - 1], states[n];
    if s.claims.claimedBy == None {
      ClaimMoves(s, step, t, threshold, capacity, user, name);
      StandsBy(states, steps, n, n - 1, user, name);
    } else {
      var u, a := s.claims.claimedBy.value, s.claims.claimSender.value;
      ClaimMoves(s, step, t, threshold, capacity, u, a);
      assert Holder(s, u, a);
      if step.ClaimStep? && step.user == u && s.claims.action == None {
        StandsBy(states, steps, n, n - 1, user, name);
      } else {
        var j: nat :| Standing(states, steps, n - 1, j, u, a);
        assert Standing(states, steps, n, j, u, a);
        StandsBy(states, steps, n, j, u, a);
      }
    }
  }

  /** In every run the device is claimed by a user under a name exactly while such a Claim
      stands. */
  lemma {:induction false} ClaimStands(states: seq<State>, steps: seq<Step>, threshold: nat, capacity: nat, n: nat)
    requires IsRun(states, steps, threshold, capacity) && n <= |steps|
    ensures Held(states[n])
    ensures ClaimKnown(states, steps, n)
  {
    hide Next, Stands, NoForeignTemplate, Injective;
    if n == 0 {
      assert forall user, name :: !Stands(states, steps, 0, user, name) by {
        forall user, name ensures !Stands(states, steps, 0, user, name) {
          NothingStands(states, steps, user, name);
        }
      }
    } else {
      ClaimStands(states, steps, threshold, capacity, n - 1);
      assert Next(states[n - 1], steps[n - 1], states[n - 1 + 1], threshold, capacity);
      hide Init;
      HeldOn(states[n - 1], steps[n - 1], states[n], threshold, capacity);
      hide IsRun, Held, Holder;
      forall user, name ensures Holder(states[n], user, name) <==> Stands(states, steps, n, user, name) {
        StandsOn(states, steps, threshold, capacity, n, user, name);
      }
    }
  }

  lemma HeldOn(s: State, step: Step, t: State, threshold: nat, capacity: nat)
    requires Next(s, step, t, threshold, capacity) && Held(s)
    ensures Held(t)
  {
    hide Next, Held;
    ClaimMoves(s, step, t, threshold, capacity, [], []);
  }

  lemma NothingStands(states: seq<State>, steps: seq<Step>, user: User, name: BusName)
    ensures !Stands(states, steps, 0, user, name)
  {
  }

  // ----- who may call -----

  predicate IsCall(step: Step) {
    step.StopCall? || step.VerifyStart? || step.EnrollStart? || step.DeleteClaimed? || step.DeleteOne?
  }

  /** The process a heard call becomes, for the user whose claim stands. */
  function Called(step: Step, user: User): Proc
    requires IsCall(step)
  {
    match step
    case StopCall(_, _, kind) => StopEntry(kind)
    case VerifyStart(_, _, selected) => VerifyEntry(user, selected)
    case EnrollStart(_, _, finger) => EnrollEntry(user, finger)
    case DeleteClaimed(_, _) => DeleteEntry(user)
    case DeleteOne(_, _, finger) => DeleteOneEntry(user, finger)
  }

  lemma CallHeard(s: State, step: Step, t: State, threshold: nat, capacity: nat, user: User, name: BusName)
    requires Next(s, step, t, threshold, capacity) && IsCall(step) && Holder(s, user, name)
    ensures t == if step.sender == None || step.sender == Some(name) then At(s, step.pid, Called(step, user)) else s
  {
  }

  lemma CallUnclaimed(s: State, step: Step, t: State, threshold: nat, capacity: nat)
    requires Next(s, step, t, threshold, capacity) && IsCall(step) && s.claims.claimedBy == None
    ensures t == s
  {
  }

  /** In every run: a verify, an enroll, a delete or a stop begins, for the user of the claim
      that stands, exactly when the caller is the one that made this claim, or is not known;
      anybody else's call, and any call while no claim stands, leaves the state as it was. */
  lemma CallsNeedTheClaim(states: seq<State>, steps: seq<Step>, threshold: nat, capacity: nat, n: nat)
    requires IsRun(states, steps, threshold, capacity) && n < |steps| && IsCall(steps[n])
    ensures forall user, name :: Stands(states, steps, n, user, name) ==>
              states[n + 1] == if steps[n].sender == None || steps[n].sender == Some(name)
                               then At(states[n], steps[n].pid, Called(steps[n], user)) else states[n]
    ensures (forall user, name :: !Stands(states, steps, n, user, name)) ==> states[n + 1] == states[n]
  {
    ClaimStands(states, steps, threshold, capacity, n);
    hide Stands, Init, Next;
    assert Next(states[n], steps[n], states[n + 1], threshold, capacity);
    hide IsRun, IsCall, Called;
    forall user, name | Stands(states, steps, n, user, name)
      ensures states[n + 1] == if steps[n].sender == None || steps[n].sender == Some(name)
                               then At(states[n], steps[n].pid, Called(steps[n], user)) else states[n]
    {
      CallHeard(states[n], steps[n], states[n + 1], threshold, capacity, user, name);
    }
    if states[n].claims.claimedBy == None {
      CallUnclaimed(states[n], steps[n], states[n + 1], threshold, capacity);
    } else {
      assert Holder(states[n], states[n].claims.claimedBy.value, states[n].claims.claimSender.value);
    }
  }

  // ----- claim, release, disconnect, stop -----

  /** Claimed by nobody, and no action in flight; its token, if any, is taken away. */
  function Released(s: State): State {
    s.(claims := s.claims.(claimedBy := None, claimSender := None, action := None),
       cleared := if s.claims.action == None then s.cleared else s.cleared + [Cleared(s.claims.action.value, false)])
  }

  function TakenBy(s: State, user: User, name: BusName): State {
    s.(claims := s.claims.(claimedBy := Some(user), claimSender := Some(name)))
  }

  lemma ClaimedMoves(s: State, step: Step, t: State, threshold: nat, capacity: nat, user: User, name: BusName)
    requires Next(s, step, t, threshold, capacity) && Holder(s, user, name)
    ensures step.ReleaseStep? || step.DisconnectStep? ==> t == if Ends(step, name) then Released(s) else s
    ensures step.ClaimStep? ==>
              t == if step.user == user && s.claims.action == None then TakenBy(s, user, step.name) else s
  {
    hide AdvanceProc;
  }

  lemma UnclaimedMoves(s: State, step: Step, t: State, threshold: nat, capacity: nat)
    requires Next(s, step, t, threshold, capacity) && s.claims.claimedBy == None && Held(s)
    ensures step.ReleaseStep? || step.DisconnectStep? ==> t == s
    ensures step.ClaimStep? ==> t == TakenBy(s, step.user, step.name)
  {
    hide AdvanceProc;
  }

  /** In every run: a Release by the claimer, or by a caller not known, and the claimer's
      disconnect take the claim and any action with it, and by anybody else change nothing;
      a Claim is granted while none stands, or to the same user while no action is in
      flight, and otherwise changes nothing. */
  lemma ClaimsAndReleases(states: seq<State>, steps: seq<Step>, threshold: nat, capacity: nat, n: nat)
    requires IsRun(states, steps, threshold, capacity) && n < |steps|
    ensures var s, step, t := states[n], steps[n], states[n + 1];
            && (step.ReleaseStep? || step.DisconnectStep? ==>
                  && (forall user, name :: Stands(states, steps, n, user, name) ==>
                        t == if Ends(step, name) then Released(s) else s)
                  && ((forall user, name :: !Stands(states, steps, n, user, name)) ==> t == s))
            && (step.ClaimStep? ==>
                  && (forall user, name :: Stands(states, steps, n, user, name) ==>
                        t == if step.user == user && s.claims.action == None then TakenBy(s, user, step.name) else s)
                  && ((forall user, name :: !Stands(states, steps, n, user, name)) ==> t == TakenBy(s, step.user, step.name)))
  {
    ClaimStands(states, steps, threshold, capacity, n);
    hide Stands, Init, Next;
    assert Next(states[n], steps[n], states[n + 1], threshold, capacity);
    hide IsRun, Ends, Released, TakenBy;
    var s, step, t := states[n], steps[n], states[n + 1];
    forall user, name | Stands(states, steps, n, user, name)
      ensures step.ReleaseStep? || step.DisconnectStep? ==> t == if Ends(step, name) then Released(s) else s
      ensures step.ClaimStep? ==>
                t == if step.user == user && s.claims.action == None then TakenBy(s, user, step.name) else s
    {
      ClaimedMoves(s, step, t, threshold, capacity, user, name);
    }
    if s.claims.claimedBy == None {
      UnclaimedMoves(s, step, t, threshold, capacity);
    } else {
      assert Holder(s, s.claims.claimedBy.value, s.claims.claimSender.value);
    }
  }

  /** A stop that was heard takes the action's token away if the action is of its own kind,
      and otherwise ends without any effect. */
  lemma StopsOnlyItsKind(s: State, pid: nat, kind: ActionKind, t: State, threshold: nat, capacity: nat, input: Input)
    requires PermitInv(s) && pid in s.procs && s.procs[pid] == StopEntry(kind)
    requires Next(s, Advance(pid, input), t, threshold, capacity)
    ensures t == if s.claims.action.Some? && s.claims.action.value.kind == kind
                 then At(s, pid, Finished).(claims := s.claims.(action := None),
                                            cleared := s.cleared + [Cleared(s.claims.action.value, false)])
                 else At(s, pid, Finished)
  {
    hide AdvanceVerify, AdvanceEnroll, AdvanceDelete;
    assert !Holds(s.procs[pid]);
  }
}

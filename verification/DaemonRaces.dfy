/** When deletes overlap, and runs in which a registered finger loses its template. */
module DaemonRaces {
  import opened Bytes
  import opened Outcomes
  import opened Storage
  import opened Device
  import opened Worker
  import opened Daemon
  import opened DaemonSafety
  import opened DaemonTokens
  import opened DaemonActions
  import opened DaemonTemplates

  // ----- when a second delete can begin -----

  /** In every interleaving in which no delete's token is taken from it, at most one delete is
      between its mint and its end. */
  lemma OneDeleteAtATime(states: seq<State>, steps: seq<Step>, threshold: nat, capacity: nat, a: nat, b: nat)
    requires IsRun(states, steps, threshold, capacity) && |states[|steps|].mints| <= TWO_64
    requires DeletesKeepTokens(states[|steps|])
    requires var s := states[|steps|];
             a in s.procs && b in s.procs && ActingDelete(s.procs[a]) && ActingDelete(s.procs[b])
    ensures a == b
  {
    hide Init, Next, DeletesKeepTokens, ActingDelete, HoldInv, RemovedFromOutside;
    var s := states[|steps|];
    ActsOnToken(s.procs[a]);
    ActsOnToken(s.procs[b]);
    HoldAlways(states, steps, threshold, capacity);
    DeleteHolds(s, a);
    DeleteHolds(s, b);
    if a != b {
      OneActionAtATime(states, steps, threshold, capacity, a, b);
      NotRemoved(s, TokenOf(s.procs[a]).value);
    }
  }

  lemma NotRemoved(s: State, token: Token)
    requires DeletesKeepTokens(s) && token.kind == DeleteAction
    ensures !RemovedFromOutside(s, token)
  {
  }

  /** A new delete of this user's fingers, run as far as its token, would be the second. */
  ghost predicate SecondBegins(s: State, pid: nat, q: nat, user: User, threshold: nat, capacity: nat) {
    exists t, u ::
      && Next(s, DeleteAll(q, user), t, threshold, capacity) && Next(t, Advance(q, Go), u, threshold, capacity)
      && BothDelete(u, pid, q)
  }

  predicate BothDelete(s: State, a: nat, b: nat) {
    a in s.procs && b in s.procs && ActingDelete(s.procs[a]) && ActingDelete(s.procs[b])
  }

  /** While a delete is unfinished, another can begin exactly when the action slot is empty;
      and, with at most 2^64 starts, that is only when the first one's token was taken from
      it. */
  lemma SecondDeleteExactly(states: seq<State>, steps: seq<Step>, threshold: nat, capacity: nat, pid: nat,
                            q: nat, user: User)
    requires IsRun(states, steps, threshold, capacity) && |states[|steps|].mints| <= TWO_64
    requires var s := states[|steps|]; pid in s.procs && ActingDelete(s.procs[pid]) && q !in s.procs
    ensures var s := states[|steps|];
            && (SecondBegins(s, pid, q, user, threshold, capacity) <==> s.claims.action == None)
            && (s.claims.action == None ==> RemovedFromOutside(s, TokenOf(s.procs[pid]).value))
  {
    hide Init, Next, Holding, RemovedFromOutside;
    var s := states[|steps|];
    HoldAlways(states, steps, threshold, capacity);
    ActsOnToken(s.procs[pid]);
    assert Holding(s, pid, s.procs[pid]);
    RemovedIfFree(s, pid);
    SecondBeginsExactly(s, pid, q, user, threshold, capacity);
  }

  lemma ActsOnToken(p: Proc)
    requires ActingDelete(p)
    ensures Acting(p)
  {
  }

  lemma RemovedIfFree(s: State, pid: nat)
    requires pid in s.procs && Acting(s.procs[pid]) && Holding(s, pid, s.procs[pid])
    ensures s.claims.action == None ==> RemovedFromOutside(s, TokenOf(s.procs[pid]).value)
  {
    hide RemovedFromOutside;
  }

  function Entering(s: State, q: nat, user: User): State {
    At(s, q, DeleteEntry(user))
  }

  lemma SecondBeginsExactly(s: State, pid: nat, q: nat, user: User, threshold: nat, capacity: nat)
    requires pid in s.procs && ActingDelete(s.procs[pid]) && q !in s.procs
    ensures SecondBegins(s, pid, q, user, threshold, capacity) <==> s.claims.action == None
  {
    hide ActingDelete, AdvanceVerify, AdvanceEnroll, StartAction, UserSlots;
    var t := Entering(s, q, user);
    var u := AdvanceProc(t, q, threshold, capacity, Go);
    assert Next(s, DeleteAll(q, user), t, threshold, capacity) && Next(t, Advance(q, Go), u, threshold, capacity);
    Begins(s, pid, q, user, threshold, capacity);
  }

  lemma Begins(s: State, pid: nat, q: nat, user: User, threshold: nat, capacity: nat)
    requires pid in s.procs && ActingDelete(s.procs[pid]) && q !in s.procs
    ensures BothDelete(AdvanceProc(Entering(s, q, user), q, threshold, capacity, Go), pid, q) <==> s.claims.action == None
  {
    hide AdvanceVerify, AdvanceEnroll, StartAction, UserSlots;
  }

  // ----- runs, phase by phase -----

  /** A condition on steps that a run is to keep. */
  datatype Care = Full | ButLateRow | ButStaleSlot | ButLostReply

  ghost predicate Careful(s: State, step: Step, care: Care) {
    && (care.ButLostReply? || Truthful(s, step))
    && (care.ButLateRow? || NoLateRow(s, step))
    && (care.ButStaleSlot? || StillItsSlot(s, step))
  }

  ghost predicate IsPath(states: seq<State>, steps: seq<Step>, s: State, t: State, threshold: nat,
                         capacity: nat, care: Care) {
    && |states| == |steps| + 1 && states[0] == s && states[|steps|] == t
    && forall i :: 0 <= i < |steps| ==>
         Next(states[i], steps[i], states[i + 1], threshold, capacity) && Careful(states[i], steps[i], care)
  }

  ghost predicate Leads(s: State, t: State, threshold: nat, capacity: nat, care: Care) {
    exists states, steps :: IsPath(states, steps, s, t, threshold, capacity, care)
  }

  lemma LeadsBy(s: State, step: Step, t: State, threshold: nat, capacity: nat, care: Care)
    requires Next(s, step, t, threshold, capacity) && Careful(s, step, care)
    ensures Leads(s, t, threshold, capacity, care)
  {
    hide Next, Careful;
    assert IsPath([s, t], [step], s, t, threshold, capacity, care);
  }

  lemma LeadsOn(s: State, t: State, u: State, threshold: nat, capacity: nat, care: Care)
    requires Leads(s, t, threshold, capacity, care) && Leads(t, u, threshold, capacity, care)
    ensures Leads(s, u, threshold, capacity, care)
  {
    hide Next, Careful;
    var before, first :| IsPath(before, first, s, t, threshold, capacity, care);
    var after, second :| IsPath(after, second, t, u, threshold, capacity, care);
    var states, steps := before + after[1..], first + second;
    forall i | 0 <= i < |steps|
      ensures Next(states[i], steps[i], states[i + 1], threshold, capacity) && Careful(states[i], steps[i], care)
    {
      if i < |first| {
        assert states[i] == before[i] && states[i + 1] == before[i + 1];
      } else {
        assert states[i] == after[i - |first|] && states[i + 1] == after[i - |first| + 1];
      }
    }
    assert IsPath(states, steps, s, u, threshold, capacity, care);
  }

  lemma Advances(s: State, pid: nat, input: Input, t: State, threshold: nat, capacity: nat, care: Care)
    requires pid in s.procs && t == AdvanceProc(s, pid, threshold, capacity, input) && Careful(s, Advance(pid, input), care)
    ensures Leads(s, t, threshold, capacity, care)
  {
    hide AdvanceProc, Careful, Leads;
    LeadsBy(s, Advance(pid, input), t, threshold, capacity, care);
  }

  lemma PlainIsCareful(s: State, pid: nat, input: Input, care: Care)
    requires pid in s.procs
    requires var p := s.procs[pid]; !p.DeleteAsked? && !p.DeleteEntry? && !p.DeleteOneFound?
    ensures Careful(s, Advance(pid, input), care)
  {
    hide OnlyAt;
  }

  /** What the phases below leave alone unless they say otherwise. */
  ghost predicate Rest(s: State, t: State) {
    && t.users == s.users && t.templates == s.templates && t.queue == s.queue
    && t.claims.claimedBy == s.claims.claimedBy && t.claims.claimSender == s.claims.claimSender
    && |t.mints| <= |s.mints| + 1
    && (DeletesKeepTokens(s) ==> DeletesKeepTokens(t))
  }

  predicate ClaimedBy(s: State, user: User, name: BusName) {
    s.claims.claimedBy == Some(user) && s.claims.claimSender == Some(name)
  }

  lemma EndingKeeps(s: State, token: Token, t: State)
    requires t.cleared == Ended(s, token).cleared || t.cleared == s.cleared
    ensures DeletesKeepTokens(s) ==> DeletesKeepTokens(t)
  {
  }

  /** Claiming a free device. */
  lemma Claiming(s: State, user: User, name: BusName, threshold: nat, capacity: nat, care: Care) returns (t: State)
    requires s.claims.claimedBy == None && s.claims.action == None
    ensures Leads(s, t, threshold, capacity, care)
    ensures ClaimedBy(t, user, name) && t.claims.action == None
    ensures t.users == s.users && t.templates == s.templates && t.queue == s.queue
    ensures t.procs == s.procs && t.permit == s.permit
    ensures |t.mints| == |s.mints|
    ensures DeletesKeepTokens(s) ==> DeletesKeepTokens(t)
  {
    t := s.(claims := s.claims.(claimedBy := Some(user), claimSender := Some(name)));
    LeadsBy(s, ClaimStep(user, name), t, threshold, capacity, care);
  }

  /** Releasing it, whatever is in flight. */
  lemma Releasing(s: State, user: User, name: BusName, threshold: nat, capacity: nat, care: Care) returns (t: State)
    requires ClaimedBy(s, user, name)
    ensures Leads(s, t, threshold, capacity, care)
    ensures t.claims.claimedBy == None && t.claims.action == None
    ensures t.users == s.users && t.templates == s.templates && t.queue == s.queue
    ensures t.procs == s.procs && t.permit == s.permit
    ensures |t.mints| == |s.mints|
    ensures s.claims.action == None && DeletesKeepTokens(s) ==> DeletesKeepTokens(t)
  {
    t := WithClaims(s, Freed(s.claims));
    LeadsBy(s, ReleaseStep(Some(name)), t, threshold, capacity, care);
  }

  // ----- a delete -----

  /** A delete of all the claimed user's fingers, up to its token. */
  lemma DeleteMints(s: State, pid: nat, user: User, name: BusName, threshold: nat, capacity: nat, care: Care)
    returns (t: State, token: Token)
    requires ClaimedBy(s, user, name) && s.claims.action == None && pid !in s.procs
    requires care.ButLateRow? || forall other :: !Storing(s, other)
    ensures Leads(s, t, threshold, capacity, care) && Rest(s, t) && t.permit == s.permit
    ensures t.procs == s.procs[pid := DeleteMinted(user, token)] && t.claims.action == Some(token)
  {
    hide AdvanceVerify, AdvanceEnroll, UserSlots, OnlyAt, Leads;
    var entered := At(s, pid, DeleteEntry(user));
    LeadsBy(s, DeleteClaimed(pid, Some(name)), entered, threshold, capacity, care);
    token := StartAction(s.claims, DeleteAction).1;
    t := AdvanceProc(entered, pid, threshold, capacity, Go);
    assert forall other :: Storing(entered, other) <==> Storing(s, other);
    Advances(entered, pid, Go, t, threshold, capacity, care);
    LeadsOn(s, entered, t, threshold, capacity, care);
  }

  lemma OnlyTarget(finger: Finger, slot: byte)
    ensures IsOrderOf([Target(finger, slot)], map[finger := slot])
  {
  }

  /** Its user has one finger. */
  lemma DeleteLists(s: State, pid: nat, user: User, token: Token, finger: Finger, slot: byte, threshold: nat,
                    capacity: nat, care: Care)
    returns (t: State)
    requires pid in s.procs && s.procs[pid] == DeleteMinted(user, token) && UserSlots(s.users, user) == map[finger := slot]
    ensures Leads(s, t, threshold, capacity, care) && Rest(s, t) && t.permit == s.permit && t.claims == s.claims
    ensures t.procs == s.procs[pid := DeleteNext(user, token, [Target(finger, slot)], [])]
  {
    hide AdvanceVerify, AdvanceEnroll, UserSlots, IsOrderOf, Leads, Careful;
    var targets := [Target(finger, slot)];
    OnlyTarget(finger, slot);
    t := AdvanceProc(s, pid, threshold, capacity, Order(targets));
    PlainIsCareful(s, pid, Order(targets), care);
    Advances(s, pid, Order(targets), t, threshold, capacity, care);
  }

  lemma DeleteAsks(s: State, pid: nat, user: User, token: Token, target: Target, threshold: nat, capacity: nat,
                   care: Care)
    returns (t: State)
    requires pid in s.procs && s.procs[pid] == DeleteNext(user, token, [target], [])
    ensures Leads(s, t, threshold, capacity, care)
    ensures t == Asking(s, pid, false, DeleteAsked(user, token, [target], []))
  {
    hide AdvanceVerify, AdvanceEnroll, UserSlots, DeleteGate, Leads, Careful;
    t := AdvanceProc(s, pid, threshold, capacity, Go);
    PlainIsCareful(s, pid, Go, care);
    Advances(s, pid, Go, t, threshold, capacity, care);
  }

  function Gone(): Reply {
    FromSensor(Value(0, 0))
  }

  /** The sensor is free and does as it is asked. */
  lemma DeleteClears(s: State, pid: nat, user: User, token: Token, target: Target, threshold: nat,
                     capacity: nat, care: Care)
    returns (t: State)
    requires pid in s.procs && s.procs[pid] == DeleteNext(user, token, [target], []) && s.queue == []
    ensures Leads(s, t, threshold, capacity, care)
    ensures t == s.(procs := s.procs[pid := DeleteNext(user, token, [], [target.finger])],
                    templates := s.templates - {target.slot})
  {
    hide AdvanceVerify, AdvanceEnroll, DeleteGate, Leads;
    var asked := DeleteAsks(s, pid, user, token, target, threshold, capacity, care);
    t := AdvanceProc(asked, pid, threshold, capacity, Answered(Gone(), false, true));
    assert asked.queue[1..] == [] && [target][1..] == [] && [] + [target.finger] == [target.finger];
    assert t.procs == s.procs[pid := DeleteNext(user, token, [], [target.finger])];
    Advances(asked, pid, Answered(Gone(), false, true), t, threshold, capacity, care);
    LeadsOn(s, asked, t, threshold, capacity, care);
  }

  lemma DropsRows(s: State, pid: nat, user: User, token: Token, finger: Finger, threshold: nat, capacity: nat,
                  care: Care)
    returns (t: State)
    requires pid in s.procs && s.procs[pid] == DeleteNext(user, token, [], [finger])
    ensures Leads(s, t, threshold, capacity, care)
    ensures t == s.(users := RemoveFinger(s.users, user, finger), procs := s.procs[pid := DeleteRows(user, token, [])])
  {
    hide AdvanceVerify, AdvanceEnroll, DeleteGate, Leads, RemoveFinger, Careful;
    var s1 := AdvanceProc(s, pid, threshold, capacity, Go);
    assert s1 == At(s, pid, DeleteRows(user, token, [finger]));
    PlainIsCareful(s, pid, Go, care);
    Advances(s, pid, Go, s1, threshold, capacity, care);
    t := AdvanceProc(s1, pid, threshold, capacity, Go);
    assert [finger][1..] == [];
    PlainIsCareful(s1, pid, Go, care);
    Advances(s1, pid, Go, t, threshold, capacity, care);
    LeadsOn(s, s1, t, threshold, capacity, care);
  }

  lemma DeleteEnds(s: State, pid: nat, user: User, token: Token, threshold: nat, capacity: nat,
                   care: Care) returns (t: State)
    requires pid in s.procs && s.procs[pid] == DeleteRows(user, token, []) && s.permit != Some(pid)
    ensures Leads(s, t, threshold, capacity, care) && Rest(s, t) && t.permit == s.permit
    ensures t.procs == s.procs[pid := Finished] && t.claims == EndActionIfOwner(s.claims, token).0
  {
    hide AdvanceVerify, AdvanceEnroll, DeleteGate, Leads, Careful, DeletesKeepTokens;
    var s1 := AdvanceProc(s, pid, threshold, capacity, Go);
    assert s1 == At(s, pid, DeleteEnd(token));
    PlainIsCareful(s, pid, Go, care);
    Advances(s, pid, Go, s1, threshold, capacity, care);
    t := AdvanceProc(s1, pid, threshold, capacity, Go);
    EndingKeeps(s, token, t);
    PlainIsCareful(s1, pid, Go, care);
    Advances(s1, pid, Go, t, threshold, capacity, care);
    LeadsOn(s, s1, t, threshold, capacity, care);
  }

  /** From the one cleared template to the end. */
  lemma DeleteDrops(s: State, pid: nat, user: User, token: Token, finger: Finger, threshold: nat,
                    capacity: nat, care: Care)
    returns (t: State)
    requires pid in s.procs && s.procs[pid] == DeleteNext(user, token, [], [finger]) && s.permit != Some(pid)
    ensures Leads(s, t, threshold, capacity, care) && Rest(s.(users := t.users), t) && t.permit == s.permit
    ensures t.users == RemoveFinger(s.users, user, finger) && t.procs == s.procs[pid := Finished]
    ensures t.claims == EndActionIfOwner(s.claims, token).0
  {
    hide Leads, RemoveFinger, EndActionIfOwner, DeletesKeepTokens;
    var s1 := DropsRows(s, pid, user, token, finger, threshold, capacity, care);
    t := DeleteEnds(s1, pid, user, token, threshold, capacity, care);
    assert t.procs == s.procs[pid := Finished];
    SameCleared(s.(users := t.users), s1);
    LeadsOn(s, s1, t, threshold, capacity, care);
  }

  /** All of it, for a user with one finger. */
  lemma DeleteRuns(s: State, pid: nat, user: User, name: BusName, finger: Finger, slot: byte, threshold: nat,
                   capacity: nat, care: Care)
    returns (t: State)
    requires ClaimedBy(s, user, name) && s.claims.action == None && pid !in s.procs && s.queue == [] && s.permit != Some(pid)
    requires s.users == map[user := map[finger := slot]]
    requires care.ButLateRow? || forall other :: !Storing(s, other)
    ensures Leads(s, t, threshold, capacity, care) && t.users == map[] && t.templates == s.templates - {slot}
    ensures t.procs == s.procs[pid := Finished] && t.permit == s.permit && t.queue == []
    ensures ClaimedBy(t, user, name) && t.claims.action == None && |t.mints| <= |s.mints| + 3
    ensures DeletesKeepTokens(s) ==> DeletesKeepTokens(t)
  {
    hide Leads, DeletesKeepTokens;
    var s1, token := DeleteMints(s, pid, user, name, threshold, capacity, care);
    var s2 := DeleteLists(s1, pid, user, token, finger, slot, threshold, capacity, care);
    var s3 := DeleteClears(s2, pid, user, token, Target(finger, slot), threshold, capacity, care);
    SameCleared(s2, s3);
    t := DeleteDrops(s3, pid, user, token, finger, threshold, capacity, care);
    SameCleared(s3, s3.(users := t.users));
    LastRow(user, finger, slot);
    assert t.procs == s.procs[pid := Finished];
    LeadsOn(s, s1, s2, threshold, capacity, care);
    LeadsOn(s, s2, s3, threshold, capacity, care);
    LeadsOn(s, s3, t, threshold, capacity, care);
  }

  lemma SameCleared(s: State, t: State)
    requires s.cleared == t.cleared
    ensures DeletesKeepTokens(s) <==> DeletesKeepTokens(t)
  {
  }

  lemma LastRow(user: User, finger: Finger, slot: byte)
    ensures RemoveFinger(map[user := map[finger := slot]], user, finger) == map[]
  {
    var users := map[user := map[finger := slot]];
    assert users[user] - {finger} == map[];
    assert users - {user} == map[];
  }

  // ----- an enroll -----

  /** The finger's own slot, or the lowest free one. */
  predicate Chosen(users: Users, user: User, finger: Finger, slot: byte, capacity: nat) {
    match SlotOf(users, user, finger)
    case Some(old_) => slot == old_
    case None => Lowest(users, capacity, 0) == Some(slot)
  }

  lemma EnrollMints(s: State, pid: nat, user: User, name: BusName, finger: Finger, threshold: nat,
                    capacity: nat, care: Care)
    returns (t: State, token: Token)
    requires ClaimedBy(s, user, name) && s.claims.action == None && pid !in s.procs && s.permit == None
    ensures Leads(s, t, threshold, capacity, care) && Rest(s, t)
    ensures t.procs == s.procs[pid := EnrollMinted(user, finger, token)] && t.permit == Some(pid)
    ensures t.claims.action == Some(token)
  {
    hide AdvanceVerify, AdvanceDelete, UserSlots, Leads, Careful, SlotOf, Lowest, SetSlot;
    var s1 := At(s, pid, EnrollEntry(user, finger));
    EntryIsCareful(s, EnrollStart(pid, Some(name), finger), care);
    LeadsBy(s, EnrollStart(pid, Some(name), finger), s1, threshold, capacity, care);
    var s2 := AdvanceProc(s1, pid, threshold, capacity, Go);
    assert s2 == At(s, pid, EnrollPermit(user, finger)).(permit := Some(pid));
    PlainIsCareful(s1, pid, Go, care);
    Advances(s1, pid, Go, s2, threshold, capacity, care);
    token := StartAction(s.claims, EnrollAction).1;
    t := AdvanceProc(s2, pid, threshold, capacity, Go);
    PlainIsCareful(s2, pid, Go, care);
    Advances(s2, pid, Go, t, threshold, capacity, care);
    assert t.procs == s.procs[pid := EnrollMinted(user, finger, token)];
    LeadsOn(s, s1, s2, threshold, capacity, care);
    LeadsOn(s, s2, t, threshold, capacity, care);
  }

  lemma EntryIsCareful(s: State, step: Step, care: Care)
    requires !step.Advance?
    ensures Careful(s, step, care)
  {
  }

  lemma EnrollPicks(s: State, pid: nat, user: User, finger: Finger, token: Token, slot: byte, threshold: nat,
                    capacity: nat, care: Care)
    returns (t: State)
    requires pid in s.procs && s.procs[pid] == EnrollMinted(user, finger, token) && Chosen(s.users, user, finger, slot, capacity)
    ensures Leads(s, t, threshold, capacity, care)
    ensures t == At(s, pid, EnrollAsk(user, finger, token, slot))
  {
    hide AdvanceVerify, AdvanceDelete, UserSlots, Leads, Careful, SlotOf, Lowest, SetSlot;
    var s1 := AdvanceProc(s, pid, threshold, capacity, Go);
    PlainIsCareful(s, pid, Go, care);
    Advances(s, pid, Go, s1, threshold, capacity, care);
    if SlotOf(s.users, user, finger).Some? {
      t := s1;
    } else {
      t := AdvanceProc(s1, pid, threshold, capacity, Go);
      PlainIsCareful(s1, pid, Go, care);
      Advances(s1, pid, Go, t, threshold, capacity, care);
      LeadsOn(s, s1, t, threshold, capacity, care);
    }
  }

  function Stored(slot: byte): Reply {
    FromSensor(Value(slot, 0))
  }

  lemma EnrollAnswered(s: State, pid: nat, user: User, finger: Finger, token: Token, slot: byte,
                       threshold: nat, capacity: nat, care: Care)
    returns (t: State)
    requires pid in s.procs && s.procs[pid] == EnrollAsk(user, finger, token, slot) && s.queue == []
    ensures Leads(s, t, threshold, capacity, care)
    ensures t == s.(procs := s.procs[pid := EnrollEnd(user, finger, token, slot, true)],
                    templates := s.templates[slot := Owner(user, finger)])
  {
    hide AdvanceVerify, AdvanceDelete, UserSlots, Leads, Careful, SlotOf, Lowest, SetSlot;
    var s1 := AdvanceProc(s, pid, threshold, capacity, Go);
    PlainIsCareful(s, pid, Go, care);
    Advances(s, pid, Go, s1, threshold, capacity, care);
    var answer := Answered(Stored(slot), false, true);
    t := AdvanceProc(s1, pid, threshold, capacity, answer);
    assert s1.queue[1..] == [];
    PlainIsCareful(s1, pid, answer, care);
    Advances(s1, pid, answer, t, threshold, capacity, care);
    LeadsOn(s, s1, t, threshold, capacity, care);
  }

  lemma EnrollGivesBack(s: State, pid: nat, user: User, finger: Finger, token: Token, slot: byte,
                        threshold: nat, capacity: nat, care: Care)
    returns (t: State)
    requires pid in s.procs && s.procs[pid] == EnrollEnd(user, finger, token, slot, true) && s.claims.action == Some(token)
    ensures Leads(s, t, threshold, capacity, care) && Rest(s, t) && t.permit == s.permit
    ensures t.procs == s.procs[pid := EnrollStore(user, finger, token, slot)] && t.claims.action == None
  {
    hide AdvanceVerify, AdvanceDelete, UserSlots, Leads, Careful, SlotOf, Lowest, SetSlot;
    t := AdvanceProc(s, pid, threshold, capacity, Go);
    PlainIsCareful(s, pid, Go, care);
    Advances(s, pid, Go, t, threshold, capacity, care);
  }

  /** An enroll whose template is in the sensor, about to register its slot. */
  lemma EnrollReachesStore(s: State, pid: nat, user: User, name: BusName, finger: Finger, slot: byte,
                           threshold: nat, capacity: nat, care: Care)
    returns (t: State, token: Token)
    requires ClaimedBy(s, user, name) && s.claims.action == None && pid !in s.procs && s.permit == None && s.queue == []
    requires Chosen(s.users, user, finger, slot, capacity)
    ensures Leads(s, t, threshold, capacity, care) && t.users == s.users && t.queue == []
    ensures t.procs == s.procs[pid := EnrollStore(user, finger, token, slot)] && t.permit == Some(pid)
    ensures t.templates == s.templates[slot := Owner(user, finger)]
    ensures ClaimedBy(t, user, name) && t.claims.action == None && |t.mints| <= |s.mints| + 3
    ensures DeletesKeepTokens(s) ==> DeletesKeepTokens(t)
  {
    hide Leads, DeletesKeepTokens, Chosen;
    var s1;
    s1, token := EnrollMints(s, pid, user, name, finger, threshold, capacity, care);
    var s2 := EnrollPicks(s1, pid, user, finger, token, slot, threshold, capacity, care);
    var s3 := EnrollAnswered(s2, pid, user, finger, token, slot, threshold, capacity, care);
    SameCleared(s1, s3);
    t := EnrollGivesBack(s3, pid, user, finger, token, slot, threshold, capacity, care);
    assert t.procs == s.procs[pid := EnrollStore(user, finger, token, slot)];
    LeadsOn(s, s1, s2, threshold, capacity, care);
    LeadsOn(s, s2, s3, threshold, capacity, care);
    LeadsOn(s, s3, t, threshold, capacity, care);
  }

  /** It registers the slot and is over. */
  lemma EnrollStoresRow(s: State, pid: nat, user: User, finger: Finger, token: Token, slot: byte,
                        threshold: nat, capacity: nat, care: Care)
    returns (t: State)
    requires pid in s.procs && s.procs[pid] == EnrollStore(user, finger, token, slot) && s.permit == Some(pid)
    ensures Leads(s, t, threshold, capacity, care) && Rest(s.(users := t.users), t)
    ensures t.users == SetSlot(s.users, user, finger, slot) && t.claims == s.claims
    ensures t.procs == s.procs[pid := Finished] && t.permit == None
  {
    hide AdvanceVerify, AdvanceDelete, UserSlots, Leads, Careful, SlotOf, Lowest, SetSlot;
    var s1 := AdvanceProc(s, pid, threshold, capacity, Go);
    PlainIsCareful(s, pid, Go, care);
    Advances(s, pid, Go, s1, threshold, capacity, care);
    t := AdvanceProc(s1, pid, threshold, capacity, Go);
    assert t.procs == s.procs[pid := Finished];
    PlainIsCareful(s1, pid, Go, care);
    Advances(s1, pid, Go, t, threshold, capacity, care);
    LeadsOn(s, s1, t, threshold, capacity, care);
  }

  // ----- what can happen -----

  /** A row whose template is gone, and which no delete is about to drop. */
  ghost predicate Lost(s: State, user: User, finger: Finger) {
    && SlotOf(s.users, user, finger).Some? && SlotOf(s.users, user, finger).value !in s.templates
    && !IsDropping(s, user, finger)
  }

  /** A run of careful steps, in which deletes keep their tokens if that is asked for, from a
      sensor that agrees with the registry to a state in which this row is lost. */
  ghost predicate CanLose(user: User, finger: Finger, threshold: nat, capacity: nat, care: Care, kept: bool) {
    exists states: seq<State>, steps: seq<Step> ::
      && IsRun(states, steps, threshold, capacity) && Complete(states[0])
      && (forall i :: 0 <= i < |steps| ==> Careful(states[i], steps[i], care))
      && Lost(states[|steps|], user, finger) && |states[|steps|].mints| <= TWO_64
      && (kept ==> DeletesKeepTokens(states[|steps|]))
  }

  /** One user with one finger. */
  function Start(user: User, finger: Finger, slot: byte): State {
    State(Claims(None, None, None, 0), map[user := map[finger := slot]], map[slot := Owner(user, finger)],
          None, map[], [], [], [], [])
  }

  lemma StartIsInit(user: User, finger: Finger, slot: byte)
    ensures var s := Start(user, finger, slot); Init(s) && Complete(s) && DeletesKeepTokens(s)
  {
  }

  lemma RunTo(s: State, t: State, user: User, finger: Finger, threshold: nat, capacity: nat, care: Care, kept: bool)
    requires Init(s) && Complete(s) && Leads(s, t, threshold, capacity, care)
    requires Lost(t, user, finger) && |t.mints| <= TWO_64 && (kept ==> DeletesKeepTokens(t))
    ensures CanLose(user, finger, threshold, capacity, care, kept)
  {
    hide Next, Init, Complete, Careful, Lost, DeletesKeepTokens;
    var states, steps :| IsPath(states, steps, s, t, threshold, capacity, care);
    assert IsRun(states, steps, threshold, capacity);
  }

  lemma FirstIsFree(capacity: nat, user: User, finger: Finger)
    requires capacity > 0
    ensures Chosen(map[], user, finger, 0, capacity)
  {
  }

  /** Somebody else enrolls into the one slot, and is released again. */
  lemma OtherEnrolls(s: State, pid: nat, user: User, name: BusName, finger: Finger, threshold: nat,
                     capacity: nat, care: Care)
    returns (t: State)
    requires s.claims.claimedBy == None && s.claims.action == None && pid !in s.procs && s.permit == None && s.queue == []
    requires s.users == map[] && s.templates == map[] && capacity > 0
    ensures Leads(s, t, threshold, capacity, care) && t.users == SetSlot(map[], user, finger, 0)
    ensures t.procs == s.procs[pid := Finished] && t.permit == None && t.queue == []
    ensures t.claims.claimedBy == None && t.claims.action == None && |t.mints| <= |s.mints| + 4
    ensures DeletesKeepTokens(s) ==> DeletesKeepTokens(t)
  {
    hide Leads, DeletesKeepTokens, SetSlot, Chosen;
    var s1 := Claiming(s, user, name, threshold, capacity, care);
    FirstIsFree(capacity, user, finger);
    var s2, token := EnrollReachesStore(s1, pid, user, name, finger, 0, threshold, capacity, care);
    var s3 := EnrollStoresRow(s2, pid, user, finger, token, 0, threshold, capacity, care);
    SameCleared(s2, s2.(users := s3.users));
    t := Releasing(s3, user, name, threshold, capacity, care);
    assert t.procs == s.procs[pid := Finished];
    LeadsOn(s, s1, s2, threshold, capacity, care);
    LeadsOn(s, s2, s3, threshold, capacity, care);
    LeadsOn(s, s3, t, threshold, capacity, care);
  }

  lemma RowIsLost(t: State, user: User, finger: Finger, other: User)
    requires t.users == SetSlot(map[], user, finger, 0) && 0 !in t.templates && user != other
    requires forall pid :: pid in t.procs ==>
               t.procs[pid].Finished? || (t.procs[pid].DeleteNext? && t.procs[pid].user == other)
    ensures Lost(t, user, finger)
  {
    SetSlotRows(map[], user, finger, 0, user, finger);
    hide SlotOf, SetSlot;
  }

  /** The device is claimed and its user's one finger listed for deletion. */
  lemma Listed(s: State, user: User, name: BusName, finger: Finger, slot: byte, threshold: nat, capacity: nat,
               care: Care)
    returns (t: State, token: Token)
    requires s == Start(user, finger, slot)
    ensures Leads(s, t, threshold, capacity, care)
    ensures t.procs == map[0 := DeleteNext(user, token, [Target(finger, slot)], [])]
    ensures t.users == s.users && t.templates == s.templates && t.queue == [] && t.permit == None
    ensures ClaimedBy(t, user, name) && |t.mints| <= 2 && DeletesKeepTokens(t)
  {
    hide Leads, DeletesKeepTokens;
    StartIsInit(user, finger, slot);
    var s1 := Claiming(s, user, name, threshold, capacity, care);
    var s2;
    s2, token := DeleteMints(s1, 0, user, name, threshold, capacity, care);
    t := DeleteLists(s2, 0, user, token, finger, slot, threshold, capacity, care);
    assert t.procs == map[0 := DeleteNext(user, token, [Target(finger, slot)], [])];
    LeadsOn(s, s1, s2, threshold, capacity, care);
    LeadsOn(s, s2, t, threshold, capacity, care);
  }

  /** The device is released meanwhile: the delete goes on without its token. */
  lemma Orphan(s: State, user: User, name: BusName, finger: Finger, slot: byte, threshold: nat, capacity: nat,
               care: Care)
    returns (t: State, token: Token)
    requires s == Start(user, finger, slot)
    ensures Leads(s, t, threshold, capacity, care)
    ensures t.procs == map[0 := DeleteNext(user, token, [Target(finger, slot)], [])]
    ensures t.users == s.users && t.templates == s.templates && t.queue == [] && t.permit == None
    ensures t.claims.claimedBy == None && t.claims.action == None && |t.mints| <= 2
  {
    hide Leads, DeletesKeepTokens;
    var s1;
    s1, token := Listed(s, user, name, finger, slot, threshold, capacity, care);
    t := Releasing(s1, user, name, threshold, capacity, care);
    LeadsOn(s, s1, t, threshold, capacity, care);
  }

  /** Claimed, all fingers deleted, released. */
  lemma ClaimDeleteRelease(s: State, pid: nat, user: User, name: BusName, finger: Finger, slot: byte,
                           threshold: nat, capacity: nat, care: Care)
    returns (t: State)
    requires s.claims.claimedBy == None && s.claims.action == None && pid !in s.procs && s.queue == [] && s.permit == None
    requires s.users == map[user := map[finger := slot]] && s.templates == map[slot := Owner(user, finger)]
    requires forall other :: !Storing(s, other)
    ensures Leads(s, t, threshold, capacity, care) && t.users == map[] && t.templates == map[]
    ensures t.procs == s.procs[pid := Finished] && t.permit == None && t.queue == []
    ensures t.claims.claimedBy == None && t.claims.action == None && |t.mints| <= |s.mints| + 4
    ensures DeletesKeepTokens(s) ==> DeletesKeepTokens(t)
  {
    hide Leads, DeletesKeepTokens;
    var s1 := Claiming(s, user, name, threshold, capacity, care);
    assert forall other :: Storing(s1, other) <==> Storing(s, other);
    var s2 := DeleteRuns(s1, pid, user, name, finger, slot, threshold, capacity, care);
    t := Releasing(s2, user, name, threshold, capacity, care);
    LeadsOn(s, s1, s2, threshold, capacity, care);
    LeadsOn(s, s2, t, threshold, capacity, care);
  }

  /** A delete whose token a Release took goes on clearing slots: with every step tidy, it can
      wipe a template that another user has enrolled there meanwhile. */
  lemma OrphanDeleteLosesARow(user: User, finger: Finger, other: User, otherFinger: Finger, name: BusName,
                              threshold: nat, capacity: nat)
    requires user != other && capacity > 0
    ensures CanLose(other, otherFinger, threshold, capacity, Full, false)
  {
    hide Leads, DeletesKeepTokens, Init, Complete, CanLose, SetSlot;
    var s0 := Start(user, finger, 0);
    StartIsInit(user, finger, 0);
    var s1, token := Orphan(s0, user, name, finger, 0, threshold, capacity, Full);
    var s2 := ClaimDeleteRelease(s1, 1, user, name, finger, 0, threshold, capacity, Full);
    var s3 := OtherEnrolls(s2, 2, other, name, otherFinger, threshold, capacity, Full);
    var s4 := DeleteClears(s3, 0, user, token, Target(finger, 0), threshold, capacity, Full);
    RowIsLost(s4, other, otherFinger, user);
    hide Lost;
    LeadsOn(s0, s1, s2, threshold, capacity, Full);
    LeadsOn(s0, s2, s3, threshold, capacity, Full);
    LeadsOn(s0, s3, s4, threshold, capacity, Full);
    RunTo(s0, s4, other, otherFinger, threshold, capacity, Full, false);
  }

  /** A delete of one finger, as far as looking its slot up; then the device is released. */
  lemma LooksUp(s: State, user: User, name: BusName, finger: Finger, slot: byte, threshold: nat, capacity: nat,
                care: Care)
    returns (t: State)
    requires s == Start(user, finger, slot)
    ensures Leads(s, t, threshold, capacity, care) && t.procs == map[0 := DeleteOneFound(user, finger, slot)]
    ensures t.users == s.users && t.templates == s.templates && t.queue == [] && t.permit == None && t.mints == []
    ensures t.claims.claimedBy == None && t.claims.action == None && DeletesKeepTokens(t)
  {
    hide Leads, AdvanceVerify, AdvanceEnroll, Careful;
    var s1 := Claiming(s, user, name, threshold, capacity, care);
    var s2 := At(s1, 0, DeleteOneEntry(user, finger));
    EntryIsCareful(s1, DeleteOne(0, Some(name), finger), care);
    LeadsBy(s1, DeleteOne(0, Some(name), finger), s2, threshold, capacity, care);
    var s3 := AdvanceProc(s2, 0, threshold, capacity, Go);
    assert s3.procs == map[0 := DeleteOneFound(user, finger, slot)];
    PlainIsCareful(s2, 0, Go, care);
    Advances(s2, 0, Go, s3, threshold, capacity, care);
    t := Releasing(s3, user, name, threshold, capacity, care);
    LeadsOn(s, s1, s2, threshold, capacity, care);
    LeadsOn(s, s2, s3, threshold, capacity, care);
    LeadsOn(s, s3, t, threshold, capacity, care);
  }

  /** It goes on with that slot, whoever's it is by then. */
  lemma DeletesFound(s: State, pid: nat, user: User, finger: Finger, slot: byte, threshold: nat, capacity: nat)
    returns (t: State, token: Token)
    requires pid in s.procs && s.procs[pid] == DeleteOneFound(user, finger, slot) && s.claims.action == None
    requires forall other :: !Storing(s, other)
    ensures Leads(s, t, threshold, capacity, ButStaleSlot) && Rest(s, t) && t.permit == s.permit
    ensures t.procs == s.procs[pid := DeleteNext(user, token, [Target(finger, slot)], [])]
  {
    hide Leads, AdvanceVerify, AdvanceEnroll, UserSlots;
    t := AdvanceProc(s, pid, threshold, capacity, Go);
    token := StartAction(s.claims, DeleteAction).1;
    Advances(s, pid, Go, t, threshold, capacity, ButStaleSlot);
  }

  /** A delete of one finger that looked its slot up before another delete freed it can wipe a
      template that another user has enrolled there meanwhile; every delete keeps its token
      and nothing else is untidy. */
  lemma StaleSlotLosesARow(user: User, finger: Finger, other: User, otherFinger: Finger, name: BusName,
                           threshold: nat, capacity: nat)
    requires user != other && capacity > 0
    ensures CanLose(other, otherFinger, threshold, capacity, ButStaleSlot, true)
  {
    hide Leads, DeletesKeepTokens, Init, Complete, CanLose, SetSlot;
    var s0, care := Start(user, finger, 0), ButStaleSlot;
    StartIsInit(user, finger, 0);
    var s1 := LooksUp(s0, user, name, finger, 0, threshold, capacity, care);
    var s2 := ClaimDeleteRelease(s1, 1, user, name, finger, 0, threshold, capacity, care);
    var s3 := OtherEnrolls(s2, 2, other, name, otherFinger, threshold, capacity, care);
    var s4, token := DeletesFound(s3, 0, user, finger, 0, threshold, capacity);
    var s5 := DeleteClears(s4, 0, user, token, Target(finger, 0), threshold, capacity, care);
    SameCleared(s4, s5);
    RowIsLost(s5, other, otherFinger, user);
    hide Lost;
    LeadsOn(s0, s1, s2, threshold, capacity, care);
    LeadsOn(s0, s2, s3, threshold, capacity, care);
    LeadsOn(s0, s3, s4, threshold, capacity, care);
    LeadsOn(s0, s4, s5, threshold, capacity, care);
    RunTo(s0, s5, other, otherFinger, threshold, capacity, care, true);
  }

  /** An enroll registers its slot after it has given its token back: a delete begun in
      between clears the template first and leaves the row without one; every delete keeps
      its token and nothing else is untidy. */
  lemma LateRowLosesARow(user: User, finger: Finger, name: BusName, threshold: nat, capacity: nat)
    ensures CanLose(user, finger, threshold, capacity, ButLateRow, true)
  {
    hide Leads, DeletesKeepTokens, Init, Complete, CanLose, SetSlot;
    var s0, care := Start(user, finger, 0), ButLateRow;
    StartIsInit(user, finger, 0);
    var s1 := Claiming(s0, user, name, threshold, capacity, care);
    var s2, token := EnrollReachesStore(s1, 0, user, name, finger, 0, threshold, capacity, care);
    var s3 := DeleteRuns(s2, 1, user, name, finger, 0, threshold, capacity, care);
    var s4 := EnrollStoresRow(s3, 0, user, finger, token, 0, threshold, capacity, care);
    SameCleared(s3, s3.(users := s4.users));
    RowIsLost(s4, user, finger, user + [0]);
    hide Lost;
    LeadsOn(s0, s1, s2, threshold, capacity, care);
    LeadsOn(s0, s2, s3, threshold, capacity, care);
    LeadsOn(s0, s3, s4, threshold, capacity, care);
    RunTo(s0, s4, user, finger, threshold, capacity, care, true);
  }

  /** The sensor clears the slot and the reply is lost. */
  lemma LosesReply(s: State, pid: nat, user: User, token: Token, target: Target, threshold: nat, capacity: nat)
    returns (t: State)
    requires pid in s.procs && s.procs[pid] == DeleteNext(user, token, [target], []) && s.queue == []
    ensures Leads(s, t, threshold, capacity, ButLostReply)
    ensures t == s.(procs := s.procs[pid := DeleteNext(user, token, [], [])], templates := s.templates - {target.slot})
  {
    hide AdvanceVerify, AdvanceEnroll, DeleteGate, Leads;
    var answer := Answered(FromSensor(NoReply), false, true);
    var asked := DeleteAsks(s, pid, user, token, target, threshold, capacity, ButLostReply);
    t := AdvanceProc(asked, pid, threshold, capacity, answer);
    assert asked.queue[1..] == [] && [target][1..] == [];
    assert t.procs == s.procs[pid := DeleteNext(user, token, [], [])];
    Advances(asked, pid, answer, t, threshold, capacity, ButLostReply);
    LeadsOn(s, asked, t, threshold, capacity, ButLostReply);
  }

  lemma DropsNothing(s: State, pid: nat, user: User, token: Token, threshold: nat, capacity: nat, care: Care)
    returns (t: State)
    requires pid in s.procs && s.procs[pid] == DeleteNext(user, token, [], [])
    ensures Leads(s, t, threshold, capacity, care)
    ensures t == At(s, pid, DeleteRows(user, token, []))
  {
    hide AdvanceVerify, AdvanceEnroll, DeleteGate, Leads, Careful;
    t := AdvanceProc(s, pid, threshold, capacity, Go);
    PlainIsCareful(s, pid, Go, care);
    Advances(s, pid, Go, t, threshold, capacity, care);
  }

  lemma NothingDropping(t: State, user: User, finger: Finger)
    requires t.procs == map[0 := Finished] && SlotOf(t.users, user, finger) == Some(0) && t.templates == map[]
    ensures Lost(t, user, finger)
  {
    hide SlotOf;
  }

  /** From the lost reply to the end. */
  lemma EndsUnheard(s: State, user: User, token: Token, target: Target, threshold: nat,
                    capacity: nat) returns (t: State)
    requires s.procs == map[0 := DeleteNext(user, token, [target], [])] && s.queue == [] && s.permit == None
    ensures Leads(s, t, threshold, capacity, ButLostReply)
    ensures t.procs == map[0 := Finished] && t.users == s.users && t.templates == s.templates - {target.slot}
    ensures |t.mints| <= |s.mints| + 1 && (DeletesKeepTokens(s) ==> DeletesKeepTokens(t))
  {
    hide Leads, DeletesKeepTokens, EndActionIfOwner;
    var care := ButLostReply;
    var s1 := LosesReply(s, 0, user, token, target, threshold, capacity);
    var s2 := DropsNothing(s1, 0, user, token, threshold, capacity, care);
    SameCleared(s, s2);
    t := DeleteEnds(s2, 0, user, token, threshold, capacity, care);
    assert t.procs == map[0 := Finished];
    LeadsOn(s, s1, s2, threshold, capacity, care);
    LeadsOn(s, s2, t, threshold, capacity, care);
  }

  /** A delete whose reply is lost keeps the row of a template that is gone; every delete
      keeps its token and nothing else is untidy. */
  lemma LostReplyLosesARow(user: User, finger: Finger, name: BusName, threshold: nat, capacity: nat)
    ensures CanLose(user, finger, threshold, capacity, ButLostReply, true)
  {
    hide Leads, DeletesKeepTokens, Init, Complete, CanLose;
    var s0, care := Start(user, finger, 0), ButLostReply;
    StartIsInit(user, finger, 0);
    var s1, token := Listed(s0, user, name, finger, 0, threshold, capacity, care);
    var s2 := EndsUnheard(s1, user, token, Target(finger, 0), threshold, capacity);
    NothingDropping(s2, user, finger);
    hide Lost;
    LeadsOn(s0, s1, s2, threshold, capacity, care);
    RunTo(s0, s2, user, finger, threshold, capacity, care, true);
  }

  // ----- two deletes at once -----

  /** Two deletes, both waiting for the sensor to clear this slot. */
  ghost predicate ClearingTwice(s: State, user: User, target: Target) {
    && 0 in s.procs && s.procs[0].DeleteAsked? && s.procs[0].user == user && s.procs[0].todo == [target]
    && 1 in s.procs && s.procs[1].DeleteAsked? && s.procs[1].user == user && s.procs[1].todo == [target]
    && s.queue == [Request(0, false), Request(1, false)]
  }

  /** Claimed, one finger listed, the sensor asked. */
  lemma ClaimedAndAsked(s: State, pid: nat, user: User, name: BusName, finger: Finger, slot: byte,
                        threshold: nat, capacity: nat)
    returns (t: State, token: Token)
    requires s.claims.claimedBy == None && s.claims.action == None && pid !in s.procs
    requires UserSlots(s.users, user) == map[finger := slot] && forall other :: !Storing(s, other)
    ensures Leads(s, t, threshold, capacity, Full)
    ensures t.procs == s.procs[pid := DeleteAsked(user, token, [Target(finger, slot)], [])]
    ensures t.queue == s.queue + [Request(pid, false)]
  {
    hide Leads, DeletesKeepTokens, UserSlots;
    var s1 := Claiming(s, user, name, threshold, capacity, Full);
    assert forall other :: Storing(s1, other) <==> Storing(s, other);
    var s2;
    s2, token := DeleteMints(s1, pid, user, name, threshold, capacity, Full);
    var s3 := DeleteLists(s2, pid, user, token, finger, slot, threshold, capacity, Full);
    t := DeleteAsks(s3, pid, user, token, Target(finger, slot), threshold, capacity, Full);
    assert t.procs == s.procs[pid := DeleteAsked(user, token, [Target(finger, slot)], [])];
    LeadsOn(s, s1, s2, threshold, capacity, Full);
    LeadsOn(s, s2, s3, threshold, capacity, Full);
    LeadsOn(s, s3, t, threshold, capacity, Full);
  }

  /** Releasing the device clears a delete's token while its sensor work goes on, so a second
      delete of the same finger can run beside it. */
  lemma DeletesOverlap(user: User, finger: Finger, slot: byte, name: BusName, threshold: nat, capacity: nat)
    ensures exists states: seq<State>, steps: seq<Step> ::
              IsRun(states, steps, threshold, capacity) && Complete(states[0]) && AllTidy(states, steps)
              && ClearingTwice(states[|steps|], user, Target(finger, slot))
  {
    hide Leads, DeletesKeepTokens, Init, Complete;
    var s0, target := Start(user, finger, slot), Target(finger, slot);
    StartIsInit(user, finger, slot);
    var s1, first := Orphan(s0, user, name, finger, slot, threshold, capacity, Full);
    var s2 := DeleteAsks(s1, 0, user, first, target, threshold, capacity, Full);
    var s3, second := ClaimedAndAsked(s2, 1, user, name, finger, slot, threshold, capacity);
    LeadsOn(s0, s1, s2, threshold, capacity, Full);
    LeadsOn(s0, s2, s3, threshold, capacity, Full);
    TidyRun(s0, s3, user, target, threshold, capacity);
  }

  lemma TidyRun(s: State, t: State, user: User, target: Target, threshold: nat, capacity: nat)
    requires Init(s) && Complete(s) && Leads(s, t, threshold, capacity, Full) && ClearingTwice(t, user, target)
    ensures exists states: seq<State>, steps: seq<Step> ::
              IsRun(states, steps, threshold, capacity) && Complete(states[0]) && AllTidy(states, steps)
              && ClearingTwice(states[|steps|], user, target)
  {
    hide Next, Init, Complete, Truthful, NoLateRow, StillItsSlot, ClearingTwice;
    var states, steps :| IsPath(states, steps, s, t, threshold, capacity, Full);
    assert IsRun(states, steps, threshold, capacity) && AllTidy(states, steps);
  }
}

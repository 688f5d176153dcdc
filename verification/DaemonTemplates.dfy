/** When every registered finger keeps its template in the sensor. */
module DaemonTemplates {
  import opened Bytes
  import opened Outcomes
  import opened Storage
  import opened Device
  import opened Worker
  import opened Daemon
  import opened DaemonSafety
  import opened DaemonTokens
  import opened DaemonActions

  // ----- what is promised, and when -----

  /** Every row's template is in the sensor. */
  ghost predicate Complete(s: State) {
    forall u, f :: SlotOf(s.users, u, f).Some? ==> SlotOf(s.users, u, f).value in s.templates
  }

  /** A delete that has cleared this finger's template and will drop its row next. */
  predicate Dropping(p: Proc, user: User, finger: Finger) {
    (p.DeleteNext? || p.DeleteAsked? || p.DeleteRows?) && p.user == user && finger in p.gone
  }

  ghost predicate IsDropping(s: State, user: User, finger: Finger) {
    exists pid :: pid in s.procs && Dropping(s.procs[pid], user, finger)
  }

  /** Every row's template is in the sensor, unless a delete is about to drop the row. */
  ghost predicate Accounted(s: State) {
    forall u, f :: SlotOf(s.users, u, f).Some? ==> SlotOf(s.users, u, f).value in s.templates || IsDropping(s, u, f)
  }

  /** An enroll that has given its token back and not yet registered its slot. */
  predicate Storing(s: State, pid: nat) {
    pid in s.procs && s.procs[pid].EnrollStore?
  }

  /** The sensor does not clear a template and report an error. */
  ghost predicate Truthful(s: State, step: Step) {
    step.Advance? && step.pid in s.procs && s.procs[step.pid].DeleteAsked? && step.input.Answered? && step.input.done ==>
      Succeeded(step.input.reply)
  }

  /** No delete begins while an enroll is about to register its slot. */
  ghost predicate NoLateRow(s: State, step: Step) {
    step.Advance? && step.pid in s.procs && s.claims.action == None ==>
      (s.procs[step.pid].DeleteEntry? || s.procs[step.pid].DeleteOneFound? ==> forall other :: !Storing(s, other))
  }

  /** No delete begins of a slot that, since it was looked up, has become another finger's. */
  ghost predicate StillItsSlot(s: State, step: Step) {
    step.Advance? && step.pid in s.procs && s.procs[step.pid].DeleteOneFound? && s.claims.action == None ==>
      var p := s.procs[step.pid];
      OnlyAt(s.users, p.slot, p.user, p.finger)
  }

  ghost predicate Tidy(s: State, step: Step) {
    Truthful(s, step) && NoLateRow(s, step) && StillItsSlot(s, step)
  }

  ghost predicate AllTidy(states: seq<State>, steps: seq<Step>) {
    |steps| <= |states| && forall i :: 0 <= i < |steps| ==> Tidy(states[i], steps[i])
  }

  /** No Release, Disconnect or Stop has taken a delete's token away. */
  ghost predicate DeletesKeepTokens(s: State) {
    forall c :: c in s.cleared && !c.byOwner ==> c.token.kind != DeleteAction
  }

  // ----- the invariant -----

  /** What this process relies on. */
  ghost predicate Relies(s: State, p: Proc) {
    match p
    case EnrollEnd(_, _, token, slot, stored) => stored && !RemovedFromOutside(s, token) ==> slot in s.templates
    case EnrollStore(_, _, _, slot) => slot in s.templates
    case DeleteNext(user, _, todo, _) => forall t :: t in todo ==> OnlyAt(s.users, t.slot, user, t.finger)
    case DeleteAsked(user, _, todo, _) => forall t :: t in todo ==> OnlyAt(s.users, t.slot, user, t.finger)
    case _ => true
  }

  predicate ActingDelete(p: Proc) {
    Working(p) || p.DeleteMinted?
  }

  ghost predicate TemplateInv(s: State) {
    && Accounted(s)
    && (forall pid :: pid in s.procs ==> Relies(s, s.procs[pid]))
    && (forall a, b :: a in s.procs && b in s.procs && ActingDelete(s.procs[a]) ==> !s.procs[b].EnrollStore?)
  }

  /** Nothing in the registry, the sensor or this process's duties changes. */
  ghost predicate Idle(s: State, pid: nat, t: State) {
    && t.users == s.users && t.templates == s.templates && s.cleared <= t.cleared
    && pid in s.procs && pid in t.procs && t.procs == s.procs[pid := t.procs[pid]]
    && !t.procs[pid].EnrollStore?
    && (ActingDelete(t.procs[pid]) ==> ActingDelete(s.procs[pid]) || forall other :: !Storing(s, other))
    && Relies(t, t.procs[pid])
    && (forall u, f :: Dropping(s.procs[pid], u, f) ==> Dropping(t.procs[pid], u, f))
  }

  lemma ReliesLater(s: State, t: State, p: Proc)
    requires Relies(s, p) && t.users == s.users && t.templates == s.templates && s.cleared <= t.cleared
    ensures Relies(t, p)
  {
    hide OnlyAt;
  }

  lemma IdleKeeps(s: State, pid: nat, t: State)
    requires TemplateInv(s) && Idle(s, pid, t)
    ensures TemplateInv(t)
  {
    hide Relies, ActingDelete, Dropping, SlotOf;
    forall u, f | SlotOf(t.users, u, f).Some? && SlotOf(t.users, u, f).value !in t.templates ensures IsDropping(t, u, f) {
      assert IsDropping(s, u, f);
      var d :| d in s.procs && Dropping(s.procs[d], u, f);
      assert d in t.procs && Dropping(t.procs[d], u, f);
    }
    forall other | other in t.procs ensures Relies(t, t.procs[other]) {
      if other != pid {
        ReliesLater(s, t, s.procs[other]);
      }
    }
    forall a, b | a in t.procs && b in t.procs && ActingDelete(t.procs[a]) ensures !t.procs[b].EnrollStore? {
      assert b != pid ==> (t.procs[b].EnrollStore? <==> Storing(s, b));
    }
  }

  // ----- verifies and stops -----

  predicate Inert(p: Proc) {
    !p.EnrollEnd? && !p.EnrollStore? && !ActingDelete(p)
  }

  ghost predicate Aside(s: State, pid: nat, t: State) {
    && t.users == s.users && t.templates == s.templates
    && pid in t.procs && t.procs == s.procs[pid := t.procs[pid]] && Inert(t.procs[pid])
  }

  lemma EndedFrame(s: State, token: Token)
    ensures var t := Ended(s, token);
            t.users == s.users && t.templates == s.templates && t.procs == s.procs && s.cleared <= t.cleared
  {
  }

  lemma MintedFrame(s: State, pid: nat, kind: ActionKind, user: User)
    ensures var t := Minted(s, pid, kind, user);
            t.users == s.users && t.templates == s.templates && t.procs == s.procs && t.cleared == s.cleared
  {
  }

  lemma InertOnes()
    ensures forall p: Proc :: IsVerify(p) ==> Inert(p)
    ensures Inert(Finished)
  {
  }

  lemma VerifyAside(s: State, pid: nat, threshold: nat, input: Input)
    requires pid in s.procs && IsVerify(s.procs[pid])
    ensures Aside(s, pid, AdvanceVerify(s, pid, s.procs[pid], threshold, input))
  {
    hide Decide, Expected, UserSlots, Succeeded, EndActionIfOwner, StartAction, Ended, Minted, Inert;
    InertOnes();
    var p := s.procs[pid];
    match p {
      case VerifyPermit(user, _) => MintedFrame(s, pid, VerifyAction, user);
      case VerifyMinted(_, _, token, _) => EndedFrame(s, token);
      case VerifyEnd(check, _) => EndedFrame(s, check.token);
      case _ =>
    }
  }

  lemma StopAside(s: State, pid: nat)
    requires pid in s.procs && s.procs[pid].StopEntry?
    ensures Aside(s, pid, AdvanceStop(s, pid, s.procs[pid]))
  {
    hide StopAction;
  }

  lemma AsideIsIdle(s: State, pid: nat, t: State)
    requires pid in s.procs && Aside(s, pid, t) && s.cleared <= t.cleared
    requires !s.procs[pid].DeleteNext? && !s.procs[pid].DeleteAsked? && !s.procs[pid].DeleteRows?
    ensures Idle(s, pid, t)
  {
  }

  // ----- enrolls -----

  lemma EnrollAside(s: State, pid: nat, capacity: nat, input: Input)
    requires pid in s.procs && IsEnroll(s.procs[pid])
    requires var p := s.procs[pid];
             && !p.EnrollAsked? && !p.EnrollStore?
             && (p.EnrollEnd? ==> !p.stored || !EndActionIfOwner(s.claims, p.token).1)
    ensures Aside(s, pid, AdvanceEnroll(s, pid, s.procs[pid], capacity, input))
  {
    hide SlotOf, Lowest, SetSlot, UserSlots, Succeeded, EndActionIfOwner, StartAction;
  }

  ghost predicate Grows(s: State, pid: nat, t: State) {
    && t.users == s.users && s.templates.Keys <= t.templates.Keys && t.cleared == s.cleared
    && pid in s.procs && pid in t.procs && t.procs == s.procs[pid := t.procs[pid]]
    && !t.procs[pid].EnrollStore? && !ActingDelete(t.procs[pid]) && !ActingDelete(s.procs[pid])
    && Relies(t, t.procs[pid])
  }

  lemma EnrollGrows(s: State, pid: nat, capacity: nat, input: Input)
    requires pid in s.procs && s.procs[pid].EnrollAsked?
    ensures Grows(s, pid, AdvanceEnroll(s, pid, s.procs[pid], capacity, input))
  {
    hide SlotOf, Lowest, SetSlot, UserSlots, Succeeded, EndActionIfOwner, StartAction, OnlyAt;
  }

  lemma GrowingKeeps(s: State, pid: nat, t: State)
    requires TemplateInv(s) && Grows(s, pid, t)
    ensures TemplateInv(t)
  {
    hide SlotOf, OnlyAt;
    forall u, f | SlotOf(t.users, u, f).Some? && SlotOf(t.users, u, f).value !in t.templates ensures IsDropping(t, u, f) {
      assert IsDropping(s, u, f);
      var d :| d in s.procs && Dropping(s.procs[d], u, f);
      assert d in t.procs && Dropping(t.procs[d], u, f);
    }
    forall other | other in t.procs ensures Relies(t, t.procs[other]) {
      if other != pid {
        assert Relies(s, s.procs[other]);
      }
    }
  }

  lemma DeleteHolds(s: State, pid: nat)
    requires HoldInv(s) && DeletesKeepTokens(s) && pid in s.procs && ActingDelete(s.procs[pid])
    ensures s.claims.action == TokenOf(s.procs[pid]) && TokenOf(s.procs[pid]).value.kind == DeleteAction
  {
    hide MintedBy;
    assert Acting(s.procs[pid]) && Holding(s, pid, s.procs[pid]);
  }

  /** While an enroll's token is current no delete is at work. */
  lemma NoDeleteBeside(s: State, token: Token)
    requires HoldInv(s) && DeletesKeepTokens(s) && s.claims.action == Some(token) && token.kind != DeleteAction
    ensures forall pid :: pid in s.procs ==> !ActingDelete(s.procs[pid])
  {
    hide HoldInv, DeletesKeepTokens;
    forall pid | pid in s.procs && ActingDelete(s.procs[pid]) ensures false {
      DeleteHolds(s, pid);
    }
  }

  lemma EndsForStore(s: State, pid: nat, capacity: nat, input: Input)
    requires TemplateInv(s) && HoldInv(s) && TokenInv(s) && |s.mints| <= TWO_64 && DeletesKeepTokens(s)
    requires pid in s.procs && s.procs[pid].EnrollEnd? && s.procs[pid].stored
             && EndActionIfOwner(s.claims, s.procs[pid].token).1
    ensures TemplateInv(AdvanceEnroll(s, pid, s.procs[pid], capacity, input))
  {
    hide SlotOf, Lowest, SetSlot, UserSlots, StartAction, OnlyAt, Was, MintedBy, Accounted;
    var p, t := s.procs[pid], AdvanceEnroll(s, pid, s.procs[pid], capacity, input);
    assert Relies(s, p);
    assert Holding(s, pid, p);
    NoDeleteBeside(s, p.token);
    assert !RemovedFromOutside(s, p.token);
    SameRows(s, pid, t);
    forall other | other in t.procs ensures Relies(t, t.procs[other]) {
      if other != pid {
        ReliesLater(s, t, s.procs[other]);
      }
    }
  }

  lemma SameRows(s: State, pid: nat, t: State)
    requires Accounted(s) && t.users == s.users && s.templates.Keys <= t.templates.Keys
    requires pid in s.procs && pid in t.procs && t.procs == s.procs[pid := t.procs[pid]]
    requires !s.procs[pid].DeleteNext? && !s.procs[pid].DeleteAsked? && !s.procs[pid].DeleteRows?
    ensures Accounted(t)
  {
    hide SlotOf;
    forall u, f | SlotOf(t.users, u, f).Some? && SlotOf(t.users, u, f).value !in t.templates ensures IsDropping(t, u, f) {
      assert IsDropping(s, u, f);
      var d :| d in s.procs && Dropping(s.procs[d], u, f);
      assert d in t.procs && Dropping(t.procs[d], u, f);
    }
  }

  lemma NoneDropping(s: State, pid: nat)
    requires TemplateInv(s) && Storing(s, pid)
    ensures Complete(s)
  {
    hide SlotOf, Relies;
  }

  lemma NoTargetsYet(s: State, t: State, p: Proc)
    requires Relies(s, p) && !ActingDelete(p) && t.templates == s.templates && t.cleared == s.cleared
    ensures Relies(t, p)
  {
  }

  lemma RowStored(s: State, pid: nat, t: State, user: User, finger: Finger, slot: byte, token: Token)
    requires TemplateInv(s) && Storing(s, pid) && slot in s.templates
    requires t.templates == s.templates && t.cleared == s.cleared && t.procs == s.procs[pid := EnrollTell(token)]
    requires forall u, f :: SlotOf(t.users, u, f) == if u == user && f == finger then Some(slot) else SlotOf(s.users, u, f)
    ensures TemplateInv(t)
  {
    hide SlotOf, Relies, Dropping;
    NoneDropping(s, pid);
    assert Complete(t);
    forall other | other in t.procs ensures Relies(t, t.procs[other]) {
      if other != pid {
        NoTargetsYet(s, t, s.procs[other]);
      } else {
        TellRelies(t, token);
      }
    }
  }

  lemma TellRelies(t: State, token: Token)
    ensures Relies(t, EnrollTell(token))
  {
  }

  /** The row goes in while its template is there. */
  lemma StoresRow(s: State, pid: nat, capacity: nat, input: Input)
    requires TemplateInv(s) && pid in s.procs && s.procs[pid].EnrollStore?
    ensures TemplateInv(AdvanceEnroll(s, pid, s.procs[pid], capacity, input))
  {
    hide Lowest, UserSlots, StartAction, EndActionIfOwner, SlotOf, SetSlot, Accounted, OnlyAt, ActingDelete;
    var p, t := s.procs[pid], AdvanceEnroll(s, pid, s.procs[pid], capacity, input);
    assert Relies(s, p);
    forall u, f ensures SlotOf(t.users, u, f) == if u == p.user && f == p.finger then Some(p.slot) else SlotOf(s.users, u, f) {
      SetSlotRows(s.users, p.user, p.finger, p.slot, u, f);
    }
    hide TemplateInv;
    RowStored(s, pid, t, p.user, p.finger, p.slot, p.token);
  }

  // ----- deletes -----

  lemma OrderedTargets(users: Users, user: User, targets: seq<Target>)
    requires Injective(users) && IsOrderOf(targets, UserSlots(users, user))
    ensures forall t :: t in targets ==> OnlyAt(users, t.slot, user, t.finger)
  {
    forall t | t in targets ensures OnlyAt(users, t.slot, user, t.finger) {
      assert SlotOf(users, user, t.finger) == Some(t.slot);
      RowOnlyAt(users, user, t.finger, t.slot);
    }
  }

  lemma GateIsIdle(s: State, pid: nat, input: Input)
    requires Injective(s.users) && pid in s.procs && IsDelete(s.procs[pid]) && !Working(s.procs[pid])
    requires Tidy(s, Advance(pid, input))
    ensures Idle(s, pid, DeleteGate(s, pid, s.procs[pid], input))
  {
    hide Injective, OnlyAt, IsOrderOf, SlotOf, UserSlots, StartAction, Storing, Succeeded, Minted;
    var p := s.procs[pid];
    match p {
      case DeleteEntry(user) => MintedFrame(s, pid, DeleteAction, user);
      case DeleteOneFound(user, _, _) => MintedFrame(s, pid, DeleteAction, user);
      case DeleteMinted(user, _) =>
        if input.Order? && IsOrderOf(input.targets, UserSlots(s.users, user)) {
          OrderedTargets(s.users, user, input.targets);
        }
      case _ =>
    }
  }

  lemma WorkIsIdle(s: State, pid: nat, input: Input)
    requires pid in s.procs && Relies(s, s.procs[pid]) && Working(s.procs[pid])
    requires var p := s.procs[pid];
             && (p.DeleteRows? ==> p.gone == [])
             && (p.DeleteAsked? && input.Answered? ==> !Succeeded(input.reply) && !input.done)
    ensures Idle(s, pid, DeleteWork(s, pid, s.procs[pid], input))
  {
    hide OnlyAt, Succeeded, EndActionIfOwner, RemoveFinger, Ended, Storing;
    if s.procs[pid].DeleteEnd? {
      EndedFrame(s, s.procs[pid].token);
    }
  }

  /** What remains after the template of the first target is gone. */
  lemma ClearsTemplate(s: State, pid: nat, input: Input)
    requires TemplateInv(s) && HoldInv(s) && DeletesKeepTokens(s)
    requires pid in s.procs && s.procs[pid].DeleteAsked? && input.Answered? && Succeeded(input.reply)
    ensures TemplateInv(DeleteWork(s, pid, s.procs[pid], input))
  {
    hide OnlyAt, Succeeded, EndActionIfOwner, RemoveFinger, Ended, SlotOf, HoldInv, DeletesKeepTokens;
    var p, t := s.procs[pid], DeleteWork(s, pid, s.procs[pid], input);
    DeleteHolds(s, pid);
    if t != s {
      var q, target := t.procs[pid], p.todo[0];
      hide DeleteWork;
      assert Relies(s, p);
      RowsAfterClear(s, pid, t, q, target);
      forall other | other in t.procs ensures Relies(t, t.procs[other]) {
        if other != pid {
          NoLossBeside(s, pid, t, other);
        }
      }
    }
  }

  lemma RowsAfterClear(s: State, pid: nat, t: State, q: Proc, target: Target)
    requires Accounted(s) && pid in s.procs && s.procs[pid].DeleteAsked? && q.DeleteNext?
    requires OnlyAt(s.users, target.slot, s.procs[pid].user, target.finger)
    requires q.user == s.procs[pid].user && q.gone == s.procs[pid].gone + [target.finger]
    requires t.users == s.users && t.templates == s.templates - {target.slot} && t.procs == s.procs[pid := q]
    ensures Accounted(t)
  {
    hide OnlyAt, SlotOf;
    var user := s.procs[pid].user;
    forall u, f | SlotOf(t.users, u, f).Some? && SlotOf(t.users, u, f).value !in t.templates ensures IsDropping(t, u, f) {
      if SlotOf(s.users, u, f).value == target.slot {
        OnlyRow(s.users, target.slot, user, target.finger, u, f);
        assert pid in t.procs && Dropping(t.procs[pid], u, f);
      } else {
        assert IsDropping(s, u, f);
        var d :| d in s.procs && Dropping(s.procs[d], u, f);
        assert d in t.procs && Dropping(t.procs[d], u, f);
      }
    }
  }

  lemma OnlyRow(users: Users, slot: byte, user: User, finger: Finger, u: User, f: Finger)
    requires OnlyAt(users, slot, user, finger) && SlotOf(users, u, f) == Some(slot)
    ensures u == user && f == finger
  {
  }

  /** No process but the delete itself relies on the template it clears. */
  lemma NoLossBeside(s: State, pid: nat, t: State, other: nat)
    requires TemplateInv(s) && HoldInv(s) && t.users == s.users && t.cleared == s.cleared
    requires pid in s.procs && ActingDelete(s.procs[pid]) && other in s.procs && other != pid
    requires s.claims.action.Some? && s.claims.action.value.kind == DeleteAction
    ensures Relies(t, s.procs[other])
  {
    hide OnlyAt, MintedBy, Accounted;
    var o := s.procs[other];
    assert Relies(s, o);
    if o.EnrollEnd? {
      assert Holding(s, other, o);
    }
  }

  lemma DropsRow(s: State, pid: nat, input: Input)
    requires TemplateInv(s) && pid in s.procs && s.procs[pid].DeleteRows? && s.procs[pid].gone != []
    ensures TemplateInv(DeleteWork(s, pid, s.procs[pid], input))
  {
    hide OnlyAt, EndActionIfOwner, RemoveFinger, SlotOf;
    var p, t := s.procs[pid], DeleteWork(s, pid, s.procs[pid], input);
    var first := p.gone[0];
    forall u, f ensures SlotOf(t.users, u, f) == if u == p.user && f == first then None else SlotOf(s.users, u, f) {
      RemoveFingerRows(s.users, p.user, first, u, f);
    }
    assert t.procs == s.procs[pid := DeleteRows(p.user, p.token, p.gone[1..])];
    assert t.templates == s.templates && t.cleared == s.cleared;
    hide DeleteWork;
    assert forall f :: f in p.gone && f != first ==> f in p.gone[1..];
    forall u, f | SlotOf(t.users, u, f).Some? && SlotOf(t.users, u, f).value !in t.templates ensures IsDropping(t, u, f) {
      assert IsDropping(s, u, f);
      var d :| d in s.procs && Dropping(s.procs[d], u, f);
      assert d in t.procs && Dropping(t.procs[d], u, f);
    }
    forall other | other in t.procs ensures Relies(t, t.procs[other]) {
      if other != pid {
        assert Relies(s, s.procs[other]);
        FewerRows(s, t, s.procs[other]);
      }
    }
  }

  lemma FewerRows(s: State, t: State, p: Proc)
    requires Relies(s, p) && t.templates == s.templates && t.cleared == s.cleared
    requires forall u, f :: SlotOf(t.users, u, f).Some? ==> SlotOf(s.users, u, f) == SlotOf(t.users, u, f)
    ensures Relies(t, p)
  {
    hide SlotOf;
  }

  // ----- one step -----

  ghost predicate Orderly(s: State) {
    && PermitInv(s) && SlotsInv(s) && HoldInv(s) && TokenInv(s) && |s.mints| <= TWO_64 && DeletesKeepTokens(s)
  }

  lemma VerifyKeepsTemplates(s: State, pid: nat, threshold: nat, input: Input)
    requires TemplateInv(s) && pid in s.procs && IsVerify(s.procs[pid])
    requires s.cleared <= AdvanceVerify(s, pid, s.procs[pid], threshold, input).cleared
    ensures TemplateInv(AdvanceVerify(s, pid, s.procs[pid], threshold, input))
  {
    hide AdvanceVerify, TemplateInv, Aside, Idle;
    VerifyAside(s, pid, threshold, input);
    AsideIsIdle(s, pid, AdvanceVerify(s, pid, s.procs[pid], threshold, input));
    IdleKeeps(s, pid, AdvanceVerify(s, pid, s.procs[pid], threshold, input));
  }

  lemma EnrollKeepsTemplates(s: State, pid: nat, capacity: nat, input: Input)
    requires TemplateInv(s) && Orderly(s) && pid in s.procs && IsEnroll(s.procs[pid])
    requires s.cleared <= AdvanceEnroll(s, pid, s.procs[pid], capacity, input).cleared
    ensures TemplateInv(AdvanceEnroll(s, pid, s.procs[pid], capacity, input))
  {
    hide AdvanceEnroll, TemplateInv, Aside, Idle, PermitInv, SlotsInv, HoldInv, TokenInv, DeletesKeepTokens, Grows,
         EndActionIfOwner;
    var p, t := s.procs[pid], AdvanceEnroll(s, pid, s.procs[pid], capacity, input);
    if p.EnrollAsked? {
      EnrollGrows(s, pid, capacity, input);
      GrowingKeeps(s, pid, t);
    } else if p.EnrollStore? {
      StoresRow(s, pid, capacity, input);
    } else if p.EnrollEnd? && p.stored && EndActionIfOwner(s.claims, p.token).1 {
      EndsForStore(s, pid, capacity, input);
    } else {
      EnrollAside(s, pid, capacity, input);
      AsideIsIdle(s, pid, t);
      IdleKeeps(s, pid, t);
    }
  }

  lemma DeleteKeepsTemplates(s: State, pid: nat, input: Input)
    requires TemplateInv(s) && Orderly(s) && pid in s.procs && IsDelete(s.procs[pid]) && Tidy(s, Advance(pid, input))
    ensures TemplateInv(AdvanceDelete(s, pid, s.procs[pid], input))
  {
    hide DeleteGate, DeleteWork, Accounted, Relies, Idle, PermitInv, HoldInv, TokenInv, DeletesKeepTokens, Injective,
         NoForeignTemplate, ChoiceOk, OnlyAt, Succeeded, Storing;
    var p, t := s.procs[pid], AdvanceDelete(s, pid, s.procs[pid], input);
    if !Working(p) {
      GateIsIdle(s, pid, input);
      IdleKeeps(s, pid, t);
    } else if p.DeleteAsked? && input.Answered? && Succeeded(input.reply) {
      ClearsTemplate(s, pid, input);
    } else if p.DeleteRows? && p.gone != [] {
      DropsRow(s, pid, input);
    } else {
      WorkIsIdle(s, pid, input);
      IdleKeeps(s, pid, t);
    }
  }

  lemma ClearedGrows(s: State, step: Step, t: State, threshold: nat, capacity: nat)
    requires PermitInv(s) && ProcTokens(s) && Next(s, step, t, threshold, capacity)
    ensures s.cleared <= t.cleared
  {
    hide Next, PermitInv, ProcTokens, Mints;
    ProcTokensStep(s, step, t, threshold, capacity);
    LogsGrow(s, t);
  }

  lemma TemplateStep(s: State, step: Step, t: State, threshold: nat, capacity: nat)
    requires TemplateInv(s) && Orderly(s) && ProcTokens(s) && Tidy(s, step) && Next(s, step, t, threshold, capacity)
    ensures TemplateInv(t)
  {
    hide AdvanceVerify, AdvanceEnroll, AdvanceDelete, AdvanceStop, TemplateInv, PermitInv, SlotsInv, HoldInv, TokenInv,
         DeletesKeepTokens, ProcTokens, IsVerify, IsEnroll, IsDelete, Tidy, Aside, Idle;
    ClearedGrows(s, step, t, threshold, capacity);
    if step.Advance? {
      var p := s.procs[step.pid];
      DeleteOrNot(p);
      if IsVerify(p) {
        VerifyKeepsTemplates(s, step.pid, threshold, step.input);
      } else if IsEnroll(p) {
        EnrollKeepsTemplates(s, step.pid, capacity, step.input);
      } else if p.StopEntry? {
        StopAside(s, step.pid);
        AsideIsIdle(s, step.pid, t);
        IdleKeeps(s, step.pid, t);
      } else {
        DeleteKeepsTemplates(s, step.pid, step.input);
      }
    } else {
      OthersEnter(s, step, t, threshold, capacity);
      hide Next;
      EnteringKeeps(s, step, t);
    }
  }

  lemma EntriesAreInert(t: State)
    ensures forall p: Proc :: IsEntry(p) ==> Inert(p) && Relies(t, p)
  {
    hide OnlyAt;
  }

  lemma EnteringKeeps(s: State, step: Step, t: State)
    requires TemplateInv(s) && Enters(s, step, t) && s.cleared <= t.cleared
    ensures TemplateInv(t)
  {
    hide SlotOf, OnlyAt, IsEntry, Relies, Dropping, ActingDelete;
    EntriesAreInert(t);
    forall u, f | SlotOf(t.users, u, f).Some? && SlotOf(t.users, u, f).value !in t.templates ensures IsDropping(t, u, f) {
      assert IsDropping(s, u, f);
      var d :| d in s.procs && Dropping(s.procs[d], u, f);
      assert d in t.procs && Dropping(t.procs[d], u, f);
    }
    forall pid | pid in t.procs ensures Relies(t, t.procs[pid]) {
      if pid in s.procs {
        ReliesLater(s, t, s.procs[pid]);
      }
    }
  }

  // ----- over runs -----

  lemma FewerCleared(s: State, t: State)
    requires DeletesKeepTokens(t) && s.cleared <= t.cleared
    ensures DeletesKeepTokens(s)
  {
  }

  lemma {:induction false} TemplatesAlways(states: seq<State>, steps: seq<Step>, threshold: nat, capacity: nat)
    requires IsRun(states, steps, threshold, capacity) && |states[|steps|].mints| <= TWO_64
    requires Complete(states[0]) && AllTidy(states, steps) && DeletesKeepTokens(states[|steps|])
    ensures TemplateInv(states[|steps|])
  {
    hide Next, SlotOf;
    if |steps| > 0 {
      hide Init, PermitInv, SlotsInv, QueueInv, HoldInv, ProcTokens, TokenInv, MintsReal, TemplateInv, Tidy,
           DeletesKeepTokens, Complete;
      RunPrefix(states, steps, threshold, capacity);
      var ss, ts := states[..|steps|], steps[..|steps| - 1];
      SafeAlways(ss, ts, threshold, capacity);
      TokensAlways(ss, ts, threshold, capacity);
      var s, step, t := states[|steps| - 1], steps[|steps| - 1], states[|steps|];
      MintsGrow(s, step, t, threshold, capacity);
      ClearedGrows(s, step, t, threshold, capacity);
      FewerCleared(s, t);
      HoldAlways(ss, ts, threshold, capacity);
      assert AllTidy(ss, ts) by {
        assert forall i :: 0 <= i < |ts| ==> ts[i] == steps[i] && ss[i] == states[i];
      }
      TemplatesAlways(ss, ts, threshold, capacity);
      TemplateStep(s, step, t, threshold, capacity);
    }
  }

  /** In every interleaving of tidy steps in which no delete's token is taken from it, starting
      with every row's template in the sensor: each row's template is there and is of its
      finger, unless a delete has cleared it and will drop the row next. */
  lemma RowsKeepTemplates(states: seq<State>, steps: seq<Step>, threshold: nat, capacity: nat)
    requires IsRun(states, steps, threshold, capacity) && |states[|steps|].mints| <= TWO_64
    requires Complete(states[0]) && AllTidy(states, steps) && DeletesKeepTokens(states[|steps|])
    ensures var s := states[|steps|];
            forall u, f :: SlotOf(s.users, u, f).Some? && !IsDropping(s, u, f) ==>
              var slot := SlotOf(s.users, u, f).value;
              slot in s.templates && s.templates[slot] == Owner(u, f)
  {
    hide Next, Init, PermitInv, QueueInv, SlotOf, Injective;
    TemplatesAlways(states, steps, threshold, capacity);
    SafeAlways(states, steps, threshold, capacity);
  }
}

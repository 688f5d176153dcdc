/** What holds in every interleaving of handlers and tasks. */
module DaemonSafety {
  import opened Bytes
  import opened Outcomes
  import opened Storage
  import opened Device
  import opened Worker
  import opened Daemon

  // ----- the capture permit -----

  predicate Holds(p: Proc) {
    || (IsVerify(p) && !p.VerifyEntry?)
    || (IsEnroll(p) && !p.EnrollEntry?)
  }

  /** The permit is held by exactly one process, or free. */
  ghost predicate PermitInv(s: State) {
    && (forall pid :: pid in s.procs ==> (Holds(s.procs[pid]) <==> s.permit == Some(pid)))
    && (s.permit.Some? ==> s.permit.value in s.procs)
  }

  /** A process moves alone, and takes or drops the permit only as it starts or stops
      holding it. */
  ghost predicate MovesAlone(s: State, pid: nat, t: State) {
    && pid in s.procs && pid in t.procs && t.procs == s.procs[pid := t.procs[pid]]
    && var was, is_ := Holds(s.procs[pid]), Holds(t.procs[pid]);
       if was == is_ then t.permit == s.permit
       else if is_ then s.permit == None && t.permit == Some(pid)
       else t.permit == None
  }

  lemma VerifyMoves(s: State, pid: nat, threshold: nat, input: Input)
    requires PermitInv(s) && pid in s.procs && IsVerify(s.procs[pid])
    ensures MovesAlone(s, pid, AdvanceVerify(s, pid, s.procs[pid], threshold, input))
  {
    hide Decide, Expected, StartAction, EndActionIfOwner, UserSlots;
  }

  lemma EnrollMoves(s: State, pid: nat, capacity: nat, input: Input)
    requires PermitInv(s) && pid in s.procs && IsEnroll(s.procs[pid])
    ensures MovesAlone(s, pid, AdvanceEnroll(s, pid, s.procs[pid], capacity, input))
  {
    hide SlotOf, Lowest, SetSlot, StartAction, EndActionIfOwner, UserSlots;
  }

  predicate IsDelete(p: Proc) {
    || p.DeleteEntry? || p.DeleteMinted? || p.DeleteNext? || p.DeleteAsked? || p.DeleteRows?
    || p.DeleteOneEntry? || p.DeleteOneFound? || p.DeleteEnd? || p.Finished?
  }

  lemma StopMoves(s: State, pid: nat)
    requires PermitInv(s) && pid in s.procs && s.procs[pid].StopEntry?
    ensures MovesAlone(s, pid, AdvanceStop(s, pid, s.procs[pid]))
  {
    hide StopAction;
  }

  /** A delete stays a delete, and lets go of no permit but its own. */
  ghost predicate Stays(s: State, pid: nat, t: State) {
    && pid in t.procs && t.procs == s.procs[pid := t.procs[pid]] && IsDelete(t.procs[pid])
    && (t.permit == s.permit || s.permit == Some(pid))
  }

  lemma GateStays(s: State, pid: nat, input: Input)
    requires pid in s.procs && IsDelete(s.procs[pid]) && !Working(s.procs[pid])
    ensures Stays(s, pid, DeleteGate(s, pid, s.procs[pid], input))
  {
    hide IsOrderOf, SlotOf, StartAction, UserSlots;
  }

  lemma WorkStays(s: State, pid: nat, input: Input)
    requires pid in s.procs && Working(s.procs[pid])
    ensures Stays(s, pid, DeleteWork(s, pid, s.procs[pid], input))
  {
    hide Succeeded, RemoveFinger, EndActionIfOwner;
  }

  lemma DeleteStays(s: State, pid: nat, input: Input)
    requires pid in s.procs && IsDelete(s.procs[pid])
    ensures Stays(s, pid, AdvanceDelete(s, pid, s.procs[pid], input))
  {
    hide Stays, DeleteGate, DeleteWork, IsDelete;
    if Working(s.procs[pid]) {
      WorkStays(s, pid, input);
    } else {
      GateStays(s, pid, input);
    }
  }

  lemma DeleteOrNot(p: Proc)
    ensures IsDelete(p) <==> !IsVerify(p) && !IsEnroll(p) && !p.StopEntry?
    ensures IsDelete(p) ==> !Holds(p)
  {
  }

  lemma DeleteMoves(s: State, pid: nat, input: Input)
    requires PermitInv(s) && pid in s.procs && IsDelete(s.procs[pid])
    ensures MovesAlone(s, pid, AdvanceDelete(s, pid, s.procs[pid], input))
  {
    hide Holds, IsDelete, AdvanceDelete;
    DeleteStays(s, pid, input);
    DeleteOrNot(s.procs[pid]);
    DeleteOrNot(AdvanceDelete(s, pid, s.procs[pid], input).procs[pid]);
  }

  lemma ProcMoves(s: State, pid: nat, threshold: nat, capacity: nat, input: Input)
    requires PermitInv(s) && pid in s.procs
    ensures MovesAlone(s, pid, AdvanceProc(s, pid, threshold, capacity, input))
  {
    hide MovesAlone, PermitInv, AdvanceVerify, AdvanceEnroll, AdvanceDelete, AdvanceStop, IsVerify, IsEnroll;
    if IsVerify(s.procs[pid]) {
      VerifyMoves(s, pid, threshold, input);
    } else if IsEnroll(s.procs[pid]) {
      EnrollMoves(s, pid, capacity, input);
    } else if s.procs[pid].StopEntry? {
      StopMoves(s, pid);
    } else {
      DeleteOrNot(s.procs[pid]);
      DeleteMoves(s, pid, input);
    }
  }

  /** Every other step adds at most one process, which holds nothing. */
  ghost predicate Enters(s: State, step: Step, t: State) {
    && t.users == s.users && t.templates == s.templates && t.permit == s.permit && t.queue == s.queue
    && t.mints == s.mints && t.told == s.told
    && (t.procs == s.procs
        || (exists pid: nat, p: Proc :: pid !in s.procs && IsEntry(p) && t == At(s, pid, p)))
  }

  predicate IsEntry(p: Proc) {
    p.VerifyEntry? || p.EnrollEntry? || p.DeleteEntry? || p.DeleteOneEntry? || p.StopEntry?
  }

  lemma OthersEnter(s: State, step: Step, t: State, threshold: nat, capacity: nat)
    requires Next(s, step, t, threshold, capacity) && !step.Advance?
    ensures Enters(s, step, t)
  {
    hide Claim, Release, Disconnect, StopAction, EnsureClaim, AdvanceProc;
    match step
    case StopCall(pid, sender, _) => EntersOne(s, pid, t);
    case VerifyStart(pid, sender, _) => EntersOne(s, pid, t);
    case EnrollStart(pid, sender, _) => EntersOne(s, pid, t);
    case DeleteAll(pid, user) => EntersOne(s, pid, t);
    case DeleteClaimed(pid, sender) => EntersOne(s, pid, t);
    case DeleteOne(pid, sender, _) => EntersOne(s, pid, t);
    case _ =>
  }

  lemma EntersOne(s: State, pid: nat, t: State)
    requires pid !in s.procs
    requires t == s || (pid in t.procs && IsEntry(t.procs[pid]) && t == At(s, pid, t.procs[pid]))
    ensures t.procs == s.procs || exists pid: nat, p: Proc :: pid !in s.procs && IsEntry(p) && t == At(s, pid, p)
  {
    if t != s {
      var p := t.procs[pid];
      assert pid !in s.procs && IsEntry(p) && t == At(s, pid, p);
    }
  }

  lemma PermitInvStep(s: State, step: Step, t: State, threshold: nat, capacity: nat)
    requires PermitInv(s) && Next(s, step, t, threshold, capacity)
    ensures PermitInv(t)
  {
    hide AdvanceProc, Claim, Release, Disconnect, StopAction, EnsureClaim;
    if step.Advance? {
      ProcMoves(s, step.pid, threshold, capacity, step.input);
      hide Holds;
    } else {
      OthersEnter(s, step, t, threshold, capacity);
      hide Next, PermitInv;
      EnteringKeepsPermit(s, step, t);
    }
  }

  lemma EnteringKeepsPermit(s: State, step: Step, t: State)
    requires PermitInv(s) && Enters(s, step, t)
    ensures PermitInv(t)
  {
    hide IsVerify, IsEnroll;
    assert forall p: Proc :: IsEntry(p) ==> !Holds(p) by {
      forall p: Proc | IsEntry(p) ensures !Holds(p) {
        EntryHoldsNothing(p);
      }
    }
    hide Holds, IsEntry;
  }

  lemma EntryHoldsNothing(p: Proc)
    requires IsEntry(p)
    ensures !Holds(p)
  {
  }

  // ----- slots and templates -----

  /** Rows at these slots, whoever has them now, are this user's. */
  ghost predicate Belong(users: Users, slots: set<byte>, user: User) {
    forall u, f :: SlotOf(users, u, f).Some? && SlotOf(users, u, f).value in slots ==> u == user
  }

  /** A template at this slot, if there is one, is of this finger. */
  ghost predicate OwnAt(templates: map<byte, Owner>, slot: byte, user: User, finger: Finger) {
    slot in templates ==> templates[slot] == Owner(user, finger)
  }

  /** What a verify task relies on: rows and templates at its slots are its user's, and it
      accepts exactly the slots asked for. */
  ghost predicate CheckOk(users: Users, templates: map<byte, Owner>, c: Check) {
    && Belong(users, c.rows.Values, c.user)
    && (forall f :: f in c.rows ==> OwnAt(templates, c.rows[f], c.user, f))
    && Expected(c.selected, c.rows) == Some(c.expected)
  }

  ghost predicate ChoiceOk(users: Users, templates: map<byte, Owner>, p: Proc) {
    match p
    case EnrollNew(user, finger, _) => SlotOf(users, user, finger) == None
    case EnrollAsk(user, finger, _, slot) => OnlyAt(users, slot, user, finger)
    case EnrollAsked(user, finger, _, slot) => OnlyAt(users, slot, user, finger)
    case EnrollEnd(user, finger, _, slot, stored) =>
      OnlyAt(users, slot, user, finger) && (stored ==> OwnAt(templates, slot, user, finger))
    case EnrollStore(user, finger, _, slot) => OnlyAt(users, slot, user, finger) && OwnAt(templates, slot, user, finger)
    case VerifyMinted(user, _, _, rows) =>
      Belong(users, rows.Values, user) && forall f :: f in rows ==> OwnAt(templates, rows[f], user, f)
    case VerifyTurn(c, retries) => CheckOk(users, templates, c) && retries <= MAX_RETRIES
    case VerifyAsk(c, retries) => CheckOk(users, templates, c) && retries <= MAX_RETRIES
    case VerifyAsked(c, retries) => CheckOk(users, templates, c) && retries <= MAX_RETRIES
    case VerifyEnd(c, ending) =>
      CheckOk(users, templates, c) && (ending.Some? && ending.value.status.Match? ==> ending.value.slot in c.expected)
    case VerifyTell(c, verdict) => CheckOk(users, templates, c) && (verdict.status.Match? ==> verdict.slot in c.expected)
    case _ => true
  }

  ghost predicate SlotsInv(s: State) {
    && Injective(s.users) && NoForeignTemplate(s)
    && forall pid :: pid in s.procs ==> ChoiceOk(s.users, s.templates, s.procs[pid])
  }

  lemma OwnSlotsBelong(users: Users, user: User)
    requires Injective(users)
    ensures Belong(users, UserSlots(users, user).Values, user)
  {
    var slots := UserSlots(users, user);
    forall u, f | SlotOf(users, u, f).Some? && SlotOf(users, u, f).value in slots.Values ensures u == user {
      var g :| g in slots && slots[g] == SlotOf(users, u, f).value;
      assert SlotOf(users, user, g) == SlotOf(users, u, f);
    }
  }

  lemma OwnTemplates(s: State, user: User)
    requires NoForeignTemplate(s)
    ensures forall f :: f in UserSlots(s.users, user) ==> OwnAt(s.templates, UserSlots(s.users, user)[f], user, f)
  {
    forall f | f in UserSlots(s.users, user) ensures OwnAt(s.templates, UserSlots(s.users, user)[f], user, f) {
      assert SlotOf(s.users, user, f) == Some(UserSlots(s.users, user)[f]);
    }
  }

  /** A match verdict names an expected slot; a retry leaves room for itself. */
  lemma Answers(s: State, pid: nat, p: Proc, threshold: nat, reply: Reply, late: bool)
    requires p.VerifyAsked? && ChoiceOk(s.users, s.templates, p)
    ensures var t := VerifyAnswered(s, pid, p, threshold, reply, late);
            && t.users == s.users && t.templates == s.templates
            && pid in t.procs && ChoiceOk(s.users, s.templates, t.procs[pid])
  {
    MatchExactly(reply, p.check.expected, threshold, p.retries, late);
    hide Decide, CheckOk;
  }

  ghost predicate VerifyKeeps(s: State, pid: nat, t: State) {
    t.users == s.users && t.templates == s.templates && pid in t.procs && ChoiceOk(t.users, t.templates, t.procs[pid])
  }

  lemma VerifyPrepares(s: State, pid: nat, threshold: nat, input: Input)
    requires SlotsInv(s) && pid in s.procs && (s.procs[pid].VerifyPermit? || s.procs[pid].VerifyMinted?)
    ensures VerifyKeeps(s, pid, AdvanceVerify(s, pid, s.procs[pid], threshold, input))
  {
    hide Injective, NoForeignTemplate, Belong, OwnAt, UserSlots, VerifyAnswered, StartAction, EndActionIfOwner, Expected;
    var p := s.procs[pid];
    if p.VerifyPermit? {
      OwnSlotsBelong(s.users, p.user);
      OwnTemplates(s, p.user);
    }
  }

  lemma VerifyCarries(s: State, pid: nat, threshold: nat, input: Input)
    requires SlotsInv(s) && pid in s.procs && IsVerify(s.procs[pid])
    requires !s.procs[pid].VerifyPermit? && !s.procs[pid].VerifyMinted?
    ensures VerifyKeeps(s, pid, AdvanceVerify(s, pid, s.procs[pid], threshold, input))
  {
    hide Injective, NoForeignTemplate, CheckOk, UserSlots, VerifyAnswered, StartAction, EndActionIfOwner, Expected;
    var p := s.procs[pid];
    if p.VerifyAsked? && AtHead(s, pid) && input.Answered? {
      Answers(s.(queue := s.queue[1..]), pid, p, threshold, input.reply, input.late);
    }
  }

  lemma VerifyChoice(s: State, pid: nat, threshold: nat, input: Input)
    requires SlotsInv(s) && pid in s.procs && IsVerify(s.procs[pid])
    ensures VerifyKeeps(s, pid, AdvanceVerify(s, pid, s.procs[pid], threshold, input))
  {
    hide SlotsInv, VerifyKeeps, AdvanceVerify, IsVerify;
    if s.procs[pid].VerifyPermit? || s.procs[pid].VerifyMinted? {
      VerifyPrepares(s, pid, threshold, input);
    } else {
      VerifyCarries(s, pid, threshold, input);
    }
  }

  lemma RowOnlyAt(users: Users, user: User, finger: Finger, slot: byte)
    requires Injective(users) && SlotOf(users, user, finger) == Some(slot)
    ensures OnlyAt(users, slot, user, finger)
  {
    hide SlotOf;
  }

  lemma FreeOnlyAt(users: Users, user: User, finger: Finger, slot: byte)
    requires !InUse(users, slot)
    ensures OnlyAt(users, slot, user, finger)
  {
    InUseRow(users, slot);
    hide SlotOf, InUse;
  }

  /** The registry changes in an enroll task only as it stores the slot it was allotted, and
      the sensor only as it answers the task. */
  ghost predicate EnrollKeeps(s: State, pid: nat, t: State) {
    && pid in s.procs && pid in t.procs && ChoiceOk(t.users, t.templates, t.procs[pid])
    && (if s.procs[pid].EnrollStore? || s.procs[pid].EnrollAsked?
        then Holds(s.procs[pid]) && Injective(t.users) && NoForeignTemplate(t)
        else t.users == s.users && t.templates == s.templates)
  }

  lemma EnrollChooses(s: State, pid: nat, capacity: nat, input: Input)
    requires SlotsInv(s) && pid in s.procs && (s.procs[pid].EnrollMinted? || s.procs[pid].EnrollNew?)
    ensures EnrollKeeps(s, pid, AdvanceEnroll(s, pid, s.procs[pid], capacity, input))
  {
    hide SlotOf, Injective, NoForeignTemplate, OnlyAt, InUse, UserSlots, StartAction, EndActionIfOwner, Lowest, SetSlot,
         Leave, Ended, AtHead;
    var p := s.procs[pid];
    if p.EnrollMinted? && SlotOf(s.users, p.user, p.finger).Some? {
      RowOnlyAt(s.users, p.user, p.finger, SlotOf(s.users, p.user, p.finger).value);
    } else if p.EnrollNew? && Lowest(s.users, capacity, 0).Some? {
      LowestIsFree(s.users, capacity, 0);
      FreeOnlyAt(s.users, p.user, p.finger, Lowest(s.users, capacity, 0).value);
    }
  }

  /** A row is stored at a slot whose template is of its finger. */
  lemma StoredIsOwn(s: State, t: State, user: User, finger: Finger, slot: byte)
    requires NoForeignTemplate(s) && OwnAt(s.templates, slot, user, finger)
    requires t.users == SetSlot(s.users, user, finger, slot) && t.templates == s.templates
    ensures NoForeignTemplate(t)
  {
    forall u, f ensures SlotOf(t.users, u, f) == if u == user && f == finger then Some(slot) else SlotOf(s.users, u, f) {
      SetSlotRows(s.users, user, finger, slot, u, f);
    }
    hide SlotOf, SetSlot;
  }

  lemma EnrollStores(s: State, pid: nat, capacity: nat, input: Input)
    requires SlotsInv(s) && pid in s.procs && s.procs[pid].EnrollStore?
    ensures EnrollKeeps(s, pid, AdvanceEnroll(s, pid, s.procs[pid], capacity, input))
  {
    hide SlotOf, Injective, NoForeignTemplate, OnlyAt, InUse, UserSlots, StartAction, EndActionIfOwner, Lowest, SetSlot,
         Leave, Ended, AtHead;
    var p := s.procs[pid];
    SetSlotInjective(s.users, p.user, p.finger, p.slot);
    StoredIsOwn(s, AdvanceEnroll(s, pid, p, capacity, input), p.user, p.finger, p.slot);
  }

  /** A template is written at a slot that no other row has. */
  lemma WrittenIsOwn(s: State, t: State, user: User, finger: Finger, slot: byte)
    requires NoForeignTemplate(s) && OnlyAt(s.users, slot, user, finger) && t.users == s.users
    requires t.templates == s.templates || t.templates == s.templates[slot := Owner(user, finger)]
    ensures NoForeignTemplate(t)
  {
    hide SlotOf;
  }

  lemma EnrollWrites(s: State, pid: nat, capacity: nat, input: Input)
    requires SlotsInv(s) && pid in s.procs && s.procs[pid].EnrollAsked?
    ensures EnrollKeeps(s, pid, AdvanceEnroll(s, pid, s.procs[pid], capacity, input))
  {
    hide SlotOf, Injective, NoForeignTemplate, OnlyAt, InUse, UserSlots, StartAction, EndActionIfOwner, Lowest, SetSlot,
         Leave, Ended, AtHead, Succeeded;
    var p := s.procs[pid];
    WrittenIsOwn(s, AdvanceEnroll(s, pid, p, capacity, input), p.user, p.finger, p.slot);
  }

  lemma EnrollCarries(s: State, pid: nat, capacity: nat, input: Input)
    requires SlotsInv(s) && pid in s.procs && IsEnroll(s.procs[pid])
    requires var p := s.procs[pid]; !p.EnrollMinted? && !p.EnrollNew? && !p.EnrollStore? && !p.EnrollAsked?
    ensures EnrollKeeps(s, pid, AdvanceEnroll(s, pid, s.procs[pid], capacity, input))
  {
    hide SlotOf, Injective, NoForeignTemplate, OnlyAt, OwnAt, InUse, UserSlots, StartAction, EndActionIfOwner, Lowest,
         SetSlot, Holds, AtHead;
  }

  lemma EnrollChoice(s: State, pid: nat, capacity: nat, input: Input)
    requires SlotsInv(s) && pid in s.procs && IsEnroll(s.procs[pid])
    ensures EnrollKeeps(s, pid, AdvanceEnroll(s, pid, s.procs[pid], capacity, input))
  {
    hide SlotsInv, EnrollKeeps, AdvanceEnroll, IsEnroll;
    var p := s.procs[pid];
    if p.EnrollMinted? || p.EnrollNew? {
      EnrollChooses(s, pid, capacity, input);
    } else if p.EnrollStore? {
      EnrollStores(s, pid, capacity, input);
    } else if p.EnrollAsked? {
      EnrollWrites(s, pid, capacity, input);
    } else {
      EnrollCarries(s, pid, capacity, input);
    }
  }

  /** Rows and templates may go, but none is new. */
  ghost predicate Fewer(s: State, t: State) {
    && (forall u, f :: SlotOf(t.users, u, f).Some? ==> SlotOf(s.users, u, f) == SlotOf(t.users, u, f))
    && (forall x :: x in t.templates ==> x in s.templates && t.templates[x] == s.templates[x])
  }

  lemma FewerKeeps(s: State, t: State, p: Proc)
    requires Fewer(s, t) && ChoiceOk(s.users, s.templates, p)
    ensures ChoiceOk(t.users, t.templates, p)
  {
    hide SlotOf, Expected;
  }

  lemma FewerKeepsOwn(s: State, t: State)
    requires Fewer(s, t) && NoForeignTemplate(s)
    ensures NoForeignTemplate(t)
  {
    hide SlotOf;
  }

  lemma RemovedFewer(users: Users, user: User, finger: Finger, u: User, f: Finger)
    ensures SlotOf(RemoveFinger(users, user, finger), u, f).Some? ==>
              SlotOf(users, u, f) == SlotOf(RemoveFinger(users, user, finger), u, f)
  {
    RemoveFingerRows(users, user, finger, u, f);
  }

  /** What a delete does to registry and sensor: at most one row goes, or one template. */
  ghost predicate Takes(s: State, p: Proc, t: State) {
    && t.users == (if p.DeleteRows? && p.gone != [] then RemoveFinger(s.users, p.user, p.gone[0]) else s.users)
    && (t.templates == s.templates || exists x: byte :: t.templates == s.templates - {x})
  }

  lemma GateTakes(s: State, pid: nat, p: Proc, input: Input)
    requires !Working(p)
    ensures Takes(s, p, DeleteGate(s, pid, p, input))
  {
    hide IsOrderOf, SlotOf, StartAction, UserSlots;
  }

  lemma WorkTakes(s: State, pid: nat, p: Proc, input: Input)
    requires Working(p)
    ensures Takes(s, p, DeleteWork(s, pid, p, input))
  {
    hide Succeeded, RemoveFinger, EndActionIfOwner;
  }

  lemma DeleteTakes(s: State, pid: nat, p: Proc, input: Input)
    ensures Takes(s, p, AdvanceDelete(s, pid, p, input))
  {
    hide Takes, DeleteGate, DeleteWork;
    if Working(p) {
      WorkTakes(s, pid, p, input);
    } else {
      GateTakes(s, pid, p, input);
    }
  }

  lemma DeleteChoice(s: State, pid: nat, input: Input)
    requires SlotsInv(s) && pid in s.procs && IsDelete(s.procs[pid])
    ensures var t := AdvanceDelete(s, pid, s.procs[pid], input);
            && pid in t.procs && ChoiceOk(t.users, t.templates, t.procs[pid])
            && Injective(t.users) && NoForeignTemplate(t) && Fewer(s, t)
  {
    hide IsDelete, AdvanceDelete, ChoiceOk, Holds, Injective, NoForeignTemplate, SlotOf, RemoveFinger;
    var p, t := s.procs[pid], AdvanceDelete(s, pid, s.procs[pid], input);
    DeleteStays(s, pid, input);
    DeleteOrNot(t.procs[pid]);
    NoChoice(t.users, t.templates, t.procs[pid]);
    DeleteTakes(s, pid, p, input);
    if p.DeleteRows? && p.gone != [] {
      RemoveFingerInjective(s.users, p.user, p.gone[0]);
      forall u, f | SlotOf(t.users, u, f).Some? ensures SlotOf(s.users, u, f) == SlotOf(t.users, u, f) {
        RemovedFewer(s.users, p.user, p.gone[0], u, f);
      }
    }
    FewerKeepsOwn(s, t);
  }

  /** A process that does not hold the permit has made no choice to keep. */
  lemma NoChoice(users: Users, templates: map<byte, Owner>, p: Proc)
    requires !Holds(p)
    ensures ChoiceOk(users, templates, p)
  {
  }

  lemma StopChoice(s: State, pid: nat)
    requires pid in s.procs && s.procs[pid].StopEntry?
    ensures var t := AdvanceStop(s, pid, s.procs[pid]);
            t.users == s.users && t.templates == s.templates && pid in t.procs && t.procs[pid] == Finished
            && ChoiceOk(t.users, t.templates, t.procs[pid])
  {
    hide StopAction;
  }

  lemma AdvanceKeepsSlots(s: State, pid: nat, threshold: nat, capacity: nat, input: Input)
    requires PermitInv(s) && SlotsInv(s) && pid in s.procs
    ensures SlotsInv(AdvanceProc(s, pid, threshold, capacity, input))
  {
    hide AdvanceVerify, AdvanceEnroll, AdvanceDelete, AdvanceStop, IsVerify, IsEnroll, IsDelete, Injective, ChoiceOk, Holds;
    var p, t := s.procs[pid], AdvanceProc(s, pid, threshold, capacity, input);
    ProcMoves(s, pid, threshold, capacity, input);
    DeleteOrNot(p);
    if IsVerify(p) {
      VerifyChoice(s, pid, threshold, input);
    } else if IsEnroll(p) {
      EnrollChoice(s, pid, capacity, input);
    } else if p.StopEntry? {
      StopChoice(s, pid);
    } else {
      DeleteChoice(s, pid, input);
    }
    hide NoForeignTemplate, Fewer;
    forall other | other in t.procs ensures ChoiceOk(t.users, t.templates, t.procs[other]) {
      if other != pid && (t.users != s.users || t.templates != s.templates) {
        if IsEnroll(p) {
          NoChoice(t.users, t.templates, s.procs[other]);
        } else {
          FewerKeeps(s, t, s.procs[other]);
        }
      }
    }
  }

  lemma SlotsInvStep(s: State, step: Step, t: State, threshold: nat, capacity: nat)
    requires PermitInv(s) && SlotsInv(s) && Next(s, step, t, threshold, capacity)
    ensures SlotsInv(t)
  {
    hide AdvanceProc, PermitInv, Injective, NoForeignTemplate, SlotOf, OnlyAt, Belong, OwnAt, CheckOk;
    if step.Advance? {
      hide SlotsInv;
      AdvanceKeepsSlots(s, step.pid, threshold, capacity, step.input);
    } else {
      OthersEnter(s, step, t, threshold, capacity);
      hide Next;
      SameOwn(s, t);
    }
  }

  lemma SameOwn(s: State, t: State)
    requires NoForeignTemplate(s) && t.users == s.users && t.templates == s.templates
    ensures NoForeignTemplate(t)
  {
  }

  // ----- the worker queue -----

  predicate Capturing(p: Proc) {
    p.VerifyAsked? || p.EnrollAsked?
  }

  /** Every request is its own process's, which is waiting for the answer. */
  ghost predicate QueueInv(s: State) {
    && (forall i :: 0 <= i < |s.queue| ==>
          s.queue[i].pid in s.procs
          && if s.queue[i].capture then Capturing(s.procs[s.queue[i].pid]) else s.procs[s.queue[i].pid].DeleteAsked?)
    && (forall i, j :: 0 <= i < j < |s.queue| ==> s.queue[i].pid != s.queue[j].pid)
  }

  predicate Waits(p: Proc) {
    Capturing(p) || p.DeleteAsked?
  }

  /** A process queues a request as it starts to wait, and leaves the head as it stops. */
  ghost predicate QueuesAlone(s: State, pid: nat, t: State) {
    && pid in s.procs && pid in t.procs
    && var p, q := s.procs[pid], t.procs[pid];
       if Waits(q) && p != q then !Waits(p) && t.queue == s.queue + [Request(pid, Capturing(q))]
       else if Waits(p) && p != q then AtHead(s, pid) && t.queue == s.queue[1..]
       else t.queue == s.queue
  }

  lemma VerifyQueues(s: State, pid: nat, threshold: nat, input: Input)
    requires pid in s.procs && IsVerify(s.procs[pid])
    ensures QueuesAlone(s, pid, AdvanceVerify(s, pid, s.procs[pid], threshold, input))
  {
    if s.procs[pid].VerifyAsk? || s.procs[pid].VerifyAsked? {
      hide Decide;
    } else {
      hide AdvanceVerify, IsVerify;
      VerifyLeavesQueue(s, pid, threshold, input);
    }
  }

  /** The process was not waiting, is not now, and has queued nothing. */
  ghost predicate LeavesQueue(s: State, pid: nat, t: State) {
    && pid in s.procs && pid in t.procs
    && !Waits(s.procs[pid]) && !Waits(t.procs[pid]) && t.queue == s.queue
  }

  lemma VerifyLeavesQueue(s: State, pid: nat, threshold: nat, input: Input)
    requires pid in s.procs && IsVerify(s.procs[pid]) && !s.procs[pid].VerifyAsk? && !s.procs[pid].VerifyAsked?
    ensures LeavesQueue(s, pid, AdvanceVerify(s, pid, s.procs[pid], threshold, input))
  {
    hide Expected, StartAction, EndActionIfOwner, UserSlots, VerifyAnswered, Asking, AtHead;
  }

  lemma EnrollQueues(s: State, pid: nat, capacity: nat, input: Input)
    requires pid in s.procs && IsEnroll(s.procs[pid])
    ensures QueuesAlone(s, pid, AdvanceEnroll(s, pid, s.procs[pid], capacity, input))
  {
    if s.procs[pid].EnrollAsk? || s.procs[pid].EnrollAsked? {
      hide Succeeded, SlotOf, Lowest, SetSlot;
    } else {
      hide AdvanceEnroll, IsEnroll;
      EnrollLeavesQueue(s, pid, capacity, input);
    }
  }

  lemma EnrollLeavesQueue(s: State, pid: nat, capacity: nat, input: Input)
    requires var p := s.procs; pid in p && IsEnroll(p[pid]) && !p[pid].EnrollAsked? && !p[pid].EnrollAsk?
    ensures var t := AdvanceEnroll(s, pid, s.procs[pid], capacity, input);
            LeavesQueue(s, pid, t)
  {
    hide SlotOf, Lowest, SetSlot, StartAction, EndActionIfOwner, UserSlots, Asking, AtHead, Succeeded;
  }

  lemma GateQueues(s: State, pid: nat, input: Input)
    requires pid in s.procs && IsDelete(s.procs[pid]) && !Working(s.procs[pid])
    ensures QueuesAlone(s, pid, DeleteGate(s, pid, s.procs[pid], input))
  {
    hide IsOrderOf, SlotOf, StartAction, UserSlots;
  }

  lemma WorkQueues(s: State, pid: nat, input: Input)
    requires pid in s.procs && Working(s.procs[pid])
    ensures QueuesAlone(s, pid, DeleteWork(s, pid, s.procs[pid], input))
  {
    hide Succeeded, RemoveFinger, EndActionIfOwner;
  }

  lemma DeleteQueues(s: State, pid: nat, input: Input)
    requires pid in s.procs && IsDelete(s.procs[pid])
    ensures QueuesAlone(s, pid, AdvanceDelete(s, pid, s.procs[pid], input))
  {
    hide QueuesAlone, DeleteGate, DeleteWork, IsDelete;
    if Working(s.procs[pid]) {
      WorkQueues(s, pid, input);
    } else {
      GateQueues(s, pid, input);
    }
  }

  lemma StopQueues(s: State, pid: nat)
    requires pid in s.procs && s.procs[pid].StopEntry?
    ensures QueuesAlone(s, pid, AdvanceStop(s, pid, s.procs[pid]))
  {
    hide StopAction;
  }

  lemma QueueKept(s: State, pid: nat, t: State)
    requires QueueInv(s) && QueuesAlone(s, pid, t) && MovesAlone(s, pid, t)
    ensures QueueInv(t)
  {
    hide Holds;
    var p, q := s.procs[pid], t.procs[pid];
    if Waits(q) && p != q {
      assert forall i :: 0 <= i < |s.queue| ==> s.queue[i].pid != pid;
    } else if Waits(p) && p != q {
      assert forall i :: 0 <= i < |t.queue| ==> t.queue[i] == s.queue[i + 1] && t.queue[i].pid != pid;
    }
  }

  lemma QueueInvStep(s: State, step: Step, t: State, threshold: nat, capacity: nat)
    requires PermitInv(s) && QueueInv(s) && Next(s, step, t, threshold, capacity)
    ensures QueueInv(t)
  {
    if step.Advance? {
      hide AdvanceVerify, AdvanceEnroll, AdvanceDelete, AdvanceStop, IsVerify, IsEnroll, IsDelete, QueueInv, PermitInv,
           QueuesAlone, MovesAlone;
      DeleteOrNot(s.procs[step.pid]);
      ProcMoves(s, step.pid, threshold, capacity, step.input);
      if IsVerify(s.procs[step.pid]) {
        VerifyQueues(s, step.pid, threshold, step.input);
      } else if IsEnroll(s.procs[step.pid]) {
        EnrollQueues(s, step.pid, capacity, step.input);
      } else if s.procs[step.pid].StopEntry? {
        StopQueues(s, step.pid);
      } else {
        DeleteQueues(s, step.pid, step.input);
      }
      QueueKept(s, step.pid, t);
    } else {
      OthersEnter(s, step, t, threshold, capacity);
      hide Next;
    }
  }

  // ----- over runs -----

  lemma RunPrefix(states: seq<State>, steps: seq<Step>, threshold: nat, capacity: nat)
    requires IsRun(states, steps, threshold, capacity) && |steps| > 0
    ensures IsRun(states[..|steps|], steps[..|steps| - 1], threshold, capacity)
    ensures Next(states[|steps| - 1], steps[|steps| - 1], states[|steps|], threshold, capacity)
  {
    hide Init, Next;
    var n := |steps| - 1;
    var ss, ts := states[..n + 1], steps[..n];
    forall i | 0 <= i < n ensures Next(ss[i], ts[i], ss[i + 1], threshold, capacity) {
      assert ss[i] == states[i] && ts[i] == steps[i] && ss[i + 1] == states[i + 1];
    }
  }

  ghost predicate SafeInv(s: State) {
    PermitInv(s) && SlotsInv(s) && QueueInv(s)
  }

  lemma {:induction false} SafeAlways(states: seq<State>, steps: seq<Step>, threshold: nat, capacity: nat)
    requires IsRun(states, steps, threshold, capacity)
    ensures SafeInv(states[|steps|])
  {
    hide Next;
    if |steps| > 0 {
      hide Init, PermitInv, SlotsInv, QueueInv;
      RunPrefix(states, steps, threshold, capacity);
      SafeAlways(states[..|steps|], steps[..|steps| - 1], threshold, capacity);
      var s, step, t := states[|steps| - 1], steps[|steps| - 1], states[|steps|];
      PermitInvStep(s, step, t, threshold, capacity);
      SlotsInvStep(s, step, t, threshold, capacity);
      QueueInvStep(s, step, t, threshold, capacity);
    }
  }

  /** In every interleaving, starting from a registry that gives no slot twice and a sensor
      that agrees with it: no slot is ever given twice, no row's slot ever holds a template
      of anybody else's finger, at most one capture request is queued or running, and no
      process has retried a verify more than five times. */
  lemma RegistryAndQueueSafe(states: seq<State>, steps: seq<Step>, threshold: nat, capacity: nat)
    requires IsRun(states, steps, threshold, capacity)
    ensures var s := states[|steps|];
            && Injective(s.users) && NoForeignTemplate(s)
            && (forall i, j :: 0 <= i < j < |s.queue| ==> !s.queue[i].capture || !s.queue[j].capture)
            && (forall pid :: pid in s.procs && s.procs[pid].VerifyAsked? ==> s.procs[pid].retries <= MAX_RETRIES)
  {
    SafeAlways(states, steps, threshold, capacity);
    hide IsRun, Injective, NoForeignTemplate, SlotOf, Belong, OnlyAt, CheckOk;
    var s := states[|steps|];
    assert forall pid :: pid in s.procs && Capturing(s.procs[pid]) ==> s.permit == Some(pid);
    assert forall pid :: pid in s.procs ==> ChoiceOk(s.users, s.templates, s.procs[pid]);
  }
}

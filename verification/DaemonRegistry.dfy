/** Why a row of the registry changes: over whole runs, every new row goes back to an
    EnrollStart and to the sensor storing the template, and every row that goes to a delete
    and to the sensor clearing it. */
module DaemonRegistry {
  import opened Bytes
  import opened Outcomes
  import opened Storage
  import opened Device
  import opened Worker
  import opened Daemon
  import opened DaemonSafety
  import opened DaemonVerdicts
  import opened DaemonTemplates

  // ----- where a process came from -----

  /** The process came into being, as this entry, in the `j`th step. */
  ghost predicate EnteredAt(states: seq<State>, j: nat, pid: nat, entry: Proc) {
    && j + 1 < |states| && pid !in states[j].procs
    && pid in states[j + 1].procs && states[j + 1].procs[pid] == entry && IsEntry(entry)
  }

  /** A process with this entry may be here: it works for the same user and, if it was asked
      about one finger, on that finger only. */
  ghost predicate Fits(entry: Proc, p: Proc) {
    match p
    case EnrollEntry(u, f) => entry == EnrollEntry(u, f)
    case EnrollPermit(u, f) => entry == EnrollEntry(u, f)
    case EnrollMinted(u, f, _) => entry == EnrollEntry(u, f)
    case EnrollNew(u, f, _) => entry == EnrollEntry(u, f)
    case EnrollAsk(u, f, _, _) => entry == EnrollEntry(u, f)
    case EnrollAsked(u, f, _, _) => entry == EnrollEntry(u, f)
    case EnrollEnd(u, f, _, _, _) => entry == EnrollEntry(u, f)
    case EnrollStore(u, f, _, _) => entry == EnrollEntry(u, f)
    case DeleteEntry(u) => entry == DeleteEntry(u)
    case DeleteMinted(u, _) => entry == DeleteEntry(u)
    case DeleteOneEntry(u, f) => entry == DeleteOneEntry(u, f)
    case DeleteOneFound(u, f, _) => entry == DeleteOneEntry(u, f)
    case DeleteNext(u, _, todo, gone) => Deletes(entry, u, todo, gone)
    case DeleteAsked(u, _, todo, gone) => Deletes(entry, u, todo, gone)
    case DeleteRows(u, _, gone) => Deletes(entry, u, [], gone)
    case _ => true
  }

  ghost predicate Deletes(entry: Proc, user: User, todo: seq<Target>, gone: seq<Finger>) {
    || entry == DeleteEntry(user)
    || (entry.DeleteOneEntry? && entry.user == user
        && (forall t :: t in todo ==> t.finger == entry.finger) && (forall f :: f in gone ==> f == entry.finger))
  }

  ghost predicate FitsOn(s: State, pid: nat, t: State) {
    pid in s.procs && pid in t.procs && forall entry :: Fits(entry, s.procs[pid]) ==> Fits(entry, t.procs[pid])
  }

  lemma VerifyFitsOn(s: State, pid: nat, threshold: nat, input: Input)
    requires pid in s.procs && IsVerify(s.procs[pid])
    ensures FitsOn(s, pid, AdvanceVerify(s, pid, s.procs[pid], threshold, input))
  {
    hide Decide, Expected, StartAction, EndActionIfOwner, UserSlots, Succeeded, Deletes;
  }

  lemma EnrollFitsOn(s: State, pid: nat, capacity: nat, input: Input)
    requires pid in s.procs && IsEnroll(s.procs[pid])
    ensures FitsOn(s, pid, AdvanceEnroll(s, pid, s.procs[pid], capacity, input))
  {
    hide SlotOf, Lowest, SetSlot, StartAction, EndActionIfOwner, UserSlots, Succeeded, Deletes;
  }

  lemma MintedFits(s: State, pid: nat, input: Input, entry: Proc)
    requires pid in s.procs && s.procs[pid].DeleteMinted? && Fits(entry, s.procs[pid])
    ensures var t := DeleteGate(s, pid, s.procs[pid], input);
            pid in t.procs && Fits(entry, t.procs[pid])
  {
    hide UserSlots, IsOrderOf, Deletes;
    AllFingers(entry, s.procs[pid].user);
  }

  lemma FoundFits(s: State, pid: nat, input: Input, entry: Proc)
    requires pid in s.procs && s.procs[pid].DeleteOneFound? && Fits(entry, s.procs[pid])
    ensures var t := DeleteGate(s, pid, s.procs[pid], input);
            pid in t.procs && Fits(entry, t.procs[pid])
  {
    hide StartAction, UserSlots, Deletes, Minted;
    var p, t := s.procs[pid], DeleteGate(s, pid, s.procs[pid], input);
    OneFinger(entry, p.user, p.finger, p.slot);
    if s.claims.action.None? {
      assert t.procs[pid] == DeleteNext(p.user, StartAction(s.claims, DeleteAction).1, [Target(p.finger, p.slot)], []);
    }
  }

  lemma EntryFits(s: State, pid: nat, input: Input, entry: Proc)
    requires pid in s.procs && (s.procs[pid].DeleteEntry? || s.procs[pid].DeleteOneEntry? || s.procs[pid].Finished?)
    requires Fits(entry, s.procs[pid])
    ensures var t := DeleteGate(s, pid, s.procs[pid], input);
            pid in t.procs && Fits(entry, t.procs[pid])
  {
    hide SlotOf, StartAction, Minted, Deletes;
  }

  lemma GateFits(s: State, pid: nat, input: Input, entry: Proc)
    requires pid in s.procs && IsDelete(s.procs[pid]) && !Working(s.procs[pid]) && Fits(entry, s.procs[pid])
    ensures var t := DeleteGate(s, pid, s.procs[pid], input);
            pid in t.procs && Fits(entry, t.procs[pid])
  {
    hide DeleteGate, Fits;
    if s.procs[pid].DeleteMinted? {
      MintedFits(s, pid, input, entry);
    } else if s.procs[pid].DeleteOneFound? {
      FoundFits(s, pid, input, entry);
    } else {
      EntryFits(s, pid, input, entry);
    }
  }

  lemma GateFitsOn(s: State, pid: nat, input: Input)
    requires pid in s.procs && IsDelete(s.procs[pid]) && !Working(s.procs[pid])
    ensures FitsOn(s, pid, DeleteGate(s, pid, s.procs[pid], input))
  {
    hide DeleteGate, IsDelete, Working, Fits;
    GateStays(s, pid, input);
    forall entry | Fits(entry, s.procs[pid]) ensures Fits(entry, DeleteGate(s, pid, s.procs[pid], input).procs[pid]) {
      GateFits(s, pid, input, entry);
    }
  }

  lemma AllFingers(entry: Proc, user: User)
    requires entry == DeleteEntry(user)
    ensures forall todo, gone :: Deletes(entry, user, todo, gone)
  {
  }

  lemma OneFinger(entry: Proc, user: User, finger: Finger, slot: byte)
    requires entry == DeleteOneEntry(user, finger)
    ensures Deletes(entry, user, [Target(finger, slot)], [])
  {
    assert forall t :: t in [Target(finger, slot)] ==> t == Target(finger, slot);
  }

  lemma WorkFitsOn(s: State, pid: nat, input: Input)
    requires pid in s.procs && Working(s.procs[pid])
    ensures FitsOn(s, pid, DeleteWork(s, pid, s.procs[pid], input))
  {
    hide Succeeded, RemoveFinger, EndActionIfOwner, Deletes;
    var p, t := s.procs[pid], DeleteWork(s, pid, s.procs[pid], input);
    forall entry | Fits(entry, p) ensures Fits(entry, t.procs[pid]) {
      match p {
        case DeleteNext(user, _, todo, gone) =>
          if todo == [] {
            assert Deletes(entry, user, [], gone);
          }
        case DeleteAsked(user, _, todo, gone) =>
          if todo != [] {
            DeletesOn(entry, user, todo, gone);
          }
        case DeleteRows(user, _, gone) =>
          if gone != [] {
            DropsOn(entry, user, gone);
          }
        case _ =>
      }
    }
  }

  lemma DeletesOn(entry: Proc, user: User, todo: seq<Target>, gone: seq<Finger>)
    requires Deletes(entry, user, todo, gone) && todo != []
    ensures Deletes(entry, user, todo[1..], gone) && Deletes(entry, user, todo[1..], gone + [todo[0].finger])
  {
    assert todo[0] in todo;
  }

  lemma DropsOn(entry: Proc, user: User, gone: seq<Finger>)
    requires Deletes(entry, user, [], gone) && gone != []
    ensures Deletes(entry, user, [], gone[1..])
  {
    assert forall f :: f in gone[1..] ==> f in gone;
  }

  lemma StopFitsOn(s: State, pid: nat)
    requires pid in s.procs && s.procs[pid].StopEntry?
    ensures FitsOn(s, pid, AdvanceStop(s, pid, s.procs[pid]))
  {
    hide StopAction;
  }

  lemma ProcFitsOn(s: State, pid: nat, threshold: nat, capacity: nat, input: Input)
    requires pid in s.procs
    ensures FitsOn(s, pid, AdvanceProc(s, pid, threshold, capacity, input))
  {
    hide AdvanceVerify, AdvanceEnroll, DeleteGate, DeleteWork, AdvanceStop, IsVerify, IsEnroll, IsDelete, Working, FitsOn;
    var p := s.procs[pid];
    DeleteOrNot(p);
    if IsVerify(p) {
      VerifyFitsOn(s, pid, threshold, input);
    } else if IsEnroll(p) {
      EnrollFitsOn(s, pid, capacity, input);
    } else if p.StopEntry? {
      StopFitsOn(s, pid);
    } else if Working(p) {
      WorkFitsOn(s, pid, input);
    } else {
      GateFitsOn(s, pid, input);
    }
  }

  // ----- what the sensor confirmed -----

  /** In the `i`th step the sensor's reply to this process said it was done. */
  ghost predicate ConfirmedAt(states: seq<State>, steps: seq<Step>, i: nat, pid: nat) {
    && i < |steps| && i < |states| && pid in states[i].procs && AtHead(states[i], pid)
    && steps[i].Advance? && steps[i].pid == pid && steps[i].input.Answered? && Succeeded(steps[i].input.reply)
  }

  /** It had been asked to store this finger's template at this slot. */
  ghost predicate StoredAt(states: seq<State>, steps: seq<Step>, i: nat, pid: nat, user: User, finger: Finger, slot: byte) {
    && ConfirmedAt(states, steps, i, pid)
    && var p := states[i].procs[pid]; p.EnrollAsked? && p.user == user && p.finger == finger && p.slot == slot
  }

  /** It had been asked to clear this finger's slot. */
  ghost predicate ClearedAt(states: seq<State>, steps: seq<Step>, i: nat, pid: nat, user: User, finger: Finger) {
    && ConfirmedAt(states, steps, i, pid)
    && var p := states[i].procs[pid]; p.DeleteAsked? && p.user == user && p.todo != [] && p.todo[0].finger == finger
  }

  ghost predicate IsStored(states: seq<State>, steps: seq<Step>, pid: nat, user: User, finger: Finger, slot: byte) {
    exists i: nat :: StoredAt(states, steps, i, pid, user, finger, slot)
  }

  ghost predicate IsCleared(states: seq<State>, steps: seq<Step>, pid: nat, user: User, finger: Finger) {
    exists i: nat :: ClearedAt(states, steps, i, pid, user, finger)
  }

  ghost predicate Came(states: seq<State>, pid: nat, p: Proc) {
    exists j: nat, entry: Proc :: EnteredAt(states, j, pid, entry) && Fits(entry, p)
  }

  /** Everything the process is about to write to the registry was confirmed to it. */
  ghost predicate Earned(states: seq<State>, steps: seq<Step>, pid: nat, p: Proc) {
    match p
    case EnrollEnd(u, f, _, slot, stored) => stored ==> IsStored(states, steps, pid, u, f, slot)
    case EnrollStore(u, f, _, slot) => IsStored(states, steps, pid, u, f, slot)
    case DeleteNext(u, _, _, gone) => forall f :: f in gone ==> IsCleared(states, steps, pid, u, f)
    case DeleteAsked(u, _, _, gone) => forall f :: f in gone ==> IsCleared(states, steps, pid, u, f)
    case DeleteRows(u, _, gone) => forall f :: f in gone ==> IsCleared(states, steps, pid, u, f)
    case _ => true
  }

  ghost predicate TrailInv(states: seq<State>, steps: seq<Step>, s: State) {
    forall pid :: pid in s.procs ==> Came(states, pid, s.procs[pid]) && Earned(states, steps, pid, s.procs[pid])
  }

  // ----- one step -----

  lemma CameLater(states: seq<State>, more: seq<State>, pid: nat, p: Proc, q: Proc)
    requires states <= more && Came(states, pid, p) && forall entry :: Fits(entry, p) ==> Fits(entry, q)
    ensures Came(more, pid, q)
  {
    hide Fits, IsEntry;
    var j: nat, entry: Proc :| EnteredAt(states, j, pid, entry) && Fits(entry, p);
    assert more[j] == states[j] && more[j + 1] == states[j + 1];
    assert EnteredAt(more, j, pid, entry) && Fits(entry, q);
  }

  lemma StoredLater(states: seq<State>, steps: seq<Step>, more: seq<State>, longer: seq<Step>, pid: nat,
                    user: User, finger: Finger, slot: byte)
    requires states <= more && steps <= longer && IsStored(states, steps, pid, user, finger, slot)
    ensures IsStored(more, longer, pid, user, finger, slot)
  {
    hide Succeeded;
    var i: nat :| StoredAt(states, steps, i, pid, user, finger, slot);
    assert more[i] == states[i] && longer[i] == steps[i];
    assert StoredAt(more, longer, i, pid, user, finger, slot);
  }

  lemma ClearedLater(states: seq<State>, steps: seq<Step>, more: seq<State>, longer: seq<Step>, pid: nat, user: User, finger: Finger)
    requires states <= more && steps <= longer && IsCleared(states, steps, pid, user, finger)
    ensures IsCleared(more, longer, pid, user, finger)
  {
    hide Succeeded;
    var i: nat :| ClearedAt(states, steps, i, pid, user, finger);
    assert more[i] == states[i] && longer[i] == steps[i];
    assert ClearedAt(more, longer, i, pid, user, finger);
  }

  lemma EarnedLater(states: seq<State>, steps: seq<Step>, more: seq<State>, longer: seq<Step>, pid: nat, p: Proc)
    requires states <= more && steps <= longer && Earned(states, steps, pid, p)
    ensures Earned(more, longer, pid, p)
  {
    hide IsStored, IsCleared;
    match p {
      case EnrollEnd(u, f, _, slot, stored) =>
        if stored {
          StoredLater(states, steps, more, longer, pid, u, f, slot);
        }
      case EnrollStore(u, f, _, slot) => StoredLater(states, steps, more, longer, pid, u, f, slot);
      case DeleteNext(u, _, _, gone) => AllClearedLater(states, steps, more, longer, pid, u, gone);
      case DeleteAsked(u, _, _, gone) => AllClearedLater(states, steps, more, longer, pid, u, gone);
      case DeleteRows(u, _, gone) => AllClearedLater(states, steps, more, longer, pid, u, gone);
      case _ =>
    }
  }

  lemma AllClearedLater(states: seq<State>, steps: seq<Step>, more: seq<State>, longer: seq<Step>, pid: nat, user: User,
                        gone: seq<Finger>)
    requires states <= more && steps <= longer && forall f :: f in gone ==> IsCleared(states, steps, pid, user, f)
    ensures forall f :: f in gone ==> IsCleared(more, longer, pid, user, f)
  {
    hide IsCleared;
    forall f | f in gone ensures IsCleared(more, longer, pid, user, f) {
      ClearedLater(states, steps, more, longer, pid, user, f);
    }
  }

  /** The last step of a run, as a move of one process. */
  ghost predicate LastMove(states: seq<State>, steps: seq<Step>, pid: nat, input: Input) {
    && |steps| > 0 && |states| == |steps| + 1 && steps[|steps| - 1] == Advance(pid, input)
    && pid in states[|steps| - 1].procs && pid in states[|steps|].procs
  }

  /** A process that was confirmed nothing new has earned no more than before. */
  predicate NoMore(p: Proc, q: Proc) {
    match q
    case EnrollEnd(_, _, _, _, stored) => !stored || p == q
    case EnrollStore(u, f, _, slot) => p == q || (p.EnrollEnd? && p.stored && p.user == u && p.finger == f && p.slot == slot)
    case DeleteNext(u, _, _, gone) => gone == [] || p == q
    case DeleteAsked(u, _, _, gone) => p == q || (p.DeleteNext? && p.user == u && p.gone == gone)
    case DeleteRows(u, _, gone) =>
      p == q || (p.DeleteNext? && p.user == u && p.gone == gone)
      || (p.DeleteRows? && p.user == u && p.gone != [] && gone == p.gone[1..])
    case _ => true
  }

  lemma EarnedBefore(states: seq<State>, steps: seq<Step>, pid: nat, p: Proc, q: Proc)
    requires Earned(states, steps, pid, p) && NoMore(p, q)
    ensures Earned(states, steps, pid, q)
  {
    hide IsStored, IsCleared;
  }

  lemma InertNoMore(p: Proc, q: Proc)
    requires Inert(q)
    ensures NoMore(p, q)
  {
  }

  lemma VerifyNoMore(s: State, pid: nat, threshold: nat, input: Input)
    requires pid in s.procs && IsVerify(s.procs[pid])
    ensures var t := AdvanceVerify(s, pid, s.procs[pid], threshold, input);
            pid in t.procs && NoMore(s.procs[pid], t.procs[pid])
  {
    hide AdvanceVerify, IsVerify, NoMore, Inert;
    VerifyAside(s, pid, threshold, input);
    InertNoMore(s.procs[pid], AdvanceVerify(s, pid, s.procs[pid], threshold, input).procs[pid]);
  }

  /** The sensor has stored the template. */
  ghost predicate JustStored(s: State, pid: nat, input: Input, q: Proc)
    requires pid in s.procs && s.procs[pid].EnrollAsked?
  {
    var p := s.procs[pid];
    && AtHead(s, pid) && input.Answered? && Succeeded(input.reply)
    && q == EnrollEnd(p.user, p.finger, p.token, p.slot, true)
  }

  lemma EnrollNoMore(s: State, pid: nat, capacity: nat, input: Input)
    requires pid in s.procs && IsEnroll(s.procs[pid])
    ensures var t := AdvanceEnroll(s, pid, s.procs[pid], capacity, input);
            && pid in t.procs
            && (NoMore(s.procs[pid], t.procs[pid])
                || (s.procs[pid].EnrollAsked? && JustStored(s, pid, input, t.procs[pid])))
  {
    hide EndActionIfOwner, Succeeded, SetSlot;
    var p, t := s.procs[pid], AdvanceEnroll(s, pid, s.procs[pid], capacity, input);
    if !p.EnrollAsked? && !p.EnrollStore? && (p.EnrollEnd? ==> !p.stored || !EndActionIfOwner(s.claims, p.token).1) {
      hide AdvanceEnroll, NoMore, IsEnroll, Inert;
      EnrollAside(s, pid, capacity, input);
      InertNoMore(p, t.procs[pid]);
    }
  }

  lemma GateNoMore(s: State, pid: nat, input: Input)
    requires pid in s.procs && IsDelete(s.procs[pid]) && !Working(s.procs[pid])
    ensures var t := DeleteGate(s, pid, s.procs[pid], input);
            pid in t.procs && NoMore(s.procs[pid], t.procs[pid])
  {
    hide SlotOf, StartAction, UserSlots, IsOrderOf;
  }

  /** A delete that goes on to its next target. */
  ghost predicate NextTarget(s: State, pid: nat, input: Input, q: Proc)
    requires pid in s.procs && s.procs[pid].DeleteAsked?
  {
    var p := s.procs[pid];
    && p.todo != [] && AtHead(s, pid) && input.Answered?
    && q == DeleteNext(p.user, p.token, p.todo[1..],
                       if Succeeded(input.reply) then p.gone + [p.todo[0].finger] else p.gone)
  }

  lemma WorkNoMore(s: State, pid: nat, input: Input)
    requires pid in s.procs && Working(s.procs[pid])
    ensures var t := DeleteWork(s, pid, s.procs[pid], input);
            && pid in t.procs
            && (NoMore(s.procs[pid], t.procs[pid])
                || (s.procs[pid].DeleteAsked? && NextTarget(s, pid, input, t.procs[pid])))
  {
    hide Succeeded, RemoveFinger, EndActionIfOwner;
  }

  lemma JustStoredEarns(states: seq<State>, steps: seq<Step>, pid: nat, input: Input, q: Proc)
    requires LastMove(states, steps, pid, input)
    requires var s := states[|steps| - 1]; s.procs[pid].EnrollAsked? && JustStored(s, pid, input, q)
    ensures Earned(states, steps, pid, q)
  {
    hide Succeeded;
    assert StoredAt(states, steps, |steps| - 1, pid, q.user, q.finger, q.slot);
  }

  lemma NextTargetEarns(states: seq<State>, steps: seq<Step>, pid: nat, input: Input, q: Proc)
    requires LastMove(states, steps, pid, input)
    requires var s := states[|steps| - 1];
             s.procs[pid].DeleteAsked? && NextTarget(s, pid, input, q) && Earned(states, steps, pid, s.procs[pid])
    ensures Earned(states, steps, pid, q)
  {
    hide Succeeded;
    var p := states[|steps| - 1].procs[pid];
    if Succeeded(input.reply) {
      assert ClearedAt(states, steps, |steps| - 1, pid, p.user, p.todo[0].finger);
      assert IsCleared(states, steps, pid, p.user, p.todo[0].finger);
    }
    hide IsCleared;
  }

  lemma EnrollEarns(states: seq<State>, steps: seq<Step>, pid: nat, capacity: nat, input: Input)
    requires LastMove(states, steps, pid, input)
    requires var s := states[|steps| - 1];
             && IsEnroll(s.procs[pid]) && Earned(states, steps, pid, s.procs[pid])
             && states[|steps|] == AdvanceEnroll(s, pid, s.procs[pid], capacity, input)
    ensures Earned(states, steps, pid, states[|steps|].procs[pid])
  {
    hide AdvanceEnroll, IsEnroll, Earned, NoMore, JustStored;
    var s, q := states[|steps| - 1], states[|steps|].procs[pid];
    EnrollNoMore(s, pid, capacity, input);
    if NoMore(s.procs[pid], q) {
      EarnedBefore(states, steps, pid, s.procs[pid], q);
    } else {
      JustStoredEarns(states, steps, pid, input, q);
    }
  }

  lemma WorkEarns(states: seq<State>, steps: seq<Step>, pid: nat, input: Input)
    requires LastMove(states, steps, pid, input)
    requires var s := states[|steps| - 1];
             && Working(s.procs[pid]) && Earned(states, steps, pid, s.procs[pid])
             && states[|steps|] == DeleteWork(s, pid, s.procs[pid], input)
    ensures Earned(states, steps, pid, states[|steps|].procs[pid])
  {
    hide DeleteWork, Working, Earned, NoMore, NextTarget;
    var s, q := states[|steps| - 1], states[|steps|].procs[pid];
    WorkNoMore(s, pid, input);
    if NoMore(s.procs[pid], q) {
      EarnedBefore(states, steps, pid, s.procs[pid], q);
    } else {
      NextTargetEarns(states, steps, pid, input, q);
    }
  }

  lemma ProcEarns(states: seq<State>, steps: seq<Step>, pid: nat, threshold: nat, capacity: nat, input: Input)
    requires LastMove(states, steps, pid, input)
    requires var s := states[|steps| - 1];
             && Earned(states, steps, pid, s.procs[pid])
             && states[|steps|] == AdvanceProc(s, pid, threshold, capacity, input)
    ensures Earned(states, steps, pid, states[|steps|].procs[pid])
  {
    hide AdvanceVerify, AdvanceEnroll, DeleteGate, DeleteWork, StopAction, IsVerify, IsEnroll, IsDelete, Working, Earned,
         NoMore;
    var s, q := states[|steps| - 1], states[|steps|].procs[pid];
    var p := s.procs[pid];
    DeleteOrNot(p);
    if IsVerify(p) {
      VerifyNoMore(s, pid, threshold, input);
      EarnedBefore(states, steps, pid, p, q);
    } else if IsEnroll(p) {
      EnrollEarns(states, steps, pid, capacity, input);
    } else if p.StopEntry? {
      FinishedEarns(states, steps, pid);
    } else if Working(p) {
      WorkEarns(states, steps, pid, input);
    } else {
      GateNoMore(s, pid, input);
      EarnedBefore(states, steps, pid, p, q);
    }
  }

  lemma FinishedEarns(states: seq<State>, steps: seq<Step>, pid: nat)
    ensures Earned(states, steps, pid, Finished)
  {
  }

  lemma EntryTrail(states: seq<State>, steps: seq<Step>, j: nat, pid: nat, entry: Proc)
    requires EnteredAt(states, j, pid, entry)
    ensures Came(states, pid, entry) && Earned(states, steps, pid, entry)
  {
    assert Fits(entry, entry);
    hide EnteredAt;
  }

  lemma TrailStep(states: seq<State>, steps: seq<Step>, threshold: nat, capacity: nat)
    requires |steps| > 0 && |states| == |steps| + 1
    requires var n := |steps| - 1;
             && PermitInv(states[n]) && TrailInv(states[..n + 1], steps[..n], states[n])
             && Next(states[n], steps[n], states[n + 1], threshold, capacity)
    ensures TrailInv(states, steps, states[|steps|])
  {
    hide AdvanceProc, PermitInv, Came, Earned, Holds, IsEntry, FitsOn;
    var n := |steps| - 1;
    var s, step, t := states[n], steps[n], states[n + 1];
    if step.Advance? {
      ProcMoves(s, step.pid, threshold, capacity, step.input);
      ProcFitsOn(s, step.pid, threshold, capacity, step.input);
      MoveTrail(states, steps, threshold, capacity, step.pid, step.input);
    } else {
      OthersEnter(s, step, t, threshold, capacity);
      hide Next;
      forall pid | pid in t.procs
        ensures Came(states, pid, t.procs[pid]) && Earned(states, steps, pid, t.procs[pid])
      {
        if pid in s.procs {
          CameLater(states[..n + 1], states, pid, s.procs[pid], s.procs[pid]);
          EarnedLater(states[..n + 1], steps[..n], states, steps, pid, s.procs[pid]);
        } else {
          assert EnteredAt(states, n, pid, t.procs[pid]);
          EntryTrail(states, steps, n, pid, t.procs[pid]);
        }
      }
    }
  }

  lemma MoveTrail(states: seq<State>, steps: seq<Step>, threshold: nat, capacity: nat, pid: nat, input: Input)
    requires |steps| > 0 && |states| == |steps| + 1
    requires var n := |steps| - 1;
             && TrailInv(states[..n + 1], steps[..n], states[n]) && steps[n] == Advance(pid, input)
             && Next(states[n], steps[n], states[n + 1], threshold, capacity)
             && MovesAlone(states[n], pid, states[n + 1]) && FitsOn(states[n], pid, states[n + 1])
    ensures TrailInv(states, steps, states[|steps|])
  {
    hide AdvanceProc, Came, Earned, Holds, Fits;
    var n := |steps| - 1;
    var s, t := states[n], states[n + 1];
    forall other | other in t.procs
      ensures Came(states, other, t.procs[other]) && Earned(states, steps, other, t.procs[other])
    {
      CameLater(states[..n + 1], states, other, s.procs[other], t.procs[other]);
      EarnedLater(states[..n + 1], steps[..n], states, steps, other, s.procs[other]);
      if other == pid {
        ProcEarns(states, steps, pid, threshold, capacity, input);
      }
    }
  }

  lemma {:induction false} TrailAlways(states: seq<State>, steps: seq<Step>, threshold: nat, capacity: nat)
    requires IsRun(states, steps, threshold, capacity)
    ensures TrailInv(states, steps, states[|steps|])
  {
    hide Next, Came, Earned;
    if |steps| > 0 {
      hide Init, PermitInv, SlotsInv, QueueInv, TrailInv;
      RunPrefix(states, steps, threshold, capacity);
      SafeAlways(states[..|steps|], steps[..|steps| - 1], threshold, capacity);
      TrailAlways(states[..|steps|], steps[..|steps| - 1], threshold, capacity);
      TrailStep(states, steps, threshold, capacity);
    }
  }

  // ----- every change of a row -----

  /** An EnrollStart for this finger, from a caller who passed the claim check as this user,
      became the process; the sensor then told it that the template is at this slot. */
  ghost predicate EnrolledBy(states: seq<State>, steps: seq<Step>, n: nat, pid: nat, user: User, finger: Finger, slot: byte) {
    exists j: nat, i: nat ::
      && j < n <= |steps| && n < |states| && i < n && pid !in states[j].procs
      && steps[j].EnrollStart? && steps[j].pid == pid && steps[j].finger == finger
      && EnsureClaim(states[j].claims, steps[j].sender) == Ok(user)
      && StoredAt(states, steps, i, pid, user, finger, slot)
  }

  /** A delete of all this user's fingers, or of this one, became the process; the sensor
      then told it that this finger's template is gone. */
  ghost predicate DeletedBy(states: seq<State>, steps: seq<Step>, n: nat, pid: nat, user: User, finger: Finger) {
    exists j: nat, i: nat ::
      && j < n <= |steps| && n < |states| && i < n && pid !in states[j].procs
      && (|| steps[j] == DeleteAll(pid, user)
          || (steps[j].DeleteClaimed? && steps[j].pid == pid && EnsureClaim(states[j].claims, steps[j].sender) == Ok(user))
          || (steps[j].DeleteOne? && steps[j].pid == pid && steps[j].finger == finger
              && EnsureClaim(states[j].claims, steps[j].sender) == Ok(user)))
      && ClearedAt(states, steps, i, pid, user, finger)
  }

  /** Which step an entry goes back to. */
  lemma EntryBy(s: State, step: Step, t: State, threshold: nat, capacity: nat, pid: nat)
    requires PermitInv(s) && Next(s, step, t, threshold, capacity) && pid !in s.procs && pid in t.procs
    ensures t.procs[pid].EnrollEntry? ==>
              && step.EnrollStart? && step.pid == pid && step.finger == t.procs[pid].finger
              && EnsureClaim(s.claims, step.sender) == Ok(t.procs[pid].user)
    ensures t.procs[pid].DeleteEntry? ==>
              || step == DeleteAll(pid, t.procs[pid].user)
              || (step.DeleteClaimed? && step.pid == pid && EnsureClaim(s.claims, step.sender) == Ok(t.procs[pid].user))
    ensures t.procs[pid].DeleteOneEntry? ==>
              && step.DeleteOne? && step.pid == pid && step.finger == t.procs[pid].finger
              && EnsureClaim(s.claims, step.sender) == Ok(t.procs[pid].user)
  {
    hide AdvanceProc, PermitInv, Holds, EnsureClaim;
    if step.Advance? {
      ProcMoves(s, step.pid, threshold, capacity, step.input);
    }
  }

  /** The registry changes only as an enroll stores its row, or a delete drops one. */
  lemma RowsMove(s: State, step: Step, t: State, threshold: nat, capacity: nat)
    requires PermitInv(s) && SlotsInv(s) && Next(s, step, t, threshold, capacity)
    ensures t.users == s.users
            || (step.Advance? && step.pid in s.procs
                && var p := s.procs[step.pid];
                   || (p.EnrollStore? && t.users == SetSlot(s.users, p.user, p.finger, p.slot))
                   || (p.DeleteRows? && p.gone != [] && t.users == RemoveFinger(s.users, p.user, p.gone[0])))
  {
    if step.Advance? {
      hide AdvanceVerify, AdvanceDelete, AdvanceStop, IsVerify, IsEnroll, IsDelete, SlotsInv, PermitInv, SetSlot, RemoveFinger,
           VerifyKeeps, EnrollKeeps, AdvanceEnroll;
      var p := s.procs[step.pid];
      DeleteOrNot(p);
      if IsVerify(p) {
        VerifyChoice(s, step.pid, threshold, step.input);
        VerifyRows(s, step.pid, t);
      } else if IsEnroll(p) {
        EnrollRows(s, step.pid, capacity, step.input);
      } else if p.StopEntry? {
        StopChoice(s, step.pid);
      } else {
        DeleteTakes(s, step.pid, p, step.input);
      }
    } else {
      OthersEnter(s, step, t, threshold, capacity);
    }
  }

  lemma VerifyRows(s: State, pid: nat, t: State)
    requires VerifyKeeps(s, pid, t)
    ensures t.users == s.users
  {
  }

  lemma EnrollRows(s: State, pid: nat, capacity: nat, input: Input)
    requires pid in s.procs && IsEnroll(s.procs[pid])
    ensures var p := s.procs[pid];
            AdvanceEnroll(s, pid, p, capacity, input).users
            == if p.EnrollStore? then SetSlot(s.users, p.user, p.finger, p.slot) else s.users
  {
    hide SlotOf, Lowest, SetSlot, StartAction, EndActionIfOwner, UserSlots, Succeeded;
  }

  /** In every run, whenever a step changes what the registry says of a finger, it is the step
      of a process: either an enroll of that finger, for the user who then held the claim,
      whose template the sensor has stored at the slot the row now gives; or a delete the
      user was asked for, once the sensor has cleared that finger's template. */
  lemma EveryRowIsEarned(states: seq<State>, steps: seq<Step>, threshold: nat, capacity: nat, n: nat, user: User, finger: Finger)
    requires IsRun(states, steps, threshold, capacity) && n < |steps|
    requires SlotOf(states[n + 1].users, user, finger) != SlotOf(states[n].users, user, finger)
    ensures steps[n].Advance?
    ensures match SlotOf(states[n + 1].users, user, finger)
            case Some(slot) => EnrolledBy(states, steps, n, steps[n].pid, user, finger, slot)
            case None => DeletedBy(states, steps, n, steps[n].pid, user, finger)
  {
    hide Init, Next, PermitInv, SlotsInv, QueueInv, TrailInv, SlotOf, SetSlot, RemoveFinger, EnrolledBy, DeletedBy;
    var ss, ts := states[..n + 1], steps[..n];
    RunTake(states, steps, threshold, capacity, n);
    SafeAlways(ss, ts, threshold, capacity);
    TrailAlways(ss, ts, threshold, capacity);
    assert ss[n] == states[n];
    assert Next(states[n], steps[n], states[n + 1], threshold, capacity);
    RowsMove(states[n], steps[n], states[n + 1], threshold, capacity);
    var p := states[n].procs[steps[n].pid];
    if p.EnrollStore? {
      SetSlotRows(states[n].users, p.user, p.finger, p.slot, user, finger);
      EnrollTraced(states, steps, threshold, capacity, n, steps[n].pid);
    } else {
      RemoveFingerRows(states[n].users, p.user, p.gone[0], user, finger);
      DeleteTraced(states, steps, threshold, capacity, n, steps[n].pid);
    }
  }

  lemma EnrollTraced(states: seq<State>, steps: seq<Step>, threshold: nat, capacity: nat, n: nat, pid: nat)
    requires IsRun(states, steps, threshold, capacity) && n <= |steps| && TrailInv(states[..n + 1], steps[..n], states[n])
    requires pid in states[n].procs && states[n].procs[pid].EnrollStore?
    ensures var p := states[n].procs[pid]; EnrolledBy(states, steps, n, pid, p.user, p.finger, p.slot)
  {
    hide Init, Next, EnsureClaim, ConfirmedAt;
    var p := states[n].procs[pid];
    var j, entry := EntryOf(states, steps, threshold, capacity, n, pid);
    assert IsStored(states[..n + 1], steps[..n], pid, p.user, p.finger, p.slot);
    var i: nat :| StoredAt(states[..n + 1], steps[..n], i, pid, p.user, p.finger, p.slot);
    StoredBefore(states, steps, n, i, pid, p.user, p.finger, p.slot);
  }

  lemma StoredBefore(states: seq<State>, steps: seq<Step>, n: nat, i: nat, pid: nat, user: User, finger: Finger, slot: byte)
    requires n <= |steps| && n < |states| && StoredAt(states[..n + 1], steps[..n], i, pid, user, finger, slot)
    ensures i < n && StoredAt(states, steps, i, pid, user, finger, slot)
  {
    hide Succeeded;
  }

  lemma ClearedBefore(states: seq<State>, steps: seq<Step>, n: nat, i: nat, pid: nat, user: User, finger: Finger)
    requires n <= |steps| && n < |states| && ClearedAt(states[..n + 1], steps[..n], i, pid, user, finger)
    ensures i < n && ClearedAt(states, steps, i, pid, user, finger)
  {
    hide Succeeded;
  }

  /** The entry of a process, and what its step was. */
  lemma EntryOf(states: seq<State>, steps: seq<Step>, threshold: nat, capacity: nat, n: nat, pid: nat)
    returns (j: nat, entry: Proc)
    requires IsRun(states, steps, threshold, capacity) && n <= |steps| && TrailInv(states[..n + 1], steps[..n], states[n])
    requires pid in states[n].procs
    ensures j < n && pid !in states[j].procs && Fits(entry, states[n].procs[pid])
    ensures entry.EnrollEntry? ==>
              && steps[j].EnrollStart? && steps[j].pid == pid && steps[j].finger == entry.finger
              && EnsureClaim(states[j].claims, steps[j].sender) == Ok(entry.user)
    ensures entry.DeleteEntry? ==>
              || steps[j] == DeleteAll(pid, entry.user)
              || (steps[j].DeleteClaimed? && steps[j].pid == pid
                  && EnsureClaim(states[j].claims, steps[j].sender) == Ok(entry.user))
    ensures entry.DeleteOneEntry? ==>
              && steps[j].DeleteOne? && steps[j].pid == pid && steps[j].finger == entry.finger
              && EnsureClaim(states[j].claims, steps[j].sender) == Ok(entry.user)
  {
    hide Init, Next, EnsureClaim, Fits, Earned, PermitInv, SlotsInv, QueueInv, IsEntry;
    var ss := states[..n + 1];
    assert Came(ss, pid, states[n].procs[pid]);
    j, entry :| EnteredAt(ss, j, pid, entry) && Fits(entry, states[n].procs[pid]);
    assert ss[j] == states[j] && ss[j + 1] == states[j + 1];
    RunTake(states, steps, threshold, capacity, j);
    SafeAlways(states[..j + 1], steps[..j], threshold, capacity);
    assert states[..j + 1][j] == states[j];
    assert Next(states[j], steps[j], states[j + 1], threshold, capacity);
    EntryBy(states[j], steps[j], states[j + 1], threshold, capacity, pid);
  }

  lemma DeleteTraced(states: seq<State>, steps: seq<Step>, threshold: nat, capacity: nat, n: nat, pid: nat)
    requires IsRun(states, steps, threshold, capacity) && n <= |steps| && TrailInv(states[..n + 1], steps[..n], states[n])
    requires pid in states[n].procs && states[n].procs[pid].DeleteRows? && states[n].procs[pid].gone != []
    ensures var p := states[n].procs[pid]; DeletedBy(states, steps, n, pid, p.user, p.gone[0])
  {
    hide Init, Next, EnsureClaim, IsCleared, DeletedBy, Came;
    var p := states[n].procs[pid];
    var j, entry := EntryOf(states, steps, threshold, capacity, n, pid);
    assert p.gone[0] in p.gone;
    var i := ClearedWhen(states, steps, n, pid, p.user, p.gone[0]);
    DeletedOnce(states, steps, n, pid, p.user, p.gone[0], j, i, entry);
  }

  lemma ClearedWhen(states: seq<State>, steps: seq<Step>, n: nat, pid: nat, user: User, finger: Finger) returns (i: nat)
    requires n <= |steps| && n < |states| && IsCleared(states[..n + 1], steps[..n], pid, user, finger)
    ensures i < n && ClearedAt(states, steps, i, pid, user, finger)
  {
    hide ClearedAt;
    i :| ClearedAt(states[..n + 1], steps[..n], i, pid, user, finger);
    ClearedBefore(states, steps, n, i, pid, user, finger);
  }

  lemma DeletedOnce(states: seq<State>, steps: seq<Step>, n: nat, pid: nat, user: User, finger: Finger, j: nat, i: nat, entry: Proc)
    requires j < n <= |steps| && n < |states| && i < n && pid !in states[j].procs
    requires ClearedAt(states, steps, i, pid, user, finger)
    requires entry == DeleteEntry(user) || entry == DeleteOneEntry(user, finger)
    requires entry.DeleteEntry? ==>
               || steps[j] == DeleteAll(pid, user)
               || (steps[j].DeleteClaimed? && steps[j].pid == pid && EnsureClaim(states[j].claims, steps[j].sender) == Ok(user))
    requires entry.DeleteOneEntry? ==>
               && steps[j].DeleteOne? && steps[j].pid == pid && steps[j].finger == finger
               && EnsureClaim(states[j].claims, steps[j].sender) == Ok(user)
    ensures DeletedBy(states, steps, n, pid, user, finger)
  {
    hide ClearedAt, EnsureClaim;
  }

  // ----- what is confirmed is done -----

  lemma StoredMoves(s: State, pid: nat, threshold: nat, capacity: nat, input: Input)
    requires pid in s.procs && s.procs[pid].EnrollAsked? && AtHead(s, pid) && input.Answered?
    ensures var p := s.procs[pid];
            var t := AdvanceProc(s, pid, threshold, capacity, input);
            pid in t.procs && t.procs[pid] == EnrollEnd(p.user, p.finger, p.token, p.slot, Succeeded(input.reply))
  {
    hide AdvanceVerify, AdvanceDelete, Lowest, SlotOf, SetSlot, Succeeded;
  }

  lemma EnrollEndMoves(s: State, pid: nat, threshold: nat, capacity: nat, input: Input)
    requires pid in s.procs && s.procs[pid].EnrollEnd?
    ensures var p := s.procs[pid];
            var t := AdvanceProc(s, pid, threshold, capacity, input);
            && pid in t.procs
            && t.procs[pid] == if s.claims.action != Some(p.token) then Finished
                               else if p.stored then EnrollStore(p.user, p.finger, p.token, p.slot) else EnrollTell(p.token)
  {
    hide AdvanceVerify, AdvanceDelete, Lowest, SlotOf, SetSlot;
  }

  lemma StoreMoves(s: State, pid: nat, threshold: nat, capacity: nat, input: Input)
    requires pid in s.procs && s.procs[pid].EnrollStore?
    ensures var p := s.procs[pid];
            AdvanceProc(s, pid, threshold, capacity, input).users == SetSlot(s.users, p.user, p.finger, p.slot)
  {
    hide AdvanceVerify, AdvanceDelete, Lowest, SlotOf, SetSlot;
  }

  /** When the sensor tells an enroll, at step `a`, that the template is stored, and the task
      still owns its token at its next step, `b`, its step after that, `c`, registers the
      slot for the user and the finger; with the token gone it registers nothing. */
  lemma EnrolledFingerIsStored(states: seq<State>, steps: seq<Step>, threshold: nat, capacity: nat, a: nat, b: nat, c: nat,
                               pid: nat, later: Input, last: Input)
    requires IsRun(states, steps, threshold, capacity) && a < b < c < |steps|
    requires ConfirmedAt(states, steps, a, pid) && states[a].procs[pid].EnrollAsked?
    requires Rests(steps, pid, a + 1, b) && steps[b] == Advance(pid, later)
    requires Rests(steps, pid, b + 1, c) && steps[c] == Advance(pid, last)
    ensures var p := states[a].procs[pid];
            && pid in states[b + 1].procs && pid in states[c].procs
            && (if states[b].claims.action == Some(p.token) then
                  SlotOf(states[c + 1].users, p.user, p.finger) == Some(p.slot)
                else states[c].procs[pid] == Finished)
  {
    hide Init, Next, AdvanceProc, Succeeded, SlotOf, SetSlot, AtHead;
    var p := states[a].procs[pid];
    assert Next(states[a], steps[a], states[a + 1], threshold, capacity);
    assert Next(states[b], steps[b], states[b + 1], threshold, capacity);
    assert Next(states[c], steps[c], states[c + 1], threshold, capacity);
    AdvanceIs(states[a], pid, steps[a].input, states[a + 1], threshold, capacity);
    AdvanceIs(states[b], pid, later, states[b + 1], threshold, capacity);
    AdvanceIs(states[c], pid, last, states[c + 1], threshold, capacity);
    StoredMoves(states[a], pid, threshold, capacity, steps[a].input);
    StaysPut(states, steps, threshold, capacity, pid, a + 1, b);
    EnrollEndMoves(states[b], pid, threshold, capacity, later);
    StaysPut(states, steps, threshold, capacity, pid, b + 1, c);
    if states[b].claims.action == Some(p.token) {
      StoreMoves(states[c], pid, threshold, capacity, last);
      SetSlotRows(states[c].users, p.user, p.finger, p.slot, p.user, p.finger);
    }
  }

  lemma AdvanceIs(s: State, pid: nat, input: Input, t: State, threshold: nat, capacity: nat)
    requires Next(s, Advance(pid, input), t, threshold, capacity)
    ensures pid in s.procs && t == AdvanceProc(s, pid, threshold, capacity, input)
  {
    hide AdvanceProc;
  }

  // ----- a delete leaves no finger out -----

  /** The delete will still come to this finger. */
  ghost predicate Pending(p: Proc, finger: Finger) {
    match p
    case DeleteNext(_, _, todo, gone) => finger in gone || exists t :: t in todo && t.finger == finger
    case DeleteAsked(_, _, todo, gone) => finger in gone || exists t :: t in todo && t.finger == finger
    case DeleteRows(_, _, gone) => finger in gone
    case _ => false
  }

  /** In the `k`th step it dropped the finger's row, or the sensor refused to clear its slot. */
  ghost predicate Handled(states: seq<State>, steps: seq<Step>, k: nat, pid: nat, user: User, finger: Finger) {
    && k < |steps| && k + 1 < |states| && pid in states[k].procs && steps[k].Advance? && steps[k].pid == pid
    && var p := states[k].procs[pid];
       || (p.DeleteRows? && SlotOf(states[k + 1].users, user, finger) == None)
       || (p.DeleteAsked? && p.todo != [] && p.todo[0].finger == finger && AtHead(states[k], pid)
           && steps[k].input.Answered? && !Succeeded(steps[k].input.reply))
  }

  ghost predicate IsHandled(states: seq<State>, steps: seq<Step>, from: nat, to: nat, pid: nat, user: User, finger: Finger) {
    exists k: nat :: from <= k < to && Handled(states, steps, k, pid, user, finger)
  }

  predicate AtWork(p: Proc, user: User) {
    || ((p.DeleteNext? || p.DeleteAsked? || p.DeleteRows?) && p.user == user)
    || p.DeleteEnd? || p.Finished?
  }

  /** One own step: what was pending is pending still, or was just handled. */
  lemma WorkVisits(s: State, pid: nat, user: User, input: Input, finger: Finger)
    requires pid in s.procs && Working(s.procs[pid]) && AtWork(s.procs[pid], user) && Pending(s.procs[pid], finger)
    ensures var p, t := s.procs[pid], DeleteWork(s, pid, s.procs[pid], input);
            && pid in t.procs
            && (|| Pending(t.procs[pid], finger)
                || (p.DeleteRows? && SlotOf(t.users, user, finger) == None)
                || (p.DeleteAsked? && p.todo != [] && p.todo[0].finger == finger && AtHead(s, pid)
                    && input.Answered? && !Succeeded(input.reply)))
  {
    hide Succeeded, RemoveFinger, SlotOf, EndActionIfOwner;
    var p := s.procs[pid];
    if p.DeleteRows? && p.gone != [] {
      RemoveFingerRows(s.users, user, p.gone[0], user, finger);
    }
  }

  lemma WorkStaysAt(s: State, pid: nat, user: User, input: Input)
    requires pid in s.procs && Working(s.procs[pid]) && AtWork(s.procs[pid], user)
    ensures var t := DeleteWork(s, pid, s.procs[pid], input);
            pid in t.procs && AtWork(t.procs[pid], user)
  {
    hide Succeeded, RemoveFinger, EndActionIfOwner, Ended;
  }

  lemma FinishedStays(s: State, pid: nat, threshold: nat, capacity: nat, input: Input)
    requires pid in s.procs && s.procs[pid].Finished?
    ensures AdvanceProc(s, pid, threshold, capacity, input) == s
  {
    hide AdvanceVerify, AdvanceEnroll, DeleteWork;
  }

  lemma ListMoves(s: State, pid: nat, threshold: nat, capacity: nat, targets: seq<Target>)
    requires pid in s.procs && s.procs[pid].DeleteMinted? && IsOrderOf(targets, UserSlots(s.users, s.procs[pid].user))
    ensures var p := s.procs[pid];
            var t := AdvanceProc(s, pid, threshold, capacity, Order(targets));
            pid in t.procs && t.procs[pid] == DeleteNext(p.user, p.token, targets, [])
  {
    hide AdvanceVerify, AdvanceEnroll, DeleteWork, IsOrderOf, UserSlots;
  }

  ghost predicate Visiting(states: seq<State>, steps: seq<Step>, n: nat, k: nat, pid: nat, user: User, finger: Finger)
    requires k < |states|
  {
    && pid in states[k].procs && AtWork(states[k].procs[pid], user)
    && (Pending(states[k].procs[pid], finger) || IsHandled(states, steps, n, k, pid, user, finger))
  }

  lemma HandledLonger(states: seq<State>, steps: seq<Step>, n: nat, k: nat, m: nat, pid: nat, user: User, finger: Finger)
    requires IsHandled(states, steps, n, k, pid, user, finger) && k <= m
    ensures IsHandled(states, steps, n, m, pid, user, finger)
  {
    hide Handled;
  }

  lemma HandledNow(states: seq<State>, steps: seq<Step>, n: nat, k: nat, pid: nat, user: User, finger: Finger)
    requires n <= k && Handled(states, steps, k, pid, user, finger)
    ensures IsHandled(states, steps, n, k + 1, pid, user, finger)
  {
    hide Handled;
  }

  lemma VisitOn(states: seq<State>, steps: seq<Step>, threshold: nat, capacity: nat, n: nat, k: nat, pid: nat,
                user: User, finger: Finger, input: Input)
    requires n <= k < |steps| && |states| == |steps| + 1 && Visiting(states, steps, n, k, pid, user, finger)
    requires steps[k] == Advance(pid, input) && states[k + 1] == AdvanceProc(states[k], pid, threshold, capacity, input)
    ensures Visiting(states, steps, n, k + 1, pid, user, finger)
  {
    hide IsHandled, DeleteWork, DeleteGate, AdvanceVerify, AdvanceEnroll, SlotOf, Succeeded, Pending;
    var s, p := states[k], states[k].procs[pid];
    if p.Finished? {
      FinishedStays(s, pid, threshold, capacity, input);
    } else {
      WorkStaysAt(s, pid, user, input);
      if Pending(p, finger) {
        WorkVisits(s, pid, user, input, finger);
        if !Pending(states[k + 1].procs[pid], finger) {
          HandledNow(states, steps, n, k, pid, user, finger);
        }
      }
    }
    if IsHandled(states, steps, n, k, pid, user, finger) {
      HandledLonger(states, steps, n, k, k + 1, pid, user, finger);
    }
  }

  lemma {:induction false} Visits(states: seq<State>, steps: seq<Step>, threshold: nat, capacity: nat, n: nat, k: nat, pid: nat,
                                  user: User, finger: Finger)
    requires IsRun(states, steps, threshold, capacity) && n <= k <= |steps| && Visiting(states, steps, n, n, pid, user, finger)
    ensures Visiting(states, steps, n, k, pid, user, finger)
    decreases k
  {
    hide Init, Next, PermitInv, SlotsInv, QueueInv, AtWork, Pending, IsHandled, AdvanceProc;
    if n < k {
      Visits(states, steps, threshold, capacity, n, k - 1, pid, user, finger);
      RunTake(states, steps, threshold, capacity, k - 1);
      SafeAlways(states[..k], steps[..k - 1], threshold, capacity);
      assert states[..k][k - 1] == states[k - 1];
      assert Next(states[k - 1], steps[k - 1], states[k - 1 + 1], threshold, capacity);
      if steps[k - 1].Advance? && steps[k - 1].pid == pid {
        AdvanceIs(states[k - 1], pid, steps[k - 1].input, states[k], threshold, capacity);
        VisitOn(states, steps, threshold, capacity, n, k - 1, pid, user, finger, steps[k - 1].input);
      } else {
        OthersStayPut(states[k - 1], steps[k - 1], states[k], threshold, capacity, pid);
        if IsHandled(states, steps, n, k - 1, pid, user, finger) {
          HandledLonger(states, steps, n, k - 1, k, pid, user, finger);
        }
      }
    }
  }

  /** By the time a delete of all a user's fingers comes to its end, each finger that was
      registered when it listed them has lost its row, or the sensor has refused to clear
      its template. */
  lemma DeleteLeavesNoneOut(states: seq<State>, steps: seq<Step>, threshold: nat, capacity: nat, n: nat, m: nat, pid: nat,
                            targets: seq<Target>, finger: Finger)
    requires IsRun(states, steps, threshold, capacity) && Moves(states, steps, n, pid, Order(targets)) && n < m <= |steps|
    requires states[n].procs[pid].DeleteMinted?
    requires IsOrderOf(targets, UserSlots(states[n].users, states[n].procs[pid].user))
    requires SlotOf(states[n].users, states[n].procs[pid].user, finger).Some?
    requires pid in states[m].procs && states[m].procs[pid].DeleteEnd?
    ensures IsHandled(states, steps, n + 1, m, pid, states[n].procs[pid].user, finger)
  {
    hide Init, Next, AdvanceProc, IsHandled;
    var user := states[n].procs[pid].user;
    assert Next(states[n], steps[n], states[n + 1], threshold, capacity);
    AdvanceIs(states[n], pid, Order(targets), states[n + 1], threshold, capacity);
    ListMoves(states[n], pid, threshold, capacity, targets);
    var rows := UserSlots(states[n].users, user);
    assert Target(finger, rows[finger]) in targets;
    hide IsRun;
    Visits(states, steps, threshold, capacity, n + 1, m, pid, user, finger);
  }
}

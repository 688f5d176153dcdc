/** One action at a time: which processes can be between minting a token and giving it back. */
module DaemonActions {
  import opened Bytes
  import opened Outcomes
  import opened Storage
  import opened Device
  import opened Worker
  import opened Daemon
  import opened DaemonSafety
  import opened DaemonTokens

  /** The token a process has minted and not yet given back. */
  function TokenOf(p: Proc): Option<Token> {
    match p
    case VerifyMinted(_, _, token, _) => Some(token)
    case VerifyTurn(c, _) => Some(c.token)
    case VerifyAsk(c, _) => Some(c.token)
    case VerifyAsked(c, _) => Some(c.token)
    case VerifyEnd(c, _) => Some(c.token)
    case EnrollMinted(_, _, token) => Some(token)
    case EnrollNew(_, _, token) => Some(token)
    case EnrollFull(token) => Some(token)
    case EnrollAsk(_, _, token, _) => Some(token)
    case EnrollAsked(_, _, token, _) => Some(token)
    case EnrollEnd(_, _, token, _, _) => Some(token)
    case DeleteMinted(_, token) => Some(token)
    case DeleteNext(_, token, _, _) => Some(token)
    case DeleteAsked(_, token, _, _) => Some(token)
    case DeleteRows(_, token, _) => Some(token)
    case DeleteEnd(token) => Some(token)
    case _ => None
  }

  function KindOf(p: Proc): ActionKind {
    if IsVerify(p) then VerifyAction else if IsEnroll(p) then EnrollAction else DeleteAction
  }

  predicate Acting(p: Proc) {
    TokenOf(p).Some?
  }

  /** Some Release, Disconnect or Stop took this token out of the action slot. */
  predicate RemovedFromOutside(s: State, token: Token) {
    Cleared(token, false) in s.cleared
  }

  ghost predicate Holding(s: State, pid: nat, p: Proc)
    requires Acting(p)
  {
    && (s.claims.action == TokenOf(p) || RemovedFromOutside(s, TokenOf(p).value))
    && TokenOf(p).value.kind == KindOf(p) && MintedBy(s, pid, TokenOf(p).value)
  }

  ghost predicate HoldInv(s: State) {
    forall pid :: pid in s.procs && Acting(s.procs[pid]) ==> Holding(s, pid, s.procs[pid])
  }

  // ----- one step -----

  ghost predicate MintsOwn(s: State, pid: nat, token: Token, t: State) {
    && s.claims.action == None && t.claims.action == Some(token) && t.cleared == s.cleared
    && |t.mints| == |s.mints| + 1 && t.mints[..|s.mints|] == s.mints
    && t.mints[|s.mints|].token == token && t.mints[|s.mints|].pid == pid
  }

  ghost predicate GivesBack(s: State, token: Token, t: State) {
    && t.mints == s.mints && s.cleared <= t.cleared
    && t.claims.action == if s.claims.action == Some(token) then None else s.claims.action
  }

  ghost predicate LeavesOrRemoves(s: State, t: State) {
    && t.mints == s.mints && s.cleared <= t.cleared
    && (t.claims.action == s.claims.action
        || (t.claims.action == None && s.claims.action.Some? && RemovedFromOutside(t, s.claims.action.value)))
  }

  ghost predicate HandlesToken(s: State, pid: nat, t: State) {
    && pid in s.procs && pid in t.procs
    && var p, q := s.procs[pid], t.procs[pid];
       match TokenOf(q)
       case Some(token) =>
         || (token.kind == KindOf(q) && MintsOwn(s, pid, token, t))
         || (TokenOf(p) == Some(token) && KindOf(p) == KindOf(q)
             && t.claims == s.claims && t.mints == s.mints && t.cleared == s.cleared)
       case None => if Acting(p) then GivesBack(s, TokenOf(p).value, t) else LeavesOrRemoves(s, t)
  }

  /** The process goes on, or ends without having had a token. */
  ghost predicate Carries(s: State, pid: nat, t: State) {
    && pid in s.procs && pid in t.procs
    && t.claims == s.claims && t.mints == s.mints && t.cleared == s.cleared
    && TokenOf(t.procs[pid]) == TokenOf(s.procs[pid])
    && (Acting(t.procs[pid]) ==> KindOf(t.procs[pid]) == KindOf(s.procs[pid]))
  }

  lemma CarryingHandles(s: State, pid: nat, t: State)
    requires Carries(s, pid, t)
    ensures HandlesToken(s, pid, t)
  {
    hide TokenOf, KindOf;
  }

  lemma MintHandles(s: State, pid: nat, kind: ActionKind, user: User, p: Proc, t: State)
    requires s.claims.action == None && pid in s.procs && t == At(Minted(s, pid, kind, user), pid, p)
    requires TokenOf(p) == Some(StartAction(s.claims, kind).1) && KindOf(p) == kind
    ensures HandlesToken(s, pid, t)
  {
    hide TokenOf, KindOf, UserSlots;
    assert t.mints[|s.mints|] == Mint(TokenOf(p).value, pid, user, UserSlots(s.users, user));
    assert MintsOwn(s, pid, TokenOf(p).value, t);
  }

  lemma EndHandles(s: State, pid: nat, token: Token, t: State)
    requires pid in s.procs && TokenOf(s.procs[pid]) == Some(token) && pid in t.procs && !Acting(t.procs[pid])
    requires t.claims == Ended(s, token).claims && t.mints == s.mints && t.cleared == Ended(s, token).cleared
    ensures HandlesToken(s, pid, t)
  {
    hide TokenOf, KindOf;
  }

  lemma VerifyCarriesToken(s: State, pid: nat, threshold: nat, input: Input)
    requires pid in s.procs && IsVerify(s.procs[pid])
    requires var p := s.procs[pid];
             && !p.VerifyEnd? && (p.VerifyPermit? ==> s.claims.action.Some?)
             && (p.VerifyMinted? ==> Expected(p.selected, p.rows).Some?)
    ensures Carries(s, pid, AdvanceVerify(s, pid, s.procs[pid], threshold, input))
  {
    hide Decide, Expected, UserSlots, Succeeded, EndActionIfOwner, StartAction, Minted, Ended;
  }

  lemma VerifyHandles(s: State, pid: nat, threshold: nat, input: Input)
    requires pid in s.procs && IsVerify(s.procs[pid])
    ensures HandlesToken(s, pid, AdvanceVerify(s, pid, s.procs[pid], threshold, input))
  {
    hide HandlesToken, Decide, Expected, UserSlots, EndActionIfOwner, StartAction, Carries;
    var p, t := s.procs[pid], AdvanceVerify(s, pid, s.procs[pid], threshold, input);
    if p.VerifyPermit? && s.claims.action.None? {
      hide Minted;
      MintHandles(s, pid, VerifyAction, p.user, t.procs[pid], t);
    } else if p.VerifyEnd? || (p.VerifyMinted? && Expected(p.selected, p.rows).None?) {
      EndHandles(s, pid, TokenOf(p).value, t);
    } else {
      hide AdvanceVerify, IsVerify;
      VerifyCarriesToken(s, pid, threshold, input);
      CarryingHandles(s, pid, t);
    }
  }

  lemma EnrollCarriesToken(s: State, pid: nat, capacity: nat, input: Input)
    requires pid in s.procs && IsEnroll(s.procs[pid])
    requires var p := s.procs[pid]; !p.EnrollEnd? && !p.EnrollFull? && (p.EnrollPermit? ==> s.claims.action.Some?)
    ensures Carries(s, pid, AdvanceEnroll(s, pid, s.procs[pid], capacity, input))
  {
    hide SlotOf, Lowest, SetSlot, UserSlots, Succeeded, EndActionIfOwner, StartAction, Minted, Ended;
  }

  lemma EnrollEnds(s: State, pid: nat, capacity: nat, input: Input)
    requires pid in s.procs && (s.procs[pid].EnrollEnd? || s.procs[pid].EnrollFull?)
    ensures HandlesToken(s, pid, AdvanceEnroll(s, pid, s.procs[pid], capacity, input))
  {
    hide HandlesToken, UserSlots, StartAction, Lowest, SlotOf, SetSlot, Succeeded, KindOf;
    EndHandles(s, pid, s.procs[pid].token, AdvanceEnroll(s, pid, s.procs[pid], capacity, input));
  }

  lemma EnrollHandles(s: State, pid: nat, capacity: nat, input: Input)
    requires pid in s.procs && IsEnroll(s.procs[pid])
    ensures HandlesToken(s, pid, AdvanceEnroll(s, pid, s.procs[pid], capacity, input))
  {
    hide HandlesToken, UserSlots, EndActionIfOwner, StartAction, Carries, Lowest, SlotOf, SetSlot, Succeeded;
    var p, t := s.procs[pid], AdvanceEnroll(s, pid, s.procs[pid], capacity, input);
    if p.EnrollPermit? && s.claims.action.None? {
      hide Minted;
      MintHandles(s, pid, EnrollAction, p.user, t.procs[pid], t);
    } else if p.EnrollEnd? || p.EnrollFull? {
      hide AdvanceEnroll, IsEnroll;
      EnrollEnds(s, pid, capacity, input);
    } else {
      hide AdvanceEnroll, IsEnroll;
      EnrollCarriesToken(s, pid, capacity, input);
      CarryingHandles(s, pid, t);
    }
  }

  lemma GateCarriesToken(s: State, pid: nat, input: Input)
    requires pid in s.procs && IsDelete(s.procs[pid]) && !Working(s.procs[pid])
    requires s.procs[pid].DeleteEntry? || s.procs[pid].DeleteOneFound? ==> s.claims.action.Some?
    ensures Carries(s, pid, DeleteGate(s, pid, s.procs[pid], input))
  {
    hide IsOrderOf, SlotOf, UserSlots, StartAction, Minted;
  }

  lemma GateHandles(s: State, pid: nat, input: Input)
    requires pid in s.procs && IsDelete(s.procs[pid]) && !Working(s.procs[pid])
    ensures HandlesToken(s, pid, DeleteGate(s, pid, s.procs[pid], input))
  {
    hide HandlesToken, IsOrderOf, SlotOf, UserSlots, StartAction, Carries;
    var p, t := s.procs[pid], DeleteGate(s, pid, s.procs[pid], input);
    if (p.DeleteEntry? || p.DeleteOneFound?) && s.claims.action.None? {
      hide Minted;
      MintHandles(s, pid, DeleteAction, p.user, t.procs[pid], t);
    } else {
      hide DeleteGate, IsDelete;
      GateCarriesToken(s, pid, input);
      CarryingHandles(s, pid, t);
    }
  }

  lemma WorkCarriesToken(s: State, pid: nat, input: Input)
    requires pid in s.procs && Working(s.procs[pid]) && !s.procs[pid].DeleteEnd?
    ensures Carries(s, pid, DeleteWork(s, pid, s.procs[pid], input))
  {
    hide Succeeded, RemoveFinger, EndActionIfOwner, Ended;
  }

  lemma WorkHandles(s: State, pid: nat, input: Input)
    requires pid in s.procs && Working(s.procs[pid])
    ensures HandlesToken(s, pid, DeleteWork(s, pid, s.procs[pid], input))
  {
    hide HandlesToken, EndActionIfOwner, Carries, Succeeded, RemoveFinger;
    var p, t := s.procs[pid], DeleteWork(s, pid, s.procs[pid], input);
    if p.DeleteEnd? {
      EndHandles(s, pid, p.token, t);
    } else {
      hide DeleteWork, Working;
      WorkCarriesToken(s, pid, input);
      CarryingHandles(s, pid, t);
    }
  }

  lemma StopHandles(s: State, pid: nat)
    requires pid in s.procs && s.procs[pid].StopEntry?
    ensures HandlesToken(s, pid, AdvanceStop(s, pid, s.procs[pid]))
  {
    hide KindOf, MintsOwn, GivesBack;
  }

  lemma ProcHandles(s: State, pid: nat, threshold: nat, capacity: nat, input: Input)
    requires pid in s.procs
    ensures HandlesToken(s, pid, AdvanceProc(s, pid, threshold, capacity, input))
  {
    hide HandlesToken, AdvanceVerify, AdvanceEnroll, DeleteGate, DeleteWork, AdvanceStop, IsVerify, IsEnroll, IsDelete,
         Working;
    var p := s.procs[pid];
    DeleteOrNot(p);
    if IsVerify(p) {
      VerifyHandles(s, pid, threshold, input);
    } else if IsEnroll(p) {
      EnrollHandles(s, pid, capacity, input);
    } else if p.StopEntry? {
      StopHandles(s, pid);
    } else if Working(p) {
      WorkHandles(s, pid, input);
    } else {
      GateHandles(s, pid, input);
    }
  }

  lemma OthersRemove(s: State, step: Step, t: State, threshold: nat, capacity: nat)
    requires Next(s, step, t, threshold, capacity) && !step.Advance?
    ensures LeavesOrRemoves(s, t)
    ensures forall pid :: pid in t.procs && pid !in s.procs ==> !Acting(t.procs[pid])
  {
    hide EnsureClaim, AdvanceProc, SenderMatches;
  }

  // ----- the invariant -----

  lemma StillHolding(s: State, t: State, pid: nat, p: Proc)
    requires Acting(p) && Holding(s, pid, p) && s.mints <= t.mints && s.cleared <= t.cleared
    requires s.claims.action == TokenOf(p) ==> t.claims.action == TokenOf(p) || RemovedFromOutside(t, TokenOf(p).value)
    ensures Holding(t, pid, p)
  {
    hide TokenOf, KindOf;
    var i :| 0 <= i < |s.mints| && s.mints[i].token == TokenOf(p).value && s.mints[i].pid == pid;
    assert t.mints[i] == s.mints[i];
  }

  /** No two processes have the same token, before epochs repeat. */
  lemma OwnTokens(s: State, token: Token, a: nat, b: nat)
    requires TokenInv(s) && |s.mints| <= TWO_64 && MintedBy(s, a, token) && MintedBy(s, b, token)
    ensures a == b
  {
    hide Was;
    EpochsDiffer(s);
    hide TokenInv;
  }

  lemma OtherStillHolding(s: State, pid: nat, t: State, other: nat)
    requires TokenInv(s) && |s.mints| <= TWO_64 && HoldInv(s) && HandlesToken(s, pid, t)
    requires other in s.procs && other != pid && Acting(s.procs[other])
    ensures Holding(t, other, s.procs[other])
  {
    hide TokenInv, TokenOf, KindOf;
    var o := TokenOf(s.procs[other]).value;
    if Acting(s.procs[pid]) && s.claims.action == Some(o) && TokenOf(s.procs[pid]) == Some(o) {
      OwnTokens(s, o, pid, other);
    }
    StillHolding(s, t, other, s.procs[other]);
  }

  lemma SelfHolding(s: State, pid: nat, t: State)
    requires HoldInv(s) && HandlesToken(s, pid, t) && Acting(t.procs[pid])
    ensures Holding(t, pid, t.procs[pid])
  {
    hide TokenOf, KindOf;
    var token := TokenOf(t.procs[pid]).value;
    if MintsOwn(s, pid, token, t) {
      assert t.mints[|s.mints|].token == token;
    } else {
      KeepsMints(s, pid, t);
    }
  }

  lemma HoldStep(s: State, step: Step, t: State, threshold: nat, capacity: nat)
    requires PermitInv(s) && TokenInv(s) && |s.mints| <= TWO_64 && HoldInv(s) && Next(s, step, t, threshold, capacity)
    ensures HoldInv(t)
  {
    hide AdvanceProc, TokenInv, Holding, TokenOf, Acting, PermitInv, HandlesToken, MintsOwn, Holds;
    if step.Advance? {
      ProcHandles(s, step.pid, threshold, capacity, step.input);
      ProcMoves(s, step.pid, threshold, capacity, step.input);
      hide Next;
      forall pid | pid in t.procs && Acting(t.procs[pid]) ensures Holding(t, pid, t.procs[pid]) {
        if pid == step.pid {
          SelfHolding(s, pid, t);
        } else {
          OtherStillHolding(s, step.pid, t, pid);
        }
      }
    } else {
      OthersRemove(s, step, t, threshold, capacity);
      OthersEnter(s, step, t, threshold, capacity);
      hide Next;
      forall pid | pid in t.procs && Acting(t.procs[pid]) ensures Holding(t, pid, t.procs[pid]) {
        RemovalHolding(s, t, pid, s.procs[pid]);
      }
    }
  }

  lemma RemovalHolding(s: State, t: State, pid: nat, p: Proc)
    requires Acting(p) && Holding(s, pid, p) && LeavesOrRemoves(s, t)
    ensures Holding(t, pid, p)
  {
    hide TokenOf, KindOf;
    StillHolding(s, t, pid, p);
  }

  lemma MintsGrow(s: State, step: Step, t: State, threshold: nat, capacity: nat)
    requires PermitInv(s) && ProcTokens(s) && Next(s, step, t, threshold, capacity)
    ensures |s.mints| <= |t.mints|
  {
    hide Next, PermitInv, ProcTokens, Mints;
    ProcTokensStep(s, step, t, threshold, capacity);
    LogsGrow(s, t);
  }

  lemma {:induction false} HoldAlways(states: seq<State>, steps: seq<Step>, threshold: nat, capacity: nat)
    requires IsRun(states, steps, threshold, capacity) && |states[|steps|].mints| <= TWO_64
    ensures HoldInv(states[|steps|])
  {
    hide Next, Holding;
    if |steps| > 0 {
      hide Init, PermitInv, SlotsInv, QueueInv, HoldInv, ProcTokens, TokenInv, MintsReal;
      RunPrefix(states, steps, threshold, capacity);
      var ss, ts := states[..|steps|], steps[..|steps| - 1];
      SafeAlways(ss, ts, threshold, capacity);
      TokensAlways(ss, ts, threshold, capacity);
      var s, step, t := states[|steps| - 1], steps[|steps| - 1], states[|steps|];
      MintsGrow(s, step, t, threshold, capacity);
      HoldAlways(ss, ts, threshold, capacity);
      HoldStep(s, step, t, threshold, capacity);
    }
  }

  /** With at most 2^64 starts, in every interleaving: of any two processes that have minted a
      token and not yet given it back, at least one had its token removed from outside. */
  lemma OneActionAtATime(states: seq<State>, steps: seq<Step>, threshold: nat, capacity: nat, a: nat, b: nat)
    requires IsRun(states, steps, threshold, capacity) && |states[|steps|].mints| <= TWO_64
    requires var s := states[|steps|];
             a != b && a in s.procs && b in s.procs && Acting(s.procs[a]) && Acting(s.procs[b])
    ensures var s := states[|steps|];
            || RemovedFromOutside(s, TokenOf(s.procs[a]).value)
            || RemovedFromOutside(s, TokenOf(s.procs[b]).value)
  {
    hide Init, Next, TokenOf, KindOf, TokenInv, MintedBy, ProcTokens, MintsReal;
    var s := states[|steps|];
    TokensAlways(states, steps, threshold, capacity);
    HoldAlways(states, steps, threshold, capacity);
    assert Holding(s, a, s.procs[a]) && Holding(s, b, s.procs[b]);
    if TokenOf(s.procs[a]) == TokenOf(s.procs[b]) {
      OwnTokens(s, TokenOf(s.procs[a]).value, a, b);
    }
  }
}

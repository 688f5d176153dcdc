/** Action tokens and verdicts over whole runs. */
module DaemonTokens {
  import opened Bytes
  import opened Outcomes
  import opened Storage
  import opened Device
  import opened Worker
  import opened Daemon
  import opened DaemonSafety

  // ----- what a step may do to the tokens -----

  /** Minted, for a user, while no action was in flight. */
  ghost predicate MintsOne(s: State, t: State) {
    && |t.mints| == |s.mints| + 1 && t.mints[..|s.mints|] == s.mints
    && Mints(s, t.mints[|s.mints|], t.claims) && t.mints[|s.mints|].pid in s.procs
    && t.cleared == s.cleared && t.told == s.told
  }

  ghost predicate Mints(s: State, m: Mint, claims: Claims) {
    && s.claims.action == None
    && m.token.epoch == s.claims.nextEpoch && m.rows == UserSlots(s.users, m.user)
    && claims == s.claims.(action := Some(m.token), nextEpoch := (s.claims.nextEpoch + 1) % TWO_64)
  }

  /** The current token leaves the slot. */
  ghost predicate ClearsOne(s: State, t: State) {
    && s.claims.action.Some? && t.claims.action == None && t.claims.nextEpoch == s.claims.nextEpoch
    && t.mints == s.mints && t.told == s.told
    && |t.cleared| == |s.cleared| + 1 && t.cleared[..|s.cleared|] == s.cleared
    && t.cleared[|s.cleared|].token == s.claims.action.value
  }

  /** Nothing happens to the tokens but, perhaps, a terminal status for one of them. */
  ghost predicate LeavesTokens(s: State, t: State) {
    && t.claims.action == s.claims.action && t.claims.nextEpoch == s.claims.nextEpoch
    && t.mints == s.mints && t.cleared == s.cleared && s.told <= t.told
  }

  ghost predicate TokenStep(s: State, t: State) {
    MintsOne(s, t) || ClearsOne(s, t) || LeavesTokens(s, t)
  }

  lemma MintIs(s: State, pid: nat, kind: ActionKind, user: User)
    requires s.claims.action == None && pid in s.procs
    ensures MintsOne(s, Minted(s, pid, kind, user))
    ensures Minted(s, pid, kind, user).mints
         == s.mints + [Mint(StartAction(s.claims, kind).1, pid, user, UserSlots(s.users, user))]
    ensures Minted(s, pid, kind, user).told == s.told
  {
    hide UserSlots;
  }

  lemma EndIs(s: State, token: Token)
    ensures TokenStep(s, Ended(s, token))
    ensures EndActionIfOwner(s.claims, token).1 ==> Cleared(token, true) in Ended(s, token).cleared
    ensures Ended(s, token).mints == s.mints && Ended(s, token).told == s.told
  {
    var t := Ended(s, token);
    if s.claims.action == Some(token) {
      assert t.cleared[|s.cleared|] == Cleared(token, true);
      assert ClearsOne(s, t);
    }
  }

  lemma ClaimsAre(s: State, claims: Claims)
    requires claims.nextEpoch == s.claims.nextEpoch && (claims.action == s.claims.action || claims.action == None)
    ensures TokenStep(s, WithClaims(s, claims)) && WithClaims(s, claims).told == s.told
  {
    var t := WithClaims(s, claims);
    if s.claims.action.Some? && claims.action.None? {
      assert t.cleared[|s.cleared|] == Cleared(s.claims.action.value, false);
      assert ClearsOne(s, t);
    }
  }

  /** The parts of a state the tokens live in. */
  ghost predicate SameTokens(s: State, t: State) {
    t.claims == s.claims && t.mints == s.mints && t.cleared == s.cleared && t.told == s.told && t.users == s.users
  }

  lemma TokenStepShifted(s: State, t: State, u: State)
    requires TokenStep(s, t) && SameTokens(t, u)
    ensures TokenStep(s, u)
  {
    hide UserSlots;
  }

  // ----- processes and their tokens -----

  ghost predicate MintedBy(s: State, pid: nat, token: Token) {
    exists i :: 0 <= i < |s.mints| && s.mints[i].token == token && s.mints[i].pid == pid
  }

  /** A process's token was minted by it, for its user with these rows; one about to announce
      has ended its token itself. */
  ghost predicate ProcToken(s: State, pid: nat, p: Proc) {
    match p
    case VerifyMinted(user, _, token, rows) => Mint(token, pid, user, rows) in s.mints
    case VerifyTurn(c, _) => Mint(c.token, pid, c.user, c.rows) in s.mints
    case VerifyAsk(c, _) => Mint(c.token, pid, c.user, c.rows) in s.mints
    case VerifyAsked(c, _) => Mint(c.token, pid, c.user, c.rows) in s.mints
    case VerifyEnd(c, _) => Mint(c.token, pid, c.user, c.rows) in s.mints
    case VerifyTell(c, _) => Mint(c.token, pid, c.user, c.rows) in s.mints && Cleared(c.token, true) in s.cleared
    case EnrollStore(_, _, token, _) => Cleared(token, true) in s.cleared
    case EnrollTell(token) => Cleared(token, true) in s.cleared
    case DeleteMinted(_, token) => MintedBy(s, pid, token)
    case DeleteNext(_, token, _, _) => MintedBy(s, pid, token)
    case DeleteAsked(_, token, _, _) => MintedBy(s, pid, token)
    case DeleteRows(_, token, _) => MintedBy(s, pid, token)
    case DeleteEnd(token) => MintedBy(s, pid, token)
    case _ => true
  }

  ghost predicate ProcTokens(s: State) {
    && (forall pid :: pid in s.procs ==> ProcToken(s, pid, s.procs[pid]))
    && (forall i :: 0 <= i < |s.told| ==> Cleared(s.told[i], true) in s.cleared)
  }

  /** What one step of a process does to the tokens, and to its own. */
  ghost predicate TokensMove(s: State, pid: nat, t: State) {
    && TokenStep(s, t) && pid in t.procs && ProcToken(t, pid, t.procs[pid])
    && (forall i :: |s.told| <= i < |t.told| ==> Cleared(t.told[i], true) in s.cleared)
  }

  /** A move that shares its token effects with a mint of the process's own. */
  lemma MintMove(s: State, pid: nat, kind: ActionKind, user: User, p: Proc)
    requires s.claims.action.None? && pid in s.procs
    requires match p
             case VerifyMinted(u, _, token, rows) =>
               u == user && token == StartAction(s.claims, kind).1 && rows == UserSlots(s.users, user)
             case DeleteMinted(_, token) => token == StartAction(s.claims, kind).1
             case DeleteNext(_, token, _, _) => token == StartAction(s.claims, kind).1
             case _ => p.EnrollMinted?
    ensures TokensMove(s, pid, At(Minted(s, pid, kind, user), pid, p))
  {
    hide UserSlots, StartAction, Minted, MintsOne;
    MintIs(s, pid, kind, user);
    var t := At(Minted(s, pid, kind, user), pid, p);
    assert t.mints[|s.mints|] == Mint(StartAction(s.claims, kind).1, pid, user, UserSlots(s.users, user));
    TokenStepShifted(s, Minted(s, pid, kind, user), t);
  }

  /** A move that tries to end the process's own token. */
  lemma EndMove(s: State, pid: nat, token: Token, p: Proc)
    requires p == Finished
             || (EndActionIfOwner(s.claims, token).1
                 && match p
                    case VerifyTell(c, _) => c.token == token && Mint(token, pid, c.user, c.rows) in s.mints
                    case EnrollStore(_, _, tk, _) => tk == token
                    case EnrollTell(tk) => tk == token
                    case _ => false)
    ensures TokensMove(s, pid, At(Ended(s, token), pid, p))
  {
    hide EndActionIfOwner, Ended, MintsOne, ClearsOne, LeavesTokens;
    EndIs(s, token);
    TokenStepShifted(s, Ended(s, token), At(Ended(s, token), pid, p));
  }

  /** Giving the permit back is no business of the tokens. */
  lemma LeaveMove(s: State, pid: nat, t: State)
    requires TokensMove(s, pid, At(t, pid, Finished))
    ensures TokensMove(s, pid, Leave(t, pid))
  {
    hide MintsOne, ClearsOne, LeavesTokens;
    TokenStepShifted(s, At(t, pid, Finished), Leave(t, pid));
  }

  lemma VerifyTokens(s: State, pid: nat, threshold: nat, input: Input)
    requires ProcTokens(s) && pid in s.procs && IsVerify(s.procs[pid])
    ensures TokensMove(s, pid, AdvanceVerify(s, pid, s.procs[pid], threshold, input))
  {
    var p := s.procs[pid];
    if p.VerifyPermit? && s.claims.action.None? {
      hide TokensMove, UserSlots;
      MintMove(s, pid, VerifyAction, p.user,
               VerifyMinted(p.user, p.selected, StartAction(s.claims, VerifyAction).1, UserSlots(s.users, p.user)));
    } else if p.VerifyMinted? && Expected(p.selected, p.rows).None? {
      hide TokensMove, Ended, Leave;
      EndMove(s, pid, p.token, Finished);
      LeaveMove(s, pid, Ended(s, p.token));
    } else if p.VerifyEnd? {
      hide TokensMove, Ended, Leave;
      if EndActionIfOwner(s.claims, p.check.token).1 && p.ending.Some? {
        EndMove(s, pid, p.check.token, VerifyTell(p.check, p.ending.value));
      } else {
        EndMove(s, pid, p.check.token, Finished);
        LeaveMove(s, pid, Ended(s, p.check.token));
      }
    } else {
      hide TokensMove, Expected, ProcTokens, AdvanceVerify;
      VerifyQuiet(s, pid, threshold, input);
    }
  }

  /** The moves of a verify task that mint and end nothing. */
  lemma VerifyQuiet(s: State, pid: nat, threshold: nat, input: Input)
    requires ProcTokens(s) && pid in s.procs && IsVerify(s.procs[pid])
    requires var p := s.procs[pid];
             && !p.VerifyEnd? && (p.VerifyPermit? ==> s.claims.action.Some?)
             && (p.VerifyMinted? ==> Expected(p.selected, p.rows).Some?)
    ensures TokensMove(s, pid, AdvanceVerify(s, pid, s.procs[pid], threshold, input))
  {
    hide Decide, Expected, UserSlots, StartAction, EndActionIfOwner, Minted, Ended, MintsOne, ClearsOne, Succeeded;
  }

  lemma EnrollTokens(s: State, pid: nat, capacity: nat, input: Input)
    requires ProcTokens(s) && pid in s.procs && IsEnroll(s.procs[pid])
    ensures TokensMove(s, pid, AdvanceEnroll(s, pid, s.procs[pid], capacity, input))
  {
    var p := s.procs[pid];
    hide Lowest, SlotOf, SetSlot, Succeeded;
    if p.EnrollPermit? && s.claims.action.None? {
      hide TokensMove, UserSlots;
      MintMove(s, pid, EnrollAction, p.user, EnrollMinted(p.user, p.finger, StartAction(s.claims, EnrollAction).1));
    } else if p.EnrollFull? {
      hide TokensMove, Ended, Leave;
      EndMove(s, pid, p.token, Finished);
      LeaveMove(s, pid, Ended(s, p.token));
    } else if p.EnrollEnd? && EndActionIfOwner(s.claims, p.token).1 {
      hide TokensMove, Ended;
      EndMove(s, pid, p.token, if p.stored then EnrollStore(p.user, p.finger, p.token, p.slot) else EnrollTell(p.token));
    } else {
      hide TokensMove, ProcTokens, AdvanceEnroll;
      EnrollQuiet(s, pid, capacity, input);
    }
  }

  lemma EnrollTells(s: State, pid: nat, capacity: nat, input: Input)
    requires ProcTokens(s) && pid in s.procs && (s.procs[pid].EnrollStore? || s.procs[pid].EnrollTell?)
    ensures TokensMove(s, pid, AdvanceEnroll(s, pid, s.procs[pid], capacity, input))
  {
    hide Lowest, SlotOf, SetSlot, UserSlots, StartAction, EndActionIfOwner, Minted, Ended, MintsOne, ClearsOne, Succeeded,
         MintedBy, Asking, AtHead;
  }

  /** An enroll with no token yet, or one it has not given back. */
  predicate BeforeStore(p: Proc) {
    p == Finished || (IsEnroll(p) && !p.EnrollStore? && !p.EnrollTell?)
  }

  lemma NothingMinted(s: State, pid: nat, p: Proc)
    requires BeforeStore(p)
    ensures ProcToken(s, pid, p)
  {
  }

  ghost predicate WaitsOn(s: State, pid: nat, t: State) {
    pid in t.procs && BeforeStore(t.procs[pid]) && LeavesTokens(s, t) && t.told == s.told
  }

  lemma EnrollPrepares(s: State, pid: nat, capacity: nat, input: Input)
    requires pid in s.procs
    requires var p := s.procs[pid];
             p.EnrollEntry? || (p.EnrollPermit? && s.claims.action.Some?) || p.EnrollMinted? || p.EnrollNew?
    ensures WaitsOn(s, pid, AdvanceEnroll(s, pid, s.procs[pid], capacity, input))
  {
    hide Lowest, SlotOf, SetSlot, UserSlots, StartAction, EndActionIfOwner, Minted, Ended, Succeeded, Asking, AtHead;
  }

  lemma EnrollCaptures(s: State, pid: nat, capacity: nat, input: Input)
    requires pid in s.procs
    requires var p := s.procs[pid];
             p.EnrollAsk? || p.EnrollAsked? || (p.EnrollEnd? && !EndActionIfOwner(s.claims, p.token).1)
    ensures WaitsOn(s, pid, AdvanceEnroll(s, pid, s.procs[pid], capacity, input))
  {
    hide Lowest, SlotOf, SetSlot, UserSlots, StartAction, EndActionIfOwner, Minted, Ended, Succeeded;
  }

  lemma EnrollQuiet(s: State, pid: nat, capacity: nat, input: Input)
    requires ProcTokens(s) && pid in s.procs && IsEnroll(s.procs[pid])
    requires var p := s.procs[pid];
             && !p.EnrollFull? && (p.EnrollPermit? ==> s.claims.action.Some?)
             && (p.EnrollEnd? ==> !EndActionIfOwner(s.claims, p.token).1)
    ensures TokensMove(s, pid, AdvanceEnroll(s, pid, s.procs[pid], capacity, input))
  {
    hide AdvanceEnroll, EndActionIfOwner, MintsOne, ClearsOne, ProcToken, BeforeStore, LeavesTokens;
    if s.procs[pid].EnrollStore? || s.procs[pid].EnrollTell? {
      hide TokensMove, ProcTokens;
      EnrollTells(s, pid, capacity, input);
    } else {
      var p, t := s.procs[pid], AdvanceEnroll(s, pid, s.procs[pid], capacity, input);
      if p.EnrollAsk? || p.EnrollAsked? || p.EnrollEnd? {
        EnrollCaptures(s, pid, capacity, input);
      } else {
        EnrollPrepares(s, pid, capacity, input);
      }
      NothingMinted(t, pid, t.procs[pid]);
    }
  }

  lemma GateTokens(s: State, pid: nat, input: Input)
    requires ProcTokens(s) && pid in s.procs && IsDelete(s.procs[pid]) && !Working(s.procs[pid])
    ensures TokensMove(s, pid, DeleteGate(s, pid, s.procs[pid], input))
  {
    hide SlotOf, UserSlots, IsOrderOf, TokensMove;
    var p := s.procs[pid];
    if p.DeleteEntry? && s.claims.action.None? {
      MintMove(s, pid, DeleteAction, p.user, DeleteMinted(p.user, StartAction(s.claims, DeleteAction).1));
    } else if p.DeleteOneFound? && s.claims.action.None? {
      MintMove(s, pid, DeleteAction, p.user,
               DeleteNext(p.user, StartAction(s.claims, DeleteAction).1, [Target(p.finger, p.slot)], []));
    } else {
      hide DeleteGate, ProcTokens, IsDelete;
      GateQuiet(s, pid, input);
    }
  }

  lemma WorkTokens(s: State, pid: nat, input: Input)
    requires ProcTokens(s) && pid in s.procs && Working(s.procs[pid])
    ensures TokensMove(s, pid, DeleteWork(s, pid, s.procs[pid], input))
  {
    hide RemoveFinger, Succeeded, TokensMove, Ended, Leave;
    var p := s.procs[pid];
    if p.DeleteEnd? {
      EndMove(s, pid, p.token, Finished);
      LeaveMove(s, pid, Ended(s, p.token));
    } else {
      hide DeleteWork, ProcTokens;
      WorkQuiet(s, pid, input);
    }
  }

  lemma DeleteTokens(s: State, pid: nat, input: Input)
    requires ProcTokens(s) && pid in s.procs && IsDelete(s.procs[pid])
    ensures TokensMove(s, pid, AdvanceDelete(s, pid, s.procs[pid], input))
  {
    hide TokensMove, ProcTokens, DeleteGate, DeleteWork, IsDelete, Working;
    if Working(s.procs[pid]) {
      WorkTokens(s, pid, input);
    } else {
      GateTokens(s, pid, input);
    }
  }

  lemma GateQuiet(s: State, pid: nat, input: Input)
    requires ProcTokens(s) && pid in s.procs && IsDelete(s.procs[pid]) && !Working(s.procs[pid])
    requires s.procs[pid].DeleteEntry? || s.procs[pid].DeleteOneFound? ==> s.claims.action.Some?
    ensures TokensMove(s, pid, DeleteGate(s, pid, s.procs[pid], input))
  {
    hide IsOrderOf, SlotOf, UserSlots, StartAction, EndActionIfOwner, Minted, MintsOne, ClearsOne, MintedBy;
    KeepsMints(s, pid, DeleteGate(s, pid, s.procs[pid], input));
  }

  lemma WorkQuiet(s: State, pid: nat, input: Input)
    requires ProcTokens(s) && pid in s.procs && Working(s.procs[pid]) && !s.procs[pid].DeleteEnd?
    ensures TokensMove(s, pid, DeleteWork(s, pid, s.procs[pid], input))
  {
    hide Succeeded, RemoveFinger, EndActionIfOwner, Ended, MintsOne, ClearsOne, MintedBy;
    KeepsMints(s, pid, DeleteWork(s, pid, s.procs[pid], input));
  }

  lemma KeepsMints(s: State, pid: nat, t: State)
    requires t.mints == s.mints
    ensures forall token :: MintedBy(s, pid, token) ==> MintedBy(t, pid, token)
  {
  }

  lemma StopTokens(s: State, pid: nat)
    requires pid in s.procs && s.procs[pid].StopEntry?
    ensures TokensMove(s, pid, AdvanceStop(s, pid, s.procs[pid]))
  {
    hide MintsOne, ClearsOne, WithClaims;
    var stopped := StopAction(s.claims, s.procs[pid].kind);
    if stopped.Ok? {
      ClaimsAre(s, stopped.value);
      TokenStepShifted(s, WithClaims(s, stopped.value), AdvanceStop(s, pid, s.procs[pid]));
    }
  }

  lemma ProcTokensMove(s: State, pid: nat, threshold: nat, capacity: nat, input: Input)
    requires ProcTokens(s) && pid in s.procs
    ensures TokensMove(s, pid, AdvanceProc(s, pid, threshold, capacity, input))
  {
    hide AdvanceVerify, AdvanceEnroll, AdvanceDelete, AdvanceStop, IsVerify, IsEnroll, IsDelete, ProcTokens, TokensMove;
    DeleteOrNot(s.procs[pid]);
    if IsVerify(s.procs[pid]) {
      VerifyTokens(s, pid, threshold, input);
    } else if IsEnroll(s.procs[pid]) {
      EnrollTokens(s, pid, capacity, input);
    } else if s.procs[pid].StopEntry? {
      StopTokens(s, pid);
    } else {
      DeleteTokens(s, pid, input);
    }
  }

  lemma OthersTokens(s: State, step: Step, t: State, threshold: nat, capacity: nat)
    requires Next(s, step, t, threshold, capacity) && !step.Advance?
    ensures TokenStep(s, t) && t.told == s.told
  {
    hide EnsureClaim, AdvanceProc, WithClaims, ClearsOne, MintsOne;
    match step
    case ClaimStep(user, sender) =>
      if Claim(s.claims, user, Some(sender)).Ok? {
        ClaimsAre(s, Claim(s.claims, user, Some(sender)).value);
      }
    case ReleaseStep(sender) => ClaimsAre(s, Freed(s.claims));
    case DisconnectStep(name) => ClaimsAre(s, Disconnect(s.claims, name));
    case _ =>
  }

  lemma ProcTokensStep(s: State, step: Step, t: State, threshold: nat, capacity: nat)
    requires PermitInv(s) && ProcTokens(s) && Next(s, step, t, threshold, capacity)
    ensures ProcTokens(t) && TokenStep(s, t)
  {
    hide MintsOne, ClearsOne, LeavesTokens, AdvanceProc, PermitInv, ProcTokens;
    if step.Advance? {
      ProcTokensMove(s, step.pid, threshold, capacity, step.input);
      ProcMoves(s, step.pid, threshold, capacity, step.input);
      hide Next, TokenStep;
      LogsGrow(s, t);
      OldProcs(s, step.pid, t);
    } else {
      OthersTokens(s, step, t, threshold, capacity);
      OthersEnter(s, step, t, threshold, capacity);
      hide Next, TokenStep;
      LogsGrow(s, t);
      EnteringTokens(s, step, t);
    }
  }

  lemma EnteringTokens(s: State, step: Step, t: State)
    requires ProcTokens(s) && Enters(s, step, t) && s.cleared <= t.cleared
    ensures ProcTokens(t)
  {
    forall pid | pid in t.procs ensures ProcToken(t, pid, t.procs[pid]) {
      if pid in s.procs {
        LaterToken(s, t, pid, s.procs[pid]);
      }
    }
  }

  lemma LogsGrow(s: State, t: State)
    requires TokenStep(s, t)
    ensures s.mints <= t.mints && s.cleared <= t.cleared && s.told <= t.told
  {
    hide Mints;
  }

  lemma LaterToken(s: State, t: State, pid: nat, p: Proc)
    requires ProcToken(s, pid, p) && s.mints <= t.mints && s.cleared <= t.cleared
    ensures ProcToken(t, pid, p)
  {
    assert forall i :: 0 <= i < |s.mints| ==> t.mints[i] == s.mints[i];
  }

  lemma OldProcs(s: State, pid: nat, t: State)
    requires ProcTokens(s) && TokensMove(s, pid, t) && MovesAlone(s, pid, t)
    requires s.mints <= t.mints && s.cleared <= t.cleared && s.told <= t.told
    ensures ProcTokens(t)
  {
    hide TokenStep, Holds;
    forall other | other in t.procs ensures ProcToken(t, other, t.procs[other]) {
      if other != pid {
        LaterToken(s, t, other, s.procs[other]);
      }
    }
    forall i | 0 <= i < |t.told| ensures Cleared(t.told[i], true) in t.cleared {
      if i < |s.told| {
        assert t.told[i] == s.told[i];
      }
    }
  }

  // ----- tokens are used once -----

  ghost predicate Was(s: State, token: Token) {
    exists i :: 0 <= i < |s.mints| && s.mints[i].token == token
  }

  /** Epochs count the starts, modulo 2^64; until they wrap, a token is cleared once. */
  ghost predicate TokenInv(s: State) {
    && s.claims.nextEpoch == |s.mints| % TWO_64
    && (forall i :: 0 <= i < |s.mints| ==> s.mints[i].token.epoch == i % TWO_64)
    && (s.claims.action.Some? ==> s.mints != [] && s.mints[|s.mints| - 1].token == s.claims.action.value)
    && (forall k :: 0 <= k < |s.cleared| ==> Was(s, s.cleared[k].token))
    && (|s.mints| <= TWO_64 ==>
          && (forall k :: 0 <= k < |s.cleared| ==> s.claims.action != Some(s.cleared[k].token))
          && (forall i, j :: 0 <= i < j < |s.cleared| ==> s.cleared[i].token != s.cleared[j].token))
  }

  lemma WasLater(s: State, t: State, token: Token)
    requires Was(s, token) && s.mints <= t.mints
    ensures Was(t, token)
  {
    var i :| 0 <= i < |s.mints| && s.mints[i].token == token;
    assert t.mints[i].token == token;
  }

  lemma WasCurrent(s: State)
    requires TokenInv(s) && s.claims.action.Some?
    ensures Was(s, s.claims.action.value)
  {
    assert s.mints[|s.mints| - 1].token == s.claims.action.value;
  }

  lemma FreshDiffers(s: State, token: Token)
    requires TokenInv(s) && |s.mints| < TWO_64 && token.epoch == s.claims.nextEpoch
    ensures !Was(s, token)
  {
  }

  lemma MintKeepsTokens(s: State, t: State)
    requires TokenInv(s) && MintsOne(s, t)
    ensures TokenInv(t)
  {
    hide Was, UserSlots;
    var n := |s.mints|;
    assert forall i :: 0 <= i < n ==> t.mints[i] == s.mints[i];
    if n < TWO_64 {
      FreshDiffers(s, t.mints[n].token);
    }
    forall k | 0 <= k < |t.cleared| ensures Was(t, t.cleared[k].token) {
      WasLater(s, t, s.cleared[k].token);
    }
  }

  lemma ClearKeepsTokens(s: State, t: State)
    requires TokenInv(s) && ClearsOne(s, t)
    ensures TokenInv(t)
  {
    hide Was;
    var n := |s.cleared|;
    WasCurrent(s);
    assert forall k :: 0 <= k < n ==> t.cleared[k] == s.cleared[k];
    forall k | 0 <= k < |t.cleared| ensures Was(t, t.cleared[k].token) {
      if k < n {
        WasLater(s, t, s.cleared[k].token);
      } else {
        WasLater(s, t, s.claims.action.value);
      }
    }
  }

  lemma TokenInvStep(s: State, t: State)
    requires TokenInv(s) && TokenStep(s, t)
    ensures TokenInv(t)
  {
    hide MintsOne, ClearsOne, Was;
    if MintsOne(s, t) {
      MintKeepsTokens(s, t);
    } else if ClearsOne(s, t) {
      ClearKeepsTokens(s, t);
    } else {
      forall k | 0 <= k < |t.cleared| ensures Was(t, t.cleared[k].token) {
        WasLater(s, t, s.cleared[k].token);
      }
    }
  }

  // ----- mints are what they say -----

  /** At step `k` of the run the `i`th token was minted, for a user who then had these rows. */
  ghost predicate MintedAt(states: seq<State>, k: nat, i: nat, m: Mint) {
    && k + 1 < |states| && |states[k].mints| == i && |states[k + 1].mints| == i + 1
    && m.pid in states[k].procs
    && states[k].claims.action == None && states[k + 1].claims.action == Some(m.token)
    && m.rows == UserSlots(states[k].users, m.user)
  }

  ghost predicate IsReal(states: seq<State>, i: nat, m: Mint) {
    exists k: nat :: MintedAt(states, k, i, m)
  }

  ghost predicate MintsReal(states: seq<State>, mints: seq<Mint>) {
    forall i :: 0 <= i < |mints| ==> IsReal(states, i, mints[i])
  }

  lemma MintedLater(states: seq<State>, more: seq<State>, i: nat, m: Mint)
    requires states <= more && IsReal(states, i, m)
    ensures IsReal(more, i, m)
  {
    hide UserSlots;
    var k: nat :| MintedAt(states, k, i, m);
    assert more[k] == states[k] && more[k + 1] == states[k + 1];
    assert MintedAt(more, k, i, m);
  }

  lemma MintsRealStep(states: seq<State>, s: State, t: State)
    requires |states| >= 2 && s == states[|states| - 2] && t == states[|states| - 1]
    requires MintsReal(states[..|states| - 1], s.mints) && TokenStep(s, t)
    ensures MintsReal(states, t.mints)
  {
    hide UserSlots, ClearsOne, LeavesTokens, IsReal;
    LogsKeepMints(s, t);
    forall i | 0 <= i < |t.mints| ensures IsReal(states, i, t.mints[i]) {
      if i < |s.mints| {
        assert t.mints[i] == s.mints[i];
        MintedLater(states[..|states| - 1], states, i, s.mints[i]);
      } else {
        LastMint(states, s, t);
      }
    }
  }

  lemma LogsKeepMints(s: State, t: State)
    requires TokenStep(s, t)
    ensures s.mints <= t.mints && |t.mints| <= |s.mints| + 1
    ensures |t.mints| > |s.mints| ==> MintsOne(s, t)
  {
    hide Mints;
  }

  lemma LastMint(states: seq<State>, s: State, t: State)
    requires |states| >= 2 && s == states[|states| - 2] && t == states[|states| - 1] && MintsOne(s, t)
    ensures IsReal(states, |s.mints|, t.mints[|s.mints|])
  {
    hide UserSlots;
    assert MintedAt(states, |states| - 2, |s.mints|, t.mints[|s.mints|]);
  }

  // ----- over runs -----

  ghost predicate TokensInv(states: seq<State>)
    requires states != []
  {
    var s := states[|states| - 1];
    ProcTokens(s) && TokenInv(s) && MintsReal(states, s.mints)
  }

  lemma {:induction false} TokensAlways(states: seq<State>, steps: seq<Step>, threshold: nat, capacity: nat)
    requires IsRun(states, steps, threshold, capacity)
    ensures TokensInv(states)
  {
    hide Next, Was, IsReal;
    if |steps| > 0 {
      hide Init, ProcTokens, TokenInv, MintsReal, TokenStep;
      RunPrefix(states, steps, threshold, capacity);
      SafeAlways(states[..|steps|], steps[..|steps| - 1], threshold, capacity);
      TokensAlways(states[..|steps|], steps[..|steps| - 1], threshold, capacity);
      var s, step, t := states[|steps| - 1], steps[|steps| - 1], states[|steps|];
      hide SlotsInv, QueueInv, PermitInv, IsRun;
      ProcTokensStep(s, step, t, threshold, capacity);
      TokenInvStep(s, t);
      MintsRealStep(states, s, t);
    }
  }

  /** With at most 2^64 starts, in every interleaving: a token leaves the action slot at most
      once, so its owner's cleanup succeeds at most once and never on a successor's token; and
      a task whose token was removed from outside announces no terminal status. */
  lemma TokensUsedOnce(states: seq<State>, steps: seq<Step>, threshold: nat, capacity: nat)
    requires IsRun(states, steps, threshold, capacity) && |states[|steps|].mints| <= TWO_64
    ensures var s := states[|steps|];
            && (forall i, j :: 0 <= i < j < |s.cleared| ==> s.cleared[i].token != s.cleared[j].token)
            && (forall i, j :: 0 <= i < j < |s.mints| ==> s.mints[i].token.epoch != s.mints[j].token.epoch)
            && (forall i :: 0 <= i < |s.told| ==> Cleared(s.told[i], false) !in s.cleared)
  {
    var s := states[|steps|];
    hide Next, Init, Was, MintsReal, ProcToken;
    TokensAlways(states, steps, threshold, capacity);
    assert ProcTokens(s) && TokenInv(s);
    EpochsDiffer(s);
    ToldNotRemoved(s);
  }

  lemma EpochsDiffer(s: State)
    requires TokenInv(s) && |s.mints| <= TWO_64
    ensures forall i, j :: 0 <= i < j < |s.mints| ==> s.mints[i].token.epoch != s.mints[j].token.epoch
  {
    hide Was;
  }

  lemma ToldNotRemoved(s: State)
    requires ProcTokens(s) && TokenInv(s) && |s.mints| <= TWO_64
    ensures forall i :: 0 <= i < |s.told| ==> Cleared(s.told[i], false) !in s.cleared
  {
    hide Was, ProcToken;
  }
}

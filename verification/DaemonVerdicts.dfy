/** What a verify-match says, over whole runs: who claimed the device as the verify was
    started, which finger was asked for, and whose row the matched slot was. */
module DaemonVerdicts {
  import opened Bytes
  import opened Outcomes
  import opened Storage
  import opened Device
  import opened Worker
  import opened Daemon
  import opened DaemonSafety
  import opened DaemonTokens

  /** Whom a verify is for, and the finger asked for (None for "any"). */
  datatype Asked = Asked(user: User, selected: Option<Finger>)

  function AskedOf(p: Proc): Asked
    requires IsVerify(p)
  {
    match p
    case VerifyEntry(user, selected) => Asked(user, selected)
    case VerifyPermit(user, selected) => Asked(user, selected)
    case VerifyMinted(user, selected, _, _) => Asked(user, selected)
    case VerifyTurn(c, _) => Asked(c.user, c.selected)
    case VerifyAsk(c, _) => Asked(c.user, c.selected)
    case VerifyAsked(c, _) => Asked(c.user, c.selected)
    case VerifyEnd(c, _) => Asked(c.user, c.selected)
    case VerifyTell(c, _) => Asked(c.user, c.selected)
  }

  /** The `j`th step of the run is the VerifyStart call that this process is, from a caller
      who then passed the claim check as this user. */
  ghost predicate StartedAt(states: seq<State>, steps: seq<Step>, j: nat, pid: nat, asked: Asked) {
    && j < |steps| && j < |states| && pid !in states[j].procs
    && steps[j].VerifyStart? && steps[j].pid == pid && steps[j].selected == asked.selected
    && EnsureClaim(states[j].claims, steps[j].sender) == Ok(asked.user)
  }

  ghost predicate IsStarted(states: seq<State>, steps: seq<Step>, pid: nat, asked: Asked) {
    exists j: nat :: StartedAt(states, steps, j, pid, asked)
  }

  ghost predicate StartsInv(states: seq<State>, steps: seq<Step>, s: State) {
    forall pid :: pid in s.procs && IsVerify(s.procs[pid]) ==> IsStarted(states, steps, pid, AskedOf(s.procs[pid]))
  }

  // ----- one step -----

  /** A process is a verify afterwards only if it was one before, for the same request. */
  ghost predicate AsksOn(s: State, pid: nat, t: State) {
    pid in s.procs && pid in t.procs
    && (IsVerify(t.procs[pid]) ==> IsVerify(s.procs[pid]) && AskedOf(t.procs[pid]) == AskedOf(s.procs[pid]))
  }

  lemma VerifyAsksOn(s: State, pid: nat, threshold: nat, input: Input)
    requires pid in s.procs && IsVerify(s.procs[pid])
    ensures AsksOn(s, pid, AdvanceVerify(s, pid, s.procs[pid], threshold, input))
  {
    hide Decide, Expected, StartAction, EndActionIfOwner, UserSlots, Succeeded;
  }

  lemma EnrollAsksOn(s: State, pid: nat, capacity: nat, input: Input)
    requires pid in s.procs && IsEnroll(s.procs[pid])
    ensures AsksOn(s, pid, AdvanceEnroll(s, pid, s.procs[pid], capacity, input))
  {
    hide SlotOf, Lowest, SetSlot, StartAction, EndActionIfOwner, UserSlots, Succeeded;
  }

  lemma FinishedVerifiesNot()
    ensures !IsVerify(Finished)
  {
  }

  lemma ProcAsksOn(s: State, pid: nat, threshold: nat, capacity: nat, input: Input)
    requires pid in s.procs
    ensures AsksOn(s, pid, AdvanceProc(s, pid, threshold, capacity, input))
  {
    hide AdvanceVerify, AdvanceEnroll, AdvanceDelete, StopAction, IsVerify, IsEnroll, IsDelete, AskedOf;
    DeleteOrNot(s.procs[pid]);
    FinishedVerifiesNot();
    if IsVerify(s.procs[pid]) {
      VerifyAsksOn(s, pid, threshold, input);
    } else if IsEnroll(s.procs[pid]) {
      EnrollAsksOn(s, pid, capacity, input);
    } else if !s.procs[pid].StopEntry? {
      DeleteStays(s, pid, input);
      DeleteOrNot(AdvanceDelete(s, pid, s.procs[pid], input).procs[pid]);
    }
  }

  /** Only VerifyStart begins a verify. */
  lemma OnlyVerifyStart(s: State, step: Step, t: State, threshold: nat, capacity: nat, pid: nat)
    requires Next(s, step, t, threshold, capacity) && !step.Advance?
    requires pid in t.procs && pid !in s.procs && IsVerify(t.procs[pid])
    ensures step.VerifyStart? && step.pid == pid
    ensures EnsureClaim(s.claims, step.sender) == Ok(AskedOf(t.procs[pid]).user)
    ensures step.selected == AskedOf(t.procs[pid]).selected
  {
    hide EnsureClaim, Claim, Release, Disconnect;
  }

  lemma StartedLater(states: seq<State>, steps: seq<Step>, more: seq<State>, longer: seq<Step>, pid: nat, asked: Asked)
    requires states <= more && steps <= longer && IsStarted(states, steps, pid, asked)
    ensures IsStarted(more, longer, pid, asked)
  {
    hide EnsureClaim;
    var j: nat :| StartedAt(states, steps, j, pid, asked);
    assert more[j] == states[j] && longer[j] == steps[j];
    assert StartedAt(more, longer, j, pid, asked);
  }

  lemma StartsStep(states: seq<State>, steps: seq<Step>, threshold: nat, capacity: nat)
    requires |steps| > 0 && |states| == |steps| + 1
    requires var n := |steps| - 1;
             && PermitInv(states[n]) && StartsInv(states[..n + 1], steps[..n], states[n])
             && Next(states[n], steps[n], states[n + 1], threshold, capacity)
    ensures StartsInv(states, steps, states[|steps|])
  {
    hide AdvanceProc, IsVerify, AskedOf, EnsureClaim, PermitInv, IsStarted, Holds;
    var n := |steps| - 1;
    var s, step, t := states[n], steps[n], states[n + 1];
    if step.Advance? {
      ProcMoves(s, step.pid, threshold, capacity, step.input);
      ProcAsksOn(s, step.pid, threshold, capacity, step.input);
    } else {
      OthersEnter(s, step, t, threshold, capacity);
    }
    hide Next;
    forall pid | pid in t.procs && IsVerify(t.procs[pid]) ensures IsStarted(states, steps, pid, AskedOf(t.procs[pid])) {
      if pid in s.procs {
        StartedLater(states[..n + 1], steps[..n], states, steps, pid, AskedOf(t.procs[pid]));
      } else {
        OnlyVerifyStart(s, step, t, threshold, capacity, pid);
        StartedNow(states, steps, n, pid, AskedOf(t.procs[pid]));
      }
    }
  }

  lemma StartedNow(states: seq<State>, steps: seq<Step>, n: nat, pid: nat, asked: Asked)
    requires StartedAt(states, steps, n, pid, asked)
    ensures IsStarted(states, steps, pid, asked)
  {
    hide StartedAt;
  }

  lemma {:induction false} StartsAlways(states: seq<State>, steps: seq<Step>, threshold: nat, capacity: nat)
    requires IsRun(states, steps, threshold, capacity)
    ensures StartsInv(states, steps, states[|steps|])
  {
    hide Next, IsStarted;
    if |steps| > 0 {
      hide Init, PermitInv, SlotsInv, QueueInv, StartsInv;
      RunPrefix(states, steps, threshold, capacity);
      SafeAlways(states[..|steps|], steps[..|steps| - 1], threshold, capacity);
      StartsAlways(states[..|steps|], steps[..|steps| - 1], threshold, capacity);
      StartsStep(states, steps, threshold, capacity);
    }
  }

  // ----- processes are never forgotten -----

  lemma StepRemembers(s: State, step: Step, t: State, threshold: nat, capacity: nat)
    requires PermitInv(s) && Next(s, step, t, threshold, capacity)
    ensures s.procs.Keys <= t.procs.Keys
  {
    hide AdvanceProc, PermitInv, Holds;
    if step.Advance? {
      ProcMoves(s, step.pid, threshold, capacity, step.input);
    } else {
      OthersEnter(s, step, t, threshold, capacity);
    }
  }

  lemma {:induction false} RunRemembers(states: seq<State>, steps: seq<Step>, threshold: nat, capacity: nat,
                                        a: nat, b: nat, pid: nat)
    requires IsRun(states, steps, threshold, capacity) && a <= b <= |steps| && pid in states[a].procs
    ensures pid in states[b].procs
    decreases b
  {
    hide Init, Next, PermitInv, SlotsInv, QueueInv;
    if a < b {
      RunRemembers(states, steps, threshold, capacity, a, b - 1, pid);
      var ss, ts := states[..b], steps[..b - 1];
      assert IsRun(ss, ts, threshold, capacity) by {
        forall i | 0 <= i < |ts| ensures Next(ss[i], ts[i], ss[i + 1], threshold, capacity) {
          assert Next(states[i], steps[i], states[i + 1], threshold, capacity);
        }
      }
      SafeAlways(ss, ts, threshold, capacity);
      assert Next(states[b - 1], steps[b - 1], states[b], threshold, capacity);
      StepRemembers(states[b - 1], steps[b - 1], states[b], threshold, capacity);
    }
  }

  // ----- what a match says -----

  /** A match at this slot is the truth about this finger: the caller of the `j`th step passed
      the claim check as `user` and asked for it or for any; when the task's token was minted
      in the later step `k` the slot was that finger's; and if the sensor holds a template
      there now, it is of that finger. */
  ghost predicate SoundAt(states: seq<State>, steps: seq<Step>, pid: nat, token: Token, slot: byte,
                          j: nat, k: nat, user: User, finger: Finger)
    requires |states| == |steps| + 1
  {
    && j < k < |steps|
    && steps[j].VerifyStart? && steps[j].pid == pid
    && EnsureClaim(states[j].claims, steps[j].sender) == Ok(user)
    && (steps[j].selected == None || steps[j].selected == Some(finger))
    && states[k].claims.action == None && states[k + 1].claims.action == Some(token)
    && SlotOf(states[k].users, user, finger) == Some(slot)
    && OwnAt(states[|steps|].templates, slot, user, finger)
  }

  /** When verify-match goes out, in any interleaving: it is the truth about a finger of the
      user who held the claim at VerifyStart, and nobody else has the slot now. */
  lemma MatchIsSound(states: seq<State>, steps: seq<Step>, threshold: nat, capacity: nat, pid: nat)
    requires IsRun(states, steps, threshold, capacity)
    requires var s := states[|steps|];
             pid in s.procs && s.procs[pid].VerifyTell? && s.procs[pid].verdict.status.Match?
    ensures var s := states[|steps|];
            var p := s.procs[pid];
            exists j: nat, k: nat, user: User, finger: Finger ::
              && SoundAt(states, steps, pid, p.check.token, p.verdict.slot, j, k, user, finger)
              && forall u, f :: SlotOf(s.users, u, f) == Some(p.verdict.slot) ==> u == user
  {
    hide Init, Next, Injective, NoForeignTemplate, SlotOf, EnsureClaim, UserSlots, TokenInv, QueueInv, PermitInv, OwnAt,
         Expected, IsReal, IsStarted;
    var s := states[|steps|];
    var c, slot := s.procs[pid].check, s.procs[pid].verdict.slot;
    SafeAlways(states, steps, threshold, capacity);
    TokensAlways(states, steps, threshold, capacity);
    StartsAlways(states, steps, threshold, capacity);
    assert ChoiceOk(s.users, s.templates, s.procs[pid]) && ProcToken(s, pid, s.procs[pid]);
    assert IsStarted(states, steps, pid, Asked(c.user, c.selected));
    var i := MintIndex(s, Mint(c.token, pid, c.user, c.rows));
    assert IsReal(states, i, s.mints[i]);
    var j, k := MomentsOf(states, steps, threshold, capacity, pid, i, Asked(c.user, c.selected), s.mints[i]);
    var f := FingerAt(c, slot);
    RowAt(states[k].users, c.user, f, slot);
    assert SoundAt(states, steps, pid, c.token, slot, j, k, c.user, f);
    assert forall u, g :: SlotOf(s.users, u, g) == Some(slot) ==> u == c.user;
  }

  lemma MintIndex(s: State, m: Mint) returns (i: nat)
    requires m in s.mints
    ensures i < |s.mints| && s.mints[i] == m
  {
    i :| 0 <= i < |s.mints| && s.mints[i] == m;
  }

  /** An accepted slot is the row of the finger asked for. */
  lemma FingerAt(c: Check, slot: byte) returns (f: Finger)
    requires Expected(c.selected, c.rows) == Some(c.expected) && slot in c.expected
    ensures f in c.rows && c.rows[f] == slot && (c.selected == None || c.selected == Some(f))
  {
    match c.selected
    case Some(g) => f := g;
    case None => f :| f in c.rows && c.rows[f] == slot;
  }

  lemma RowAt(users: Users, user: User, f: Finger, slot: byte)
    requires f in UserSlots(users, user) && UserSlots(users, user)[f] == slot
    ensures SlotOf(users, user, f) == Some(slot)
  {
  }

  // ----- what an answer leads to -----

  lemma RunTake(states: seq<State>, steps: seq<Step>, threshold: nat, capacity: nat, n: nat)
    requires IsRun(states, steps, threshold, capacity) && n <= |steps|
    ensures IsRun(states[..n + 1], steps[..n], threshold, capacity)
  {
    hide Init, Next;
    var ss, ts := states[..n + 1], steps[..n];
    forall i | 0 <= i < n ensures Next(ss[i], ts[i], ss[i + 1], threshold, capacity) {
      assert Next(states[i], steps[i], states[i + 1], threshold, capacity);
    }
  }

  /** The finger a verify asks for, or any, was registered at this slot for this user. */
  ghost predicate Registered(users: Users, asked: Asked, slot: byte) {
    exists f :: (asked.selected == None || asked.selected == Some(f)) && SlotOf(users, asked.user, f) == Some(slot)
  }

  ghost predicate RegisteredAny(users: Users, asked: Asked) {
    exists f :: (asked.selected == None || asked.selected == Some(f)) && SlotOf(users, asked.user, f).Some?
  }

  lemma ExpectedExactly(users: Users, asked: Asked, rows: map<Finger, byte>, slot: byte)
    requires rows == UserSlots(users, asked.user)
    ensures Expected(asked.selected, rows).Some? <==> RegisteredAny(users, asked)
    ensures Expected(asked.selected, rows).Some? ==>
              (slot in Expected(asked.selected, rows).value <==> Registered(users, asked, slot))
  {
    forall f ensures f in rows <==> SlotOf(users, asked.user, f).Some?
             ensures f in rows ==> SlotOf(users, asked.user, f) == Some(rows[f]) {
    }
    hide SlotOf, UserSlots;
    match asked.selected {
      case Some(f) =>
        if f in rows {
          assert RegisteredAny(users, asked);
        }
      case None =>
        if rows != map[] {
          var f :| f in rows;
          assert RegisteredAny(users, asked);
        }
        if f :| f in rows && rows[f] == slot {
          assert Registered(users, asked, slot);
        }
    }
  }

  /** The `j`th step was its VerifyStart, and in the later step `k` its token was minted. */
  ghost predicate Began(states: seq<State>, steps: seq<Step>, pid: nat, asked: Asked, token: Token, j: nat, k: nat) {
    && j < k && k + 1 < |states| && StartedAt(states, steps, j, pid, asked)
    && states[k].claims.action == None && states[k + 1].claims.action == Some(token)
  }

  /** Where a verify task that has its token came from. */
  lemma BeganSomewhere(states: seq<State>, steps: seq<Step>, threshold: nat, capacity: nat, n: nat, pid: nat,
                       asked: Asked, token: Token, rows: map<Finger, byte>) returns (j: nat, k: nat)
    requires IsRun(states, steps, threshold, capacity) && n <= |steps| && pid in states[n].procs
    requires IsVerify(states[n].procs[pid]) && AskedOf(states[n].procs[pid]) == asked
    requires Mint(token, pid, asked.user, rows) in states[n].mints
    ensures k < n && Began(states, steps, pid, asked, token, j, k) && rows == UserSlots(states[k].users, asked.user)
  {
    hide Init, Next, UserSlots, EnsureClaim, TokenInv, ProcTokens, IsReal, IsStarted, IsVerify, AskedOf;
    var ss, ts := states[..n + 1], steps[..n];
    RunTake(states, steps, threshold, capacity, n);
    TokensAlways(ss, ts, threshold, capacity);
    StartsAlways(ss, ts, threshold, capacity);
    assert ss[n] == states[n];
    var m := Mint(token, pid, asked.user, rows);
    var i := MintIndex(states[n], m);
    assert IsReal(ss, i, m) && IsStarted(ss, ts, pid, asked);
    j, k := MomentsOf(ss, ts, threshold, capacity, pid, i, asked, m);
    assert ss[j] == states[j] && ss[k] == states[k] && ss[k + 1] == states[k + 1] && ts[j] == steps[j];
  }

  /** The start comes before the mint. */
  lemma MomentsOf(states: seq<State>, steps: seq<Step>, threshold: nat, capacity: nat, pid: nat, i: nat, asked: Asked, m: Mint)
    returns (j: nat, k: nat)
    requires IsRun(states, steps, threshold, capacity)
    requires IsStarted(states, steps, pid, asked) && IsReal(states, i, m) && m.pid == pid
    ensures j < k < |steps| && StartedAt(states, steps, j, pid, asked) && MintedAt(states, k, i, m)
  {
    hide Init, Next, UserSlots, EnsureClaim;
    j :| StartedAt(states, steps, j, pid, asked);
    k :| MintedAt(states, k, i, m);
    if k <= j {
      RunRemembers(states, steps, threshold, capacity, k, j, pid);
    }
  }

  /** The process is at this point and its step has just been taken. */
  ghost predicate Moves(states: seq<State>, steps: seq<Step>, n: nat, pid: nat, input: Input) {
    n < |steps| && |states| == |steps| + 1 && steps[n] == Advance(pid, input) && pid in states[n].procs
  }

  lemma AskedMoves(s: State, pid: nat, threshold: nat, capacity: nat, input: Input)
    requires pid in s.procs && s.procs[pid].VerifyAsked? && AtHead(s, pid) && input.Answered?
    requires Succeeded(input.reply)
    ensures var p := s.procs[pid];
            var slot, confidence := input.reply.result.slot, input.reply.result.confidence;
            var t := AdvanceProc(s, pid, threshold, capacity, input);
            && pid in t.procs && t.queue == s.queue[1..]
            && t.procs[pid] == VerifyEnd(p.check, Some(if slot in p.check.expected && confidence >= threshold
                                                       then Verdict(Match, slot) else Verdict(NoMatch, 0)))
  {
    hide AdvanceEnroll, AdvanceDelete;
  }

  /** When the sensor answers a verify with a slot: it is a match exactly if the finger asked
      for, or any, was registered there for the user when the task's token was minted, and
      the confidence suffices; otherwise it is none. */
  lemma AnswerDecides(states: seq<State>, steps: seq<Step>, threshold: nat, capacity: nat, n: nat, pid: nat,
                      slot: byte, confidence: nat, late: bool, done: bool) returns (j: nat, k: nat)
    requires IsRun(states, steps, threshold, capacity)
    requires Moves(states, steps, n, pid, Answered(FromSensor(Value(slot, confidence)), late, done))
    requires states[n].procs[pid].VerifyAsked? && AtHead(states[n], pid)
    ensures var c := states[n].procs[pid].check;
            var asked := Asked(c.user, c.selected);
            && k < n && Began(states, steps, pid, asked, c.token, j, k) && pid in states[n + 1].procs
            && states[n + 1].procs[pid]
               == VerifyEnd(c, Some(if Registered(states[k].users, asked, slot) && confidence >= threshold
                                    then Verdict(Match, slot) else Verdict(NoMatch, 0)))
  {
    hide Init, AdvanceProc, Injective, NoForeignTemplate, Expected, UserSlots, PermitInv, QueueInv, TokenInv, MintsReal, Belong,
         OwnAt, AtHead, Began, Registered;
    var c := states[n].procs[pid].check;
    var asked := Asked(c.user, c.selected);
    var ss, ts := states[..n + 1], steps[..n];
    RunTake(states, steps, threshold, capacity, n);
    SafeAlways(ss, ts, threshold, capacity);
    TokensAlways(ss, ts, threshold, capacity);
    assert ss[n] == states[n];
    assert ChoiceOk(states[n].users, states[n].templates, states[n].procs[pid]);
    assert ProcToken(states[n], pid, states[n].procs[pid]);
    j, k := BeganSomewhere(states, steps, threshold, capacity, n, pid, asked, c.token, c.rows);
    ExpectedExactly(states[k].users, asked, c.rows, slot);
    AskedMoves(states[n], pid, threshold, capacity, steps[n].input);
    assert Next(states[n], steps[n], states[n + 1], threshold, capacity);
  }

  lemma EndMoves(s: State, pid: nat, threshold: nat, capacity: nat, input: Input)
    requires pid in s.procs && s.procs[pid].VerifyEnd?
    ensures var p := s.procs[pid];
            var t := AdvanceProc(s, pid, threshold, capacity, input);
            && pid in t.procs
            && (p.ending.Some? && s.claims.action == Some(p.check.token) ==>
                  t.procs[pid] == VerifyTell(p.check, p.ending.value) && t.claims.action == None)
            && (p.ending.None? || s.claims.action != Some(p.check.token) ==> t.procs[pid] == Finished)
  {
    hide AdvanceEnroll, AdvanceDelete;
  }

  /** The process takes no step from `a` up to `b`. */
  predicate Rests(steps: seq<Step>, pid: nat, a: nat, b: nat) {
    a <= b <= |steps| && forall m :: a <= m < b ==> !(steps[m].Advance? && steps[m].pid == pid)
  }

  lemma {:induction false} StaysPut(states: seq<State>, steps: seq<Step>, threshold: nat, capacity: nat, pid: nat, a: nat, b: nat)
    requires IsRun(states, steps, threshold, capacity) && Rests(steps, pid, a, b) && pid in states[a].procs
    ensures pid in states[b].procs && states[b].procs[pid] == states[a].procs[pid]
    decreases b
  {
    hide Init, Next, PermitInv, SlotsInv, QueueInv;
    if a < b {
      StaysPut(states, steps, threshold, capacity, pid, a, b - 1);
      RunTake(states, steps, threshold, capacity, b - 1);
      SafeAlways(states[..b], steps[..b - 1], threshold, capacity);
      assert states[..b][b - 1] == states[b - 1];
      assert Next(states[b - 1], steps[b - 1], states[b - 1 + 1], threshold, capacity);
      OthersStayPut(states[b - 1], steps[b - 1], states[b], threshold, capacity, pid);
    }
  }

  lemma OthersStayPut(s: State, step: Step, t: State, threshold: nat, capacity: nat, pid: nat)
    requires PermitInv(s) && Next(s, step, t, threshold, capacity) && pid in s.procs
    requires !(step.Advance? && step.pid == pid)
    ensures pid in t.procs && t.procs[pid] == s.procs[pid]
  {
    hide AdvanceProc, PermitInv, Holds;
    if step.Advance? {
      ProcMoves(s, step.pid, threshold, capacity, step.input);
    } else {
      OthersEnter(s, step, t, threshold, capacity);
    }
  }

  /** So a registered finger is never refused: if the sensor answers a verify, at step `n`,
      with a slot where the finger asked for, or any, was registered for the user when the
      token was minted, at sufficient confidence, then at the task's next step, `l`, it
      announces the match if it still owns its token, and otherwise announces nothing. */
  lemma RegisteredFingerMatches(states: seq<State>, steps: seq<Step>, threshold: nat, capacity: nat, n: nat, l: nat,
                                pid: nat, slot: byte, confidence: nat, late: bool, done: bool, input: Input)
    returns (j: nat, k: nat)
    requires IsRun(states, steps, threshold, capacity) && n < l
    requires Moves(states, steps, n, pid, Answered(FromSensor(Value(slot, confidence)), late, done))
    requires states[n].procs[pid].VerifyAsked? && AtHead(states[n], pid) && confidence >= threshold
    requires Rests(steps, pid, n + 1, l) && l < |steps| && steps[l] == Advance(pid, input)
    ensures var c := states[n].procs[pid].check;
            var asked := Asked(c.user, c.selected);
            && k < n && Began(states, steps, pid, asked, c.token, j, k) && pid in states[l + 1].procs
            && (Registered(states[k].users, asked, slot) ==>
                  states[l + 1].procs[pid] == if states[l].claims.action == Some(c.token)
                                              then VerifyTell(c, Verdict(Match, slot)) else Finished)
  {
    hide Init, AdvanceProc, Began, Registered, AtHead;
    j, k := AnswerDecides(states, steps, threshold, capacity, n, pid, slot, confidence, late, done);
    StaysPut(states, steps, threshold, capacity, pid, n + 1, l);
    EndMoves(states[l], pid, threshold, capacity, input);
    assert Next(states[l], steps[l], states[l + 1], threshold, capacity);
  }

  lemma MintedMoves(s: State, pid: nat, threshold: nat, capacity: nat, input: Input)
    requires pid in s.procs && s.procs[pid].VerifyMinted?
    ensures var p := s.procs[pid];
            var t := AdvanceProc(s, pid, threshold, capacity, input);
            && pid in t.procs
            && (if Expected(p.selected, p.rows).Some? then t.procs[pid].VerifyTurn?
                else t.procs[pid] == Finished && t.claims.action != Some(p.token))
  {
    hide AdvanceEnroll, AdvanceDelete, Expected;
  }

  /** A verify goes on to the sensor exactly if the finger asked for, or any, was registered
      for its user when its token was minted; otherwise it ends at once and frees the device. */
  lemma VerifyNeedsAFinger(states: seq<State>, steps: seq<Step>, threshold: nat, capacity: nat, n: nat, pid: nat, input: Input)
    returns (j: nat, k: nat)
    requires IsRun(states, steps, threshold, capacity) && Moves(states, steps, n, pid, input)
    requires states[n].procs[pid].VerifyMinted?
    ensures var p := states[n].procs[pid];
            var asked := Asked(p.user, p.selected);
            && k < n && Began(states, steps, pid, asked, p.token, j, k) && pid in states[n + 1].procs
            && (if RegisteredAny(states[k].users, asked) then states[n + 1].procs[pid].VerifyTurn?
                else states[n + 1].procs[pid] == Finished && states[n + 1].claims.action != Some(p.token))
  {
    hide Init, AdvanceProc, Expected, UserSlots, TokenInv, MintsReal, Began, RegisteredAny;
    var p := states[n].procs[pid];
    var asked := Asked(p.user, p.selected);
    var ss, ts := states[..n + 1], steps[..n];
    RunTake(states, steps, threshold, capacity, n);
    TokensAlways(ss, ts, threshold, capacity);
    assert ss[n] == states[n];
    assert ProcToken(states[n], pid, states[n].procs[pid]);
    j, k := BeganSomewhere(states, steps, threshold, capacity, n, pid, asked, p.token, p.rows);
    ExpectedExactly(states[k].users, asked, p.rows, 0);
    MintedMoves(states[n], pid, threshold, capacity, input);
    assert Next(states[n], steps[n], states[n + 1], threshold, capacity);
  }

  /** Before each request a verify looks whether its token is still the current one, and
      without it asks no more. */
  lemma StoppedVerifyAsksNoMore(states: seq<State>, steps: seq<Step>, threshold: nat, capacity: nat, n: nat, pid: nat, input: Input)
    requires IsRun(states, steps, threshold, capacity) && Moves(states, steps, n, pid, input)
    requires states[n].procs[pid].VerifyTurn?
    ensures var p := states[n].procs[pid];
            && pid in states[n + 1].procs && states[n + 1].queue == states[n].queue
            && states[n + 1].procs[pid] == if states[n].claims.action == Some(p.check.token) then VerifyAsk(p.check, p.retries)
                                           else VerifyEnd(p.check, None)
  {
    hide Init, AdvanceEnroll, AdvanceDelete;
    assert Next(states[n], steps[n], states[n + 1], threshold, capacity);
  }

  /** A task that has come to its announcement makes it, once, and is over. */
  lemma TellsOnce(states: seq<State>, steps: seq<Step>, threshold: nat, capacity: nat, n: nat, pid: nat, input: Input)
    requires IsRun(states, steps, threshold, capacity) && Moves(states, steps, n, pid, input)
    requires states[n].procs[pid].VerifyTell? || states[n].procs[pid].EnrollTell?
    ensures var p := states[n].procs[pid];
            && pid in states[n + 1].procs && states[n + 1].procs[pid] == Finished
            && states[n + 1].told == states[n].told + [if p.VerifyTell? then p.check.token else p.token]
  {
    hide Init, AdvanceDelete;
    assert Next(states[n], steps[n], states[n + 1], threshold, capacity);
  }

  // ----- how often a task asks -----

  /** Whatever the reply, the verify does with it what Decide says, a retry counting one more. */
  lemma AnswerFollowsDecide(states: seq<State>, steps: seq<Step>, threshold: nat, capacity: nat, n: nat, pid: nat,
                            reply: Reply, late: bool, done: bool)
    requires IsRun(states, steps, threshold, capacity) && Moves(states, steps, n, pid, Answered(reply, late, done))
    requires states[n].procs[pid].VerifyAsked? && AtHead(states[n], pid)
    ensures var p := states[n].procs[pid];
            && pid in states[n + 1].procs && states[n + 1].queue == states[n].queue[1..]
            && match Decide(reply, p.check.expected, threshold, p.retries, late)
               case Retry => states[n + 1].procs[pid] == VerifyTurn(p.check, p.retries + 1)
               case Final(status) =>
                 states[n + 1].procs[pid].VerifyEnd? && states[n + 1].procs[pid].ending.Some?
                 && states[n + 1].procs[pid].ending.value.status == status
  {
    hide Init, AdvanceEnroll, AdvanceDelete, Decide;
    assert Next(states[n], steps[n], states[n + 1], threshold, capacity);
  }

  predicate IsAsk(p: Proc) {
    p.VerifyAsk? || p.EnrollAsk?
  }

  /** How many capture requests this process has put before the worker by step `n`. */
  ghost function Asks(states: seq<State>, steps: seq<Step>, n: nat, pid: nat): nat
    requires n <= |steps| && |states| == |steps| + 1
  {
    if n == 0 then 0
    else
      Asks(states, steps, n - 1, pid)
      + if steps[n - 1].Advance? && steps[n - 1].pid == pid && pid in states[n - 1].procs && IsAsk(states[n - 1].procs[pid])
        then 1 else 0
  }

  /** As many as its point in the task allows. */
  predicate AsksFit(p: Proc, asks: nat) {
    match p
    case VerifyTurn(_, retries) => asks <= retries <= MAX_RETRIES
    case VerifyAsk(_, retries) => asks <= retries <= MAX_RETRIES
    case VerifyAsked(_, retries) => asks <= retries + 1 && retries <= MAX_RETRIES
    case VerifyEnd(_, _) => asks <= 6
    case VerifyTell(_, _) => asks <= 6
    case EnrollAsked(_, _, _, _) => asks <= 1
    case EnrollEnd(_, _, _, _, _) => asks <= 1
    case EnrollStore(_, _, _, _) => asks <= 1
    case EnrollTell(_) => asks <= 1
    case Finished => asks <= 6
    case _ => asks == 0
  }

  lemma AskedAsks(s: State, pid: nat, threshold: nat, input: Input, asks: nat)
    requires pid in s.procs && s.procs[pid].VerifyAsked? && AsksFit(s.procs[pid], asks)
    ensures var t := AdvanceVerify(s, pid, s.procs[pid], threshold, input);
            pid in t.procs && AsksFit(t.procs[pid], asks)
  {
    hide Decide, Succeeded;
    var p := s.procs[pid];
    if input.Answered? {
      MatchExactly(input.reply, p.check.expected, threshold, p.retries, input.late);
    }
  }

  lemma VerifyAsks(s: State, pid: nat, threshold: nat, input: Input, asks: nat)
    requires pid in s.procs && IsVerify(s.procs[pid]) && AsksFit(s.procs[pid], asks)
    ensures var t := AdvanceVerify(s, pid, s.procs[pid], threshold, input);
            pid in t.procs && AsksFit(t.procs[pid], asks + if s.procs[pid].VerifyAsk? then 1 else 0)
  {
    hide Expected, UserSlots, StartAction, EndActionIfOwner, VerifyAnswered, Minted, Ended, AtHead;
    if s.procs[pid].VerifyAsked? {
      hide AdvanceVerify, AsksFit;
      AskedAsks(s, pid, threshold, input, asks);
    }
  }

  lemma EnrollPrepares(s: State, pid: nat, capacity: nat, input: Input)
    requires pid in s.procs
    requires var p := s.procs[pid]; p.EnrollEntry? || p.EnrollPermit? || p.EnrollMinted? || p.EnrollNew? || p.EnrollFull?
    ensures var t := AdvanceEnroll(s, pid, s.procs[pid], capacity, input);
            pid in t.procs && AsksFit(t.procs[pid], 0)
  {
    hide SlotOf, Lowest, SetSlot, UserSlots, StartAction, EndActionIfOwner, Minted, Ended, AtHead, Asking;
  }

  lemma EnrollCaptures(s: State, pid: nat, capacity: nat, input: Input, asks: nat)
    requires pid in s.procs
    requires var p := s.procs[pid];
             p.EnrollAsk? || p.EnrollAsked? || p.EnrollEnd? || p.EnrollStore? || p.EnrollTell?
    requires if s.procs[pid].EnrollAsk? then asks == 0 else asks <= 1
    ensures var t := AdvanceEnroll(s, pid, s.procs[pid], capacity, input);
            pid in t.procs && AsksFit(t.procs[pid], asks + if s.procs[pid].EnrollAsk? then 1 else 0)
  {
    hide SlotOf, Lowest, SetSlot, UserSlots, StartAction, EndActionIfOwner, Minted, Ended, Succeeded;
  }

  lemma EnrollAsks(s: State, pid: nat, capacity: nat, input: Input, asks: nat)
    requires pid in s.procs && IsEnroll(s.procs[pid]) && AsksFit(s.procs[pid], asks)
    ensures var t := AdvanceEnroll(s, pid, s.procs[pid], capacity, input);
            pid in t.procs && AsksFit(t.procs[pid], asks + if s.procs[pid].EnrollAsk? then 1 else 0)
  {
    hide AdvanceEnroll;
    var p := s.procs[pid];
    if p.EnrollAsk? || p.EnrollAsked? || p.EnrollEnd? || p.EnrollStore? || p.EnrollTell? {
      EnrollCaptures(s, pid, capacity, input, asks);
    } else {
      EnrollPrepares(s, pid, capacity, input);
    }
  }

  lemma GateAsks(s: State, pid: nat, input: Input, asks: nat)
    requires pid in s.procs && IsDelete(s.procs[pid]) && !Working(s.procs[pid]) && AsksFit(s.procs[pid], asks)
    ensures var t := DeleteGate(s, pid, s.procs[pid], input);
            pid in t.procs && AsksFit(t.procs[pid], asks)
  {
    hide SlotOf, UserSlots, StartAction, IsOrderOf;
  }

  lemma WorkAsks(s: State, pid: nat, input: Input, asks: nat)
    requires pid in s.procs && Working(s.procs[pid]) && AsksFit(s.procs[pid], asks)
    ensures var t := DeleteWork(s, pid, s.procs[pid], input);
            pid in t.procs && AsksFit(t.procs[pid], asks)
  {
    hide Succeeded, RemoveFinger, EndActionIfOwner;
  }

  lemma StopAsks(s: State, pid: nat, asks: nat)
    requires pid in s.procs && s.procs[pid].StopEntry? && AsksFit(s.procs[pid], asks)
    ensures var t := AdvanceStop(s, pid, s.procs[pid]);
            pid in t.procs && AsksFit(t.procs[pid], asks)
  {
    hide StopAction;
  }

  lemma ProcAsks(s: State, pid: nat, threshold: nat, capacity: nat, input: Input, asks: nat)
    requires pid in s.procs && AsksFit(s.procs[pid], asks)
    ensures var t := AdvanceProc(s, pid, threshold, capacity, input);
            pid in t.procs && AsksFit(t.procs[pid], asks + if IsAsk(s.procs[pid]) then 1 else 0)
  {
    hide AdvanceVerify, AdvanceEnroll, DeleteGate, DeleteWork, AdvanceStop, Working, AsksFit;
    var p := s.procs[pid];
    if IsVerify(p) {
      VerifyAsks(s, pid, threshold, input, asks);
    } else if IsEnroll(p) {
      EnrollAsks(s, pid, capacity, input, asks);
    } else if p.StopEntry? {
      StopAsks(s, pid, asks);
    } else if Working(p) {
      WorkAsks(s, pid, input, asks);
    } else {
      GateAsks(s, pid, input, asks);
    }
  }

  lemma EntryAsksNothing(p: Proc)
    requires IsEntry(p)
    ensures AsksFit(p, 0)
  {
  }

  lemma {:induction false} AsksAlways(states: seq<State>, steps: seq<Step>, threshold: nat, capacity: nat, n: nat, pid: nat)
    requires IsRun(states, steps, threshold, capacity) && n <= |steps|
    ensures if pid in states[n].procs then AsksFit(states[n].procs[pid], Asks(states, steps, n, pid))
            else Asks(states, steps, n, pid) == 0
    decreases n
  {
    hide Next, AsksFit, IsAsk, AdvanceProc, PermitInv, SlotsInv, QueueInv, NoForeignTemplate, Injective, IsEntry;
    if n > 0 {
      hide Init;
      AsksAlways(states, steps, threshold, capacity, n - 1, pid);
      var s, step, t := states[n - 1], steps[n - 1], states[n];
      assert Next(s, step, states[n - 1 + 1], threshold, capacity);
      if step.Advance? && step.pid == pid {
        OwnStep(s, pid, step.input, t, threshold, capacity);
        ProcAsks(s, pid, threshold, capacity, step.input, Asks(states, steps, n - 1, pid));
      } else {
        RunTake(states, steps, threshold, capacity, n - 1);
        SafeAlways(states[..n], steps[..n - 1], threshold, capacity);
        assert states[..n][n - 1] == s;
        if pid in s.procs {
          OthersStayPut(s, step, t, threshold, capacity, pid);
        } else if pid in t.procs {
          NewcomerIsEntry(s, step, t, threshold, capacity, pid);
          EntryAsksNothing(t.procs[pid]);
        }
      }
    }
  }

  lemma OwnStep(s: State, pid: nat, input: Input, t: State, threshold: nat, capacity: nat)
    requires Next(s, Advance(pid, input), t, threshold, capacity)
    ensures pid in s.procs && t == AdvanceProc(s, pid, threshold, capacity, input)
  {
    hide AdvanceProc;
  }

  lemma NewcomerIsEntry(s: State, step: Step, t: State, threshold: nat, capacity: nat, pid: nat)
    requires PermitInv(s) && Next(s, step, t, threshold, capacity) && pid !in s.procs && pid in t.procs
    ensures IsEntry(t.procs[pid])
  {
    hide AdvanceProc, PermitInv, Holds, IsEntry;
    if step.Advance? {
      ProcMoves(s, step.pid, threshold, capacity, step.input);
    } else {
      OthersEnter(s, step, t, threshold, capacity);
    }
  }

  /** In every run no task puts more than six capture requests before the worker; an enroll
      that has not ended has put one at most. */
  lemma AtMostSixRequests(states: seq<State>, steps: seq<Step>, threshold: nat, capacity: nat, n: nat, pid: nat)
    requires IsRun(states, steps, threshold, capacity) && n <= |steps|
    ensures Asks(states, steps, n, pid) <= 6
    ensures pid in states[n].procs && IsEnroll(states[n].procs[pid]) ==> Asks(states, steps, n, pid) <= 1
  {
    hide IsRun, Asks;
    AsksAlways(states, steps, threshold, capacity, n, pid);
  }
}

/** The two ends' counters agree, so the next command is always acceptable, and an unpair
    the tool reports is one the Nano carried out. */
module ChannelAgreement {
  import opened Bytes
  import opened Outcomes
  import opened Framing
  import opened FirmwareFraming
  import opened Eeprom
  import opened EepromRing
  import opened EepromTears
  import opened Nano
  import opened SensorLink
  import opened Pairing
  import opened Channel
  import opened ChannelSafety
  import SipHash

  // ----- agreement -----

  /** The Nano's stored counter is one the host has used. */
  ghost predicate AgreeInv(s: State) {
    IsPaired(s.img) ==> Load(s.img) == 0 || exists i :: 0 <= i < |s.sent| && s.sent[i].counter == Load(s.img)
  }

  /** A save that is whole, or cut over a tear-safe cell, stores the old counter or the
      command's. */
  lemma CleanSaveStores(img: Image, n: u64, k: nat)
    requires k <= CELL_SIZE && n > Load(img)
    requires 0 < k < CELL_SIZE ==> TearSafe(Cell(img, NextCell(img)), n, Load(img))
    ensures Load(SavedPrefix(img, n, k)) == Load(img) || Load(SavedPrefix(img, n, k)) == n
  {
    hide Load, SavedPrefix, Cell, NextCell, TearSafe;
    UntornLoads(img, n);
    if 0 < k < CELL_SIZE {
      TearSafeExact(img, n);
    }
  }

  lemma CleanLine(key: Key, img: Image, line: bytes, script: bytes, saveCut: nat, bulkCut: nat, s: State)
    requires IsPaired(img) && KeyOf(img) == key && s.img == img
    requires CleanSave(key, s, NanoLine(line, script, saveCut, bulkCut))
    ensures var out := Process(img, line, script, saveCut, bulkCut);
            IsPaired(out.img) ==>
              (Load(out.img) == Load(img)
               || (VerifyFrame(key, line).Ok? && Load(out.img) == VerifyFrame(key, line).value.counter))
  {
    hide Process, IsPaired, KeyOf, VerifyFrame, SavedPrefix, Load, Cell, TearSafe, NextCell;
    ProcessEffect(key, img, line, script, saveCut, bulkCut);
    NanoCounter(key, img, line, script, saveCut, bulkCut);
    if VerifyFrame(key, line).Ok? {
      var n := VerifyFrame(key, line).value.counter;
      if Load(img) < n {
        CleanSaveStores(img, n, BytesDown(saveCut));
      }
    }
  }

  lemma NanoKeepsAgreement(key: Key, s: State, line: bytes, script: bytes, saveCut: nat, bulkCut: nat)
    requires NanoInv(key, s) && AgreeInv(s) && IsPaired(s.img)
    requires Genuine(key, s, NanoLine(line, script, saveCut, bulkCut))
    requires CleanSave(key, s, NanoLine(line, script, saveCut, bulkCut))
    ensures AgreeInv(NanoHeard(s, line, script, saveCut, bulkCut))
  {
    hide Process, IsPaired, KeyOf, VerifyFrame, Tagged, Load, CleanSave;
    CleanLine(key, s.img, line, script, saveCut, bulkCut, s);
    if VerifyFrame(key, line).Ok? {
      TaggedCommandWasSent(s, VerifyFrame(key, line).value);
    }
  }

  lemma AgreeInvStep(key: Key, s: State, step: Step, t: State)
    requires NanoInv(key, s) && AgreeInv(s) && Next(key, s, step, t)
    requires Genuine(key, s, step) && CleanSave(key, s, step)
    ensures AgreeInv(t)
  {
    hide Process, IsPaired, VerifyFrame, NanoInv, Genuine, CleanSave, NanoHeard, Load;
    if step.NanoLine? {
      NanoKeepsAgreement(key, s, step.line, step.script, step.saveCut, step.bulkCut);
    } else {
      HostKeepsAuth(key, s, step, t);
      hide Next;
      assert forall i :: 0 <= i < |s.sent| ==> t.sent[i] == s.sent[i];
    }
  }

  lemma {:induction false} AgreeInvAlways(key: Key, states: seq<State>, steps: seq<Step>)
    requires IsRun(key, states, steps) && AllGenuine(key, states, steps) && AllClean(key, states, steps)
    ensures AgreeInv(states[|steps|])
  {
    hide Next, Genuine, CleanSave;
    if |steps| == 0 {
      StartsPaired(key, states[0]);
    } else {
      hide Init, AgreeInv, NanoInv;
      RunPrefix(key, states, steps);
      NanoInvAlways(key, states[..|steps|], steps[..|steps| - 1]);
      AgreeInvAlways(key, states[..|steps|], steps[..|steps| - 1]);
      AgreeInvStep(key, states[|steps| - 1], steps[|steps| - 1], states[|steps|]);
    }
  }

  /** Host and Nano agree: counters on the wire strictly increase, the durable next counter
      stays at or below the ceiling and above everything the Nano has stored, and a command
      about to be sent is above the Nano's counter. */
  lemma CountersAgree(key: Key, states: seq<State>, steps: seq<Step>)
    requires IsRun(key, states, steps) && AllGenuine(key, states, steps) && AllClean(key, states, steps)
    requires AllForward(states, steps)
    ensures var s := states[|steps|];
            && (forall i, j :: 0 <= i < j < |s.sent| ==> s.sent[i].counter < s.sent[j].counter)
            && 1 <= s.next <= COUNTER_CEILING
            && (IsPaired(s.img) ==>
                  && Load(s.img) < s.next && Load(s.img) < COUNTER_CEILING
                  && (s.host.Begun? ==> Load(s.img) < s.host.cmd.counter < COUNTER_CEILING))
  {
    AgreeInvAlways(key, states, steps);
    HostInvAlways(key, states, steps);
    hide IsRun, AllGenuine, AllClean, AllForward, IsPaired, Load;
  }

  /** So the next command is never refused: the frame about to be sent, delivered, is
      dispatched with its counter stored, whatever else has happened. */
  lemma NextCommandRuns(key: Key, states: seq<State>, steps: seq<Step>, script: bytes, saveCut: nat, bulkCut: nat)
    requires IsRun(key, states, steps) && AllGenuine(key, states, steps) && AllClean(key, states, steps)
    requires AllForward(states, steps)
    requires var s := states[|steps|];
             && s.host.Begun? && IsPaired(s.img) && saveCut >= CELL_SIZE
             && |s.host.cmd.text| < BODY_BUFFER && 24 <= |EncodeCommand(key, s.host.cmd)| <= 145
    ensures var s := states[|steps|];
            var out := Process(s.img, EncodeCommand(key, s.host.cmd), script, saveCut, bulkCut);
            && out.dispatched == Some(s.host.cmd)
            && out.tx == FrameStream(key, s.host.cmd.counter, out.bodies)
  {
    var s := states[|steps|];
    CountersAgree(key, states, steps);
    NanoInvAlways(key, states, steps);
    hide IsRun, AllGenuine, AllClean, AllForward, Genuine;
    RunsWhole(key, s.img, s.host.cmd, script, saveCut, bulkCut);
  }

  /** Such states are there to be reached: after any pairing, opening the port and beginning
      any command. */
  lemma FirstCommandBegins(key: Key, img: Image, text: bytes)
    ensures exists s: State ::
              Reachable(key, s, true, true) && s.host == Begun(Command(1, text)) && IsPaired(s.img)
  {
    hide Next, IsPaired, PairedImage, Fair, Reachable;
    PairedRecord(img, key);
    var s0 := State(1, Down, PairedImage(img, key), [], [], [], []);
    ReachesStart(key, s0, true, true);
    var s1 := s0.(host := Idle(1));
    var s2 := s1.(next := 2, host := Begun(Command(1, text)));
    Begins(key, s0, text);
    FreeSteps(key, s0, Open);
    FreeSteps(key, s1, Begin(text));
    ReachesNext(key, s0, Open, s1, true, true);
    ReachesNext(key, s1, Begin(text), s2, true, true);
  }

  /** Opening the port and beginning a command. */
  lemma Begins(key: Key, s: State, text: bytes)
    requires s.host == Down && s.next < COUNTER_CEILING
    ensures var a := s.(host := Idle(s.next));
            var b := a.(next := s.next + 1, host := Begun(Command(s.next, text)));
            Next(key, s, Open, a) && Next(key, a, Begin(text), b)
  {
  }

  /** Steps nothing is assumed about. */
  predicate Free(step: Step) {
    !step.NanoLine? && !step.Hear? && !step.UnpairHear? && !step.Resync?
  }

  lemma FreeSteps(key: Key, s: State, step: Step)
    requires Free(step) || step.Resync?
    ensures Free(step) ==> Fair(key, s, step, true, true)
    ensures Fair(key, s, step, true, false)
    ensures Forward(s, step) ==> Fair(key, s, step, true, true) && Fair(key, s, step, false, true)
  {
    hide Process, VerifyFrame, VerifyResponse, Tagged, TearSafe, Resynced;
  }

  lemma RunsWhole(key: Key, img: Image, cmd: Command, script: bytes, saveCut: nat, bulkCut: nat)
    requires IsPaired(img) && KeyOf(img) == key && Load(img) < cmd.counter < COUNTER_CEILING
    requires saveCut >= CELL_SIZE && |cmd.text| < BODY_BUFFER && 24 <= |EncodeCommand(key, cmd)| <= 145
    ensures var out := Process(img, EncodeCommand(key, cmd), script, saveCut, bulkCut);
            && out.dispatched == Some(cmd)
            && out.tx == FrameStream(key, cmd.counter, out.bodies)
            && out.bodies == PrintedBodies(Nano.Dispatch(Saved(img, cmd.counter), CString(cmd.text), script, bulkCut).printed)
  {
    hide EncodeCommand, Process, IsPaired, KeyOf, SavedPrefix, Load, Nano.Dispatch, PrintedBodies, FrameStream;
    ReachesGate(key, img, cmd, script, saveCut, bulkCut);
    PairingSurvivesPrefix(img, cmd.counter, CELL_SIZE);
  }

  lemma ReachesGate(key: Key, img: Image, cmd: Command, script: bytes, saveCut: nat, bulkCut: nat)
    requires IsPaired(img) && KeyOf(img) == key && 24 <= |EncodeCommand(key, cmd)| <= 145
    ensures Process(img, EncodeCommand(key, cmd), script, saveCut, bulkCut) == Admit(img, cmd, script, saveCut, bulkCut)
  {
    hide EncodeCommand, VerifyCommand, VerifyFrame, Admit, IsPaired, KeyOf, Ascii;
    CommandRoundTrip(key, cmd);
    VerifiersAgree(key, EncodeCommand(key, cmd), cmd);
    FramedLine(key, cmd);
  }

  lemma FramedLine(key: Key, cmd: Command)
    ensures var line := EncodeCommand(key, cmd);
            && line != Ascii("ping") && line != Ascii("status")
            && |line| >= 2 && line[0] == 0x43 && line[1] == SPACE
  {
    hide SipHash.Mac, CommandHead, MacSuffix;
    assert Ascii("ping")[0] == 0x70 && Ascii("status")[0] == 0x73;
  }

  // ----- unpairing -----

  ghost predicate UnpairInv(s: State) {
    && (s.host == Retired || s.host == Confirming ==> !IsPaired(s.img))
    && forall i :: 0 <= i < |s.ran| && s.ran[i].cmd.text == Ascii("unpair") && s.ran[i].bodies != [] ==> !IsPaired(s.img)
  }

  lemma NanoKeepsUnpaired(key: Key, s: State, line: bytes, script: bytes, saveCut: nat, bulkCut: nat)
    requires NanoInv(key, s) && UnpairInv(s) && IsPaired(s.img)
    ensures UnpairInv(NanoHeard(s, line, script, saveCut, bulkCut))
  {
    hide Process, IsPaired, KeyOf, VerifyFrame, Load, Ascii;
    ProcessEffect(key, s.img, line, script, saveCut, bulkCut);
  }

  lemma WaitingUnpair(s: State)
    requires HostInv(s) && s.host.UnpairWaiting?
    ensures s.host.cmd in s.sent && s.host.cmd.text == Ascii("unpair")
  {
    hide Ascii;
  }

  lemma HearUnpaired(key: Key, s: State, line: bytes)
    requires HostInv(s) && AuthInv(s) && UnpairInv(s) && s.host.UnpairWaiting?
    requires Genuine(key, s, UnpairHear(line))
    ensures UnpairInv(UnpairHeard(key, s, line))
  {
    hide IsPaired, VerifyResponse, Tagged, ResponseInput, AuthInv, HostInv, Ignored, StartsWith, SeqOf;
    if UnpairHeard(key, s, line).host == Confirming {
      WaitingUnpair(s);
      var i, j := TaggedReply(s, s.host.cmd, VerifyResponse(key, line).value);
    }
  }

  lemma ProbesKeepUnpaired(s: State, line: bytes)
    requires UnpairInv(s)
    ensures s.host == Probing ==> UnpairInv(ProbeHeard(s, line))
    ensures s.host == Confirming ==> UnpairInv(ConfirmHeard(s, line))
  {
    hide IsPaired, ParseStatus, Ignored, Ascii;
  }

  lemma UnpairInvStep(key: Key, s: State, step: Step, t: State)
    requires NanoInv(key, s) && HostInv(s) && AuthInv(s) && UnpairInv(s)
    requires Next(key, s, step, t) && Genuine(key, s, step)
    ensures UnpairInv(t)
  {
    hide NanoInv, HostInv, AuthInv, Genuine, IsPaired, NanoHeard, UnpairHeard, ProbeHeard, ConfirmHeard, Resynced,
         Ascii, CheckLine, IsFinal;
    if step.NanoLine? {
      NanoKeepsUnpaired(key, s, step.line, step.script, step.saveCut, step.bulkCut);
    } else if step.UnpairHear? {
      HearUnpaired(key, s, step.line);
    } else if step.UnpairProbe? || step.UnpairConfirm? {
      ProbesKeepUnpaired(s, step.line);
    }
  }

  lemma {:induction false} UnpairInvAlways(key: Key, states: seq<State>, steps: seq<Step>)
    requires IsRun(key, states, steps) && AllGenuine(key, states, steps) && AllFew(states, steps)
    requires AllForward(states, steps)
    ensures UnpairInv(states[|steps|])
  {
    hide Next, Genuine, FewLines, Forward;
    if |steps| > 0 {
      hide Init, AuthInv, NanoInv, HostInv, UnpairInv;
      RunPrefix(key, states, steps);
      NanoInvAlways(key, states[..|steps|], steps[..|steps| - 1]);
      HostInvAlways(key, states[..|steps|], steps[..|steps| - 1]);
      AuthInvAlways(key, states[..|steps|], steps[..|steps| - 1]);
      UnpairInvAlways(key, states[..|steps|], steps[..|steps| - 1]);
      UnpairInvStep(key, states[|steps| - 1], steps[|steps| - 1], states[|steps|]);
    }
  }

  /** The line says about pairing what the Nano itself would print now. */
  ghost predicate HonestStatus(line: bytes, img: Image) {
    && ParseStatus(line).Some? && ParseStatus(StatusText(img)).Some?
    && ParseStatus(line).value.paired == ParseStatus(StatusText(img)).value.paired
  }

  /** The step removes the host's key. */
  ghost predicate Removes(s: State, t: State) {
    |t.removals| == |s.removals| + 1
  }

  lemma RemovalSteps(key: Key, s: State, step: Step, t: State)
    requires Next(key, s, step, t) && Removes(s, t)
    ensures t.img == s.img && (step.UnpairProbe? || step.UnpairConfirm?)
    ensures ParseStatus(step.line).Some? && !ParseStatus(step.line).value.paired
    ensures step.UnpairConfirm? ==> t.host == Retired
  {
    hide CheckLine, VerifyResponse, IsFinal, Ascii, Process, Ignored, ParseStatus, Resynced;
  }

  /** When the unpair tool removes the host's key, the Nano's pairing record is gone exactly
      if the removal came after the verified reply to its command, or the status line it
      went by was true. */
  lemma UnpairIsReal(key: Key, states: seq<State>, steps: seq<Step>, i: nat)
    requires IsRun(key, states, steps) && AllGenuine(key, states, steps) && AllFew(states, steps)
    requires AllForward(states, steps) && i < |steps| && Removes(states[i], states[i + 1])
    ensures (steps[i].UnpairProbe? || steps[i].UnpairConfirm?)
    ensures !IsPaired(states[i + 1].img) <==> steps[i].UnpairConfirm? || HonestStatus(steps[i].line, states[i].img)
  {
    hide Next, Genuine, FewLines, Forward, Removes, IsPaired, ParseStatus, StatusText, Init;
    assert Next(key, states[i], steps[i], states[i + 1]);
    RunTake(key, states, steps, i + 1);
    UnpairInvAlways(key, states[..i + 2], steps[..i + 1]);
    assert states[..i + 2][i + 1] == states[i + 1];
    RemovalSteps(key, states[i], steps[i], states[i + 1]);
    StatusTextParses(states[i].img);
  }

  lemma ForgedProbe(key: Key, r: State, s: State, line: bytes)
    requires r.host == Down && s == r.(host := Probing) && line == StatusLine(false, 0)
    ensures Next(key, r, UnpairOpen, s)
    ensures Next(key, s, UnpairProbe(line), s.(host := Down, removals := s.removals + [ByStatus(line)]))
  {
    hide ParseStatus, StatusLine, Ignored, CheckLine, VerifyResponse, Process;
    StatusLineParses(false, 0);
    StatusNotIgnored(false, 0);
  }

  /** And one forged status line is enough: the key goes while the Nano stays paired. */
  lemma ForgedStatusRemovesKey(key: Key, img: Image)
    ensures exists s: State :: Reachable(key, s, true, true) && s.removals != [] && IsPaired(s.img)
  {
    hide Next, IsPaired, PairedImage, Fair, Reachable, StatusLine;
    PairedRecord(img, key);
    var forged := StatusLine(false, 0);
    var s0 := State(1, Down, PairedImage(img, key), [], [], [], []);
    ReachesStart(key, s0, true, true);
    var s1 := s0.(host := Probing);
    var s2 := s1.(host := Down, removals := s1.removals + [ByStatus(forged)]);
    ForgedProbe(key, s0, s1, forged);
    FreeSteps(key, s0, UnpairOpen);
    FreeSteps(key, s1, UnpairProbe(forged));
    ReachesNext(key, s0, UnpairOpen, s1, true, true);
    ReachesNext(key, s1, UnpairProbe(forged), s2, true, true);
  }

  // ----- replies -----

  lemma ReplyPasses(key: Key, r: Response)
    ensures CheckLine(key, r.counter, r.seq_no, EncodeResponse(key, r)) == SensorLink.Accepted(r.body)
  {
    hide EncodeResponse, VerifyResponse, StartsWith;
    ResponseRoundTrip(key, r);
    EncodedLeader(key, r);
  }

  lemma EncodedLeader(key: Key, r: Response)
    ensures EncodeResponse(key, r) != [] && StartsWith(EncodeResponse(key, r), R_LEADER)
  {
    hide ResponseHead, MacSuffix, StartsWith, SipHash.Mac;
    var rest := ResponseHead(r) + MacSuffix(SipHash.Mac(key, ResponseInput(r)));
    LeaderFound(R_LEADER, rest);
    assert EncodeResponse(key, r) == R_LEADER + rest;
  }

  lemma LeaderFound(leader: bytes, rest: bytes)
    ensures StartsWith(leader + rest, leader)
  {
    assert (leader + rest)[..|leader|] == leader;
  }
}

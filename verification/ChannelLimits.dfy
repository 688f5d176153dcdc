/** What the channel does not give: a counter that cannot be passed any more, a lost state
    file, and resync, which can take the host's counter back. */
module ChannelLimits {
  import opened Bytes
  import opened Outcomes
  import opened Decimal
  import opened Framing
  import opened FirmwareFraming
  import opened Eeprom
  import opened EepromRing
  import opened EepromTears
  import opened Nano
  import opened NanoBuffers
  import opened SensorLink
  import opened Pairing
  import opened Channel
  import opened ChannelSafety
  import opened ChannelAgreement
  import MacWire
  import SipHash

  // ----- no counter left -----

  /** A paired Nano can still be made to run a given command, `unpair` for one, under some
      counter exactly while its stored counter is at least two below the ceiling. */
  lemma StuckExactly(img: Image, text: bytes, script: bytes, bulkCut: nat)
    requires |text| < BODY_BUFFER
    ensures (exists n: u64 :: Admit(img, Command(n, text), script, CELL_SIZE, bulkCut).dispatched.Some?)
       <==> Load(img) + 1 < COUNTER_CEILING
  {
    hide Nano.Dispatch, PrintedBodies, FrameStream, SavedPrefix, Load;
    if Load(img) + 1 < COUNTER_CEILING {
      assert Admit(img, Command(Load(img) + 1, text), script, CELL_SIZE, bulkCut).dispatched.Some?;
    }
  }

  ghost predicate Stuck(key: Key, s: State, ran: seq<Ran>) {
    s.ran == ran && IsPaired(s.img) && KeyOf(s.img) == key && Load(s.img) + 1 >= COUNTER_CEILING
  }

  lemma StuckStep(key: Key, s: State, step: Step, t: State, ran: seq<Ran>)
    requires Stuck(key, s, ran) && Next(key, s, step, t)
    ensures Stuck(key, t, ran)
  {
    hide Process, IsPaired, KeyOf, Load, VerifyFrame, SavedPrefix;
    if step.NanoLine? {
      ProcessEffect(key, s.img, step.line, step.script, step.saveCut, step.bulkCut);
    } else {
      HostKeepsNano(key, s, step, t);
      hide Next;
    }
  }

  lemma {:induction false} StuckFrom(key: Key, states: seq<State>, steps: seq<Step>, i: nat, n: nat)
    requires IsRun(key, states, steps) && i <= n <= |steps| && Stuck(key, states[i], states[i].ran)
    ensures Stuck(key, states[n], states[i].ran)
    decreases n - i
  {
    hide Next, Stuck, Init;
    if n > i {
      StuckFrom(key, states, steps, i, n - 1);
      assert Next(key, states[n - 1], steps[n - 1], states[n - 1 + 1]);
      StuckStep(key, states[n - 1], steps[n - 1], states[n], states[i].ran);
    }
  }

  /** Once the stored counter is that high, nothing is ever dispatched again, unpair
      included, and the Nano stays paired. */
  lemma StuckForever(key: Key, states: seq<State>, steps: seq<Step>, i: nat)
    requires IsRun(key, states, steps) && i <= |steps|
    requires IsPaired(states[i].img) && Load(states[i].img) + 1 >= COUNTER_CEILING
    ensures states[|steps|].ran == states[i].ran && IsPaired(states[|steps|].img)
  {
    hide Next, Init, IsPaired, KeyOf, Load;
    RunTake(key, states, steps, i);
    NanoInvAlways(key, states[..i + 1], steps[..i]);
    assert states[..i + 1][i] == states[i];
    StuckFrom(key, states, steps, i, |steps|);
  }

  // ----- pieces of the runs below -----

  /** Opening the port, beginning a command and sending it. */
  lemma OpensAndSends(key: Key, s: State, text: bytes, clean: bool, forward: bool) returns (t: State)
    requires Reachable(key, s, clean, forward) && s.host == Down && s.next < COUNTER_CEILING
    ensures Reachable(key, t, clean, forward)
    ensures var cmd := Command(s.next, text);
            t == s.(next := s.next + 1, host := Waiting(cmd, []), sent := s.sent + [cmd])
  {
    hide Next, Reachable, Fair;
    var a := s.(host := Idle(s.next));
    var b := a.(next := s.next + 1, host := Begun(Command(s.next, text)));
    t := b.(host := Waiting(b.host.cmd, []), sent := b.sent + [b.host.cmd]);
    Begins(key, s, text);
    Sends(key, b);
    FairFree(key, s, Open, clean, forward);
    FairFree(key, a, Begin(text), clean, forward);
    FairFree(key, b, Send, clean, forward);
    ReachesNext(key, s, Open, a, clean, forward);
    ReachesNext(key, a, Begin(text), b, clean, forward);
    ReachesNext(key, b, Send, t, clean, forward);
  }

  lemma Sends(key: Key, s: State)
    requires s.host.Begun?
    ensures Next(key, s, Send, s.(host := Waiting(s.host.cmd, []), sent := s.sent + [s.host.cmd]))
  {
  }

  lemma FairFree(key: Key, s: State, step: Step, clean: bool, forward: bool)
    requires Free(step)
    ensures Fair(key, s, step, clean, forward)
  {
    hide Genuine, FewLines, CleanSave, Forward;
    FreeSteps(key, s, step);
  }

  lemma GivesUp(key: Key, s: State, clean: bool, forward: bool)
    requires Reachable(key, s, clean, forward) && s.host.Waiting? && s.host.cmd.counter + 1 < TWO_64
    ensures Reachable(key, s.(host := Down), clean, forward)
  {
    hide Reachable, Fair;
    var a := s.(host := Idle(s.host.cmd.counter + 1));
    assert Next(key, s, TimeOut, a) && Next(key, a, Crash, a.(host := Down));
    hide Next;
    FairFree(key, s, TimeOut, clean, forward);
    FairFree(key, a, Crash, clean, forward);
    ReachesNext(key, s, TimeOut, a, clean, forward);
    ReachesNext(key, a, Crash, a.(host := Down), clean, forward);
  }

  /** The resync tool hearing a status line that reports this counter. */
  lemma Resyncs(key: Key, s: State, counter: u64, clean: bool, forward: bool)
    requires Reachable(key, s, clean, forward) && s.host == Down && counter < COUNTER_CEILING - 1
    requires forward ==> counter + 1 >= s.next
    ensures Reachable(key, s.(next := counter + 1), clean, forward)
  {
    hide ParseStatus, StatusLine, Process, CheckLine, VerifyResponse, Reachable, Fair;
    StatusLineParses(true, counter);
    var step, t := Resync(StatusLine(true, counter)), s.(next := counter + 1);
    assert Next(key, s, step, t);
    assert Forward(s, step) <==> counter + 1 >= s.next;
    hide Next, Forward;
    FreeSteps(key, s, step);
    FairEither(key, s, step, clean, forward);
    ReachesNext(key, s, step, t, clean, forward);
  }

  lemma FairEither(key: Key, s: State, step: Step, clean: bool, forward: bool)
    requires Fair(key, s, step, true, false) && (forward ==> Forward(s, step))
    ensures Fair(key, s, step, clean, forward)
  {
    hide Genuine, FewLines, CleanSave, Forward;
  }

  /** The Nano hearing a frame that was sent, with what is assumed of such a step. */
  lemma HearsSent(key: Key, s: State, cmd: Command, script: bytes, saveCut: nat, bulkCut: nat)
    requires IsPaired(s.img) && KeyOf(s.img) == key && cmd in s.sent
    requires 24 <= |EncodeCommand(key, cmd)| <= 145
    ensures var step := NanoLine(EncodeCommand(key, cmd), script, saveCut, bulkCut);
            && Next(key, s, step, NanoHeard(s, step.line, script, saveCut, bulkCut)) && Genuine(key, s, step)
            && Process(s.img, step.line, script, saveCut, bulkCut) == Admit(s.img, cmd, script, saveCut, bulkCut)
  {
    hide EncodeCommand, VerifyCommand, VerifyFrame, Process, Admit, IsPaired, KeyOf, CommandInput, ResponseInput;
    CommandRoundTrip(key, cmd);
    VerifiersAgree(key, EncodeCommand(key, cmd), cmd);
    ReachesGate(key, s.img, cmd, script, saveCut, bulkCut);
    var i :| 0 <= i < |s.sent| && s.sent[i] == cmd;
    assert CommandInput(cmd) == CommandInput(s.sent[i]);
  }

  lemma ShortFrame(key: Key, cmd: Command)
    requires 2 <= |cmd.text| <= 80
    ensures 24 <= |EncodeCommand(key, cmd)| <= 145
  {
    hide SipHash.Mac, MacWire.MacBytes, MacWire.Hex;
    DecWidths(cmd.counter);
    hide Dec;
    assert |EncodeCommand(key, cmd)| == 22 + |Dec(cmd.counter)| + |cmd.text|;
  }

  // ----- a first save that ends the pairing -----

  lemma CutSaveSticks(key: Key, img: Image, s: State, cmd: Command, t: State)
    requires s.img == PairedImage(img, key) && cmd in s.sent && cmd.counter == 0xAD46
    requires 24 <= |EncodeCommand(key, cmd)| <= 145
    requires t == s.(img := SavedPrefix(s.img, cmd.counter, 2))
    ensures IsPaired(t.img) && Load(t.img) >= COUNTER_CEILING
    ensures Next(key, s, NanoLine(EncodeCommand(key, cmd), [], 2, 0), t)
    ensures Fair(key, s, NanoLine(EncodeCommand(key, cmd), [], 2, 0), false, true)
  {
    hide EncodeCommand, VerifyFrame, IsPaired, KeyOf, PairedImage, SavedPrefix, Load, Process, Genuine, Nano.Execute;
    PairedRecord(img, key);
    FreshRing(img, key);
    HearsSent(key, s, cmd, [], 2, 0);
    ErasedTearInvents(img, key, cmd.counter);
    PairingSurvivesPrefix(s.img, cmd.counter, 2);
    assert Admit(s.img, cmd, [], 2, 0) == Outcome(SavedPrefix(s.img, cmd.counter, 2), [], None, []);
  }

  /** One such save is enough for that: a run from pairing, with honest tags and no backward
      resync, in which power fails once and no command will ever run. */
  lemma FirstSaveCanStick(key: Key, img: Image)
    ensures exists s: State ::
              Reachable(key, s, false, true) && s.ran == [] && IsPaired(s.img) && Load(s.img) + 1 >= COUNTER_CEILING
  {
    hide IsPaired, PairedImage, SavedPrefix, Load, EncodeCommand, Reachable, Next, Fair;
    var s0 := State(1, Down, PairedImage(img, key), [], [], [], []);
    ReachesStart(key, s0, false, true);
    Resyncs(key, s0, 0xAD45, false, true);
    var s1 := s0.(next := 0xAD46);
    var s2 := OpensAndSends(key, s1, Ascii("count"), false, true);
    var cmd := s2.host.cmd;
    ShortFrame(key, cmd);
    var s3 := s2.(img := SavedPrefix(s2.img, cmd.counter, 2));
    CutSaveSticks(key, img, s2, cmd, s3);
    ReachesNext(key, s2, NanoLine(EncodeCommand(key, cmd), [], 2, 0), s3, false, true);
  }

  // ----- a lost state file -----

  /** A daemon that lost its state file starts again at 1: the Nano takes that for a replay
      exactly when it has stored any counter at all. */
  lemma LostStateRefused(img: Image, text: bytes, script: bytes, saveCut: nat, bulkCut: nat)
    ensures Admit(img, Command(1, text), script, saveCut, bulkCut) == Outcome(img, Ascii("ERR replay") + CRLF, None, [])
       <==> Load(img) >= 1
  {
    hide Nano.Execute, Load, SavedPrefix;
    if Load(img) == 0 {
      NotReplay(img, Command(1, text), script, saveCut, bulkCut);
    }
  }

  /** An admitted command is never answered as a replay with nothing stored. */
  lemma NotReplay(img: Image, c: Command, script: bytes, saveCut: nat, bulkCut: nat)
    requires Load(img) < c.counter < COUNTER_CEILING
    ensures Admit(img, c, script, saveCut, bulkCut) != Outcome(img, Ascii("ERR replay") + CRLF, None, [])
  {
    hide Nano.Dispatch, PrintedBodies, FrameStream, Load, SavedPrefix;
    if saveCut >= CELL_SIZE {
      var tx := Admit(img, c, script, saveCut, bulkCut).tx;
      if |c.text| >= BODY_BUFFER {
        assert tx[4] == 0x66 && (Ascii("ERR replay") + CRLF)[4] == 0x72;
      }
    }
  }

  // ----- resync -----

  /** After a resync the next command, sent whole, runs on the Nano exactly when the counter
      reported was not below the Nano's own; and the host has not gone backward exactly when
      the report was at least its last used counter. */
  lemma ResyncExact(key: Key, s: State, line: bytes, status: Status, text: bytes, script: bytes, bulkCut: nat)
    requires s.host == Down && IsPaired(s.img) && KeyOf(s.img) == key
    requires ParseStatus(line) == Some(status) && status.paired && ResyncTarget(status.counter).Some?
    requires 2 <= |text| <= 80
    ensures var t := s.(next := Resynced(s.next, line));
            var cmd := Command(t.next, text);
            && Next(key, s, Resync(line), t)
            && (Process(t.img, EncodeCommand(key, cmd), script, CELL_SIZE, bulkCut).dispatched == Some(cmd)
                <==> status.counter >= Load(s.img))
            && (Forward(s, Resync(line)) <==> status.counter + 1 >= s.next)
  {
    hide Process, EncodeCommand, IsPaired, KeyOf, Load, SavedPrefix, Nano.Dispatch, PrintedBodies, FrameStream,
         ParseStatus, CheckLine, VerifyResponse;
    var t := s.(next := Resynced(s.next, line));
    var cmd := Command(t.next, text);
    ShortFrame(key, cmd);
    ReachesGate(key, s.img, cmd, script, CELL_SIZE, bulkCut);
  }

  /** A status line that says not paired, that is none, or that reports a reserved counter
      changes nothing. */
  lemma ResyncRefused(key: Key, s: State, line: bytes, t: State)
    requires Next(key, s, Resync(line), t)
    requires match ParseStatus(line)
             case None => true
             case Some(status) => !status.paired || status.counter >= 0xFFFF_FFFF_FFFE_FFFF
    ensures t == s
  {
    hide ParseStatus, Process, CheckLine, VerifyResponse;
  }

  /** The Nano after running `was`, and the host after taking its reply for its own. */
  ghost function Mistaken(s: State, was: Command): State
    requires s.host.Waiting?
  {
    s.(img := Saved(s.img, was.counter), ran := s.ran + [Ran(was, [Ascii("OK")])],
       host := Idle((was.counter + 1) % TWO_64),
       returned := s.returned + [Returned(s.host.cmd, [], Ascii("OK"))])
  }

  /** An old frame under a reused counter, delivered now, is dispatched, and its reply passes
      for the reply to the new command. */
  lemma ReusedCounterConfuses(key: Key, s: State, was: Command)
    requires Reachable(key, s, true, false)
    requires IsPaired(s.img) && KeyOf(s.img) == key && Load(s.img) < was.counter < COUNTER_CEILING
    requires was in s.sent && s.host.Waiting? && s.host.accepted == [] && s.host.cmd.counter == was.counter
    requires was.text == Ascii("count")
    ensures Reachable(key, Mistaken(s, was), true, false)
  {
    hide Reachable, EncodeCommand, EncodeResponse, IsPaired, KeyOf, Load, SavedPrefix, Next, Fair, SeqOf, Ascii;
    var t := s.(img := Saved(s.img, was.counter), ran := s.ran + [Ran(was, [Ascii("OK")])]);
    OldFrameRuns(key, s, was, t);
    ReachesNext(key, s, CountLine(key, was), t, true, false);
    var u := t.(host := Idle((was.counter + 1) % TWO_64), returned := t.returned + [Returned(t.host.cmd, [], Ascii("OK"))]);
    HearsLastRun(key, t, was, u);
    ReachesNext(key, t, OkHeard(key, was), u, true, false);
  }

  /** The Nano hearing the command's frame, its handler printing "OK". */
  function CountLine(key: Key, cmd: Command): Step {
    NanoLine(EncodeCommand(key, cmd), Ascii("OK") + CRLF, CELL_SIZE, PAIRING_LEN + END_ADDR)
  }

  /** The host hearing the first reply frame to the command. */
  function OkHeard(key: Key, cmd: Command): Step {
    Hear(EncodeResponse(key, Response(cmd.counter, SeqOf(0), Ascii("OK"))))
  }

  lemma OldFrameRuns(key: Key, s: State, was: Command, t: State)
    requires IsPaired(s.img) && KeyOf(s.img) == key && Load(s.img) < was.counter < COUNTER_CEILING
    requires was in s.sent && was.text == Ascii("count")
    requires t == s.(img := Saved(s.img, was.counter), ran := s.ran + [Ran(was, [Ascii("OK")])])
    ensures Next(key, s, CountLine(key, was), t) && Fair(key, s, CountLine(key, was), true, false)
  {
    hide EncodeCommand, IsPaired, KeyOf, Load, SavedPrefix, Process, Admit, VerifyFrame, Genuine, TearSafe, Ascii,
         CheckLine, VerifyResponse, ParseStatus;
    CountLength();
    ShortFrame(key, was);
    var step := CountLine(key, was);
    HearsSent(key, s, was, step.script, step.saveCut, step.bulkCut);
    CountRuns(s.img, was, step.script, step.bulkCut);
  }

  lemma CountLength()
    ensures |Ascii("count")| == 5
  {
  }

  lemma CountRuns(img: Image, cmd: Command, script: bytes, bulkCut: nat)
    requires Load(img) < cmd.counter < COUNTER_CEILING
    requires cmd.text == Ascii("count") && script == Ascii("OK") + CRLF
    ensures var out := Admit(img, cmd, script, CELL_SIZE, bulkCut);
            out.img == Saved(img, cmd.counter) && out.dispatched == Some(cmd) && out.bodies == [Ascii("OK")]
  {
    assert 0 !in Ascii("count");
    PrintlnIsOneBody(Ascii("OK"));
    hide SavedPrefix, Load, FrameStream, PrintedBodies, Ascii;
  }

  /** The reply to the last dispatch, heard by a host waiting under the same counter. */
  lemma HearsLastRun(key: Key, t: State, was: Command, u: State)
    requires t.host.Waiting? && t.host.accepted == [] && t.host.cmd.counter == was.counter
    requires t.ran != [] && t.ran[|t.ran| - 1] == Ran(was, [Ascii("OK")])
    requires u == t.(host := Idle((was.counter + 1) % TWO_64), returned := t.returned + [Returned(t.host.cmd, [], Ascii("OK"))])
    ensures Next(key, t, OkHeard(key, was), u) && Fair(key, t, OkHeard(key, was), true, false)
  {
    hide EncodeResponse, VerifyResponse, CheckLine, ResponseInput, CommandInput, Process, VerifyFrame, TearSafe, SeqOf;
    OkIsFinal();
    hide IsFinal, Ascii;
    var r := Response(was.counter, SeqOf(0), Ascii("OK"));
    ReplyPasses(key, r);
    ResponseRoundTrip(key, r);
    var i := |t.ran| - 1;
    assert ResponseInput(r) == ResponseInput(Response(t.ran[i].cmd.counter, SeqOf(0), t.ran[i].bodies[0]));
  }

  lemma OkIsFinal()
    ensures IsFinal(Ascii("OK"))
  {
  }

  /** So a resync can break response integrity, even one that reports the Nano's true
      counter: the daemon sends "count", which the network holds back, is resynced, and sends
      "info" under the same counter; the held frame is run instead, and its reply is
      returned as the reply to "info". */
  lemma ResyncBreaksIntegrity(key: Key, img: Image)
    ensures exists s: State ::
              Reachable(key, s, true, false) && s.returned != [] && !Answered(s.ran, s.returned[0])
  {
    hide IsPaired, KeyOf, PairedImage, SavedPrefix, Load, Reachable, Next, Fair, IsFinal, ProgressTexts;
    PairedRecord(img, key);
    FreshRing(img, key);
    var s0 := State(1, Down, PairedImage(img, key), [], [], [], []);
    ReachesStart(key, s0, true, false);
    var s1 := OpensAndSends(key, s0, Ascii("count"), true, false);
    var count := s1.host.cmd;
    GivesUp(key, s1, true, false);
    Resyncs(key, s1.(host := Down), 0, true, false);
    var s2 := s1.(host := Down, next := 1);
    var s3 := OpensAndSends(key, s2, Ascii("info"), true, false);
    ReusedCounterConfuses(key, s3, count);
    assert |Ascii("count")| != |Ascii("info")|;
    hide Ascii;
    var s4 := Mistaken(s3, count);
    assert s4.ran == [Ran(count, [Ascii("OK")])];
    assert !Answered(s4.ran, s4.returned[0]);
  }
}

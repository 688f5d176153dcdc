/** The unpair tool against an honest Nano, from the first status line to the last. */
module ChannelRuns {
  import opened Bytes
  import opened Outcomes
  import opened Decimal
  import opened Framing
  import opened FirmwareFraming
  import opened Eeprom
  import opened EepromRing
  import opened EepromTears
  import opened Nano
  import opened SensorLink
  import opened Pairing
  import opened Channel
  import opened ChannelAgreement
  import opened ChannelLimits
  import Onboarding

  /** A tool that reads what the Nano really says. */
  lemma ReadsPaired(s: State, line: bytes)
    requires line == StatusText(s.img)
    ensures s.host == Probing && IsPaired(s.img) ==> ProbeHeard(s, line) == s.(host := Probed)
    ensures s.host == Confirming && !IsPaired(s.img) ==>
              ConfirmHeard(s, line) == s.(host := Retired, removals := s.removals + [ByReply(line)])
  {
    hide ParseStatus, Ignored, IsPaired, Load, StatusText;
    StatusTextParses(s.img);
    StatusTextHeard(s.img);
  }

  lemma StatusTextHeard(img: Image)
    ensures !Ignored(StatusText(img))
  {
    hide IsPaired, Load, Dec;
    assert StatusText(img)[0] == 0x4F;
    assert Ascii("PROGRESS ")[0] == 0x50;
  }

  /** The tool's half before its command, and the send. */
  lemma AsksToUnpair(key: Key, s: State) returns (t: State)
    requires Reachable(key, s, true, true) && s.host == Down && s.next < COUNTER_CEILING && IsPaired(s.img)
    ensures Reachable(key, t, true, true)
    ensures var cmd := Command(s.next, Ascii("unpair"));
            t == s.(next := s.next + 1, host := UnpairWaiting(cmd), sent := s.sent + [cmd])
  {
    hide Next, Reachable, Fair, IsPaired, StatusText, Ascii;
    var line := StatusText(s.img);
    var cmd := Command(s.next, Ascii("unpair"));
    var a := s.(host := Probing);
    var b := s.(host := Probed);
    var c := s.(host := UnpairBegun(cmd), next := s.next + 1);
    t := c.(host := UnpairWaiting(cmd), sent := s.sent + [cmd]);
    ReadsPaired(a, line);
    UnpairSteps(key, s, a, line, b, c, t);
    FairFree(key, s, UnpairOpen, true, true);
    FairFree(key, a, UnpairProbe(line), true, true);
    FairFree(key, b, UnpairBegin, true, true);
    FairFree(key, c, UnpairSend, true, true);
    ReachesNext(key, s, UnpairOpen, a, true, true);
    ReachesNext(key, a, UnpairProbe(line), b, true, true);
    ReachesNext(key, b, UnpairBegin, c, true, true);
    ReachesNext(key, c, UnpairSend, t, true, true);
  }

  lemma UnpairSteps(key: Key, s: State, a: State, line: bytes, b: State, c: State, t: State)
    requires s.host == Down && s.next < COUNTER_CEILING && a == s.(host := Probing) && b == s.(host := Probed)
    requires ProbeHeard(a, line) == b
    requires var cmd := Command(s.next, Ascii("unpair"));
             && c == s.(host := UnpairBegun(cmd), next := s.next + 1)
             && t == c.(host := UnpairWaiting(cmd), sent := s.sent + [cmd])
    ensures Next(key, s, UnpairOpen, a) && Next(key, a, UnpairProbe(line), b)
    ensures Next(key, b, UnpairBegin, c) && Next(key, c, UnpairSend, t)
  {
    hide ProbeHeard, Ascii;
  }

  /** The Nano runs the command whole, and is wiped. */
  lemma NanoUnpairs(key: Key, s: State, cmd: Command) returns (step: Step, t: State)
    requires cmd in s.sent && cmd.text == Ascii("unpair") && IsPaired(s.img) && KeyOf(s.img) == key
    requires Load(s.img) < cmd.counter < COUNTER_CEILING
    ensures Next(key, s, step, t) && Fair(key, s, step, true, true)
    ensures !IsPaired(t.img) && t == s.(img := t.img, ran := s.ran + [Ran(cmd, [Ascii("OK unpaired")])])
  {
    hide EncodeCommand, EncodeResponse, IsPaired, KeyOf, Load, Process, Genuine, VerifyFrame, TearSafe, Ascii;
    Onboarding.UnpairText();
    ShortFrame(key, cmd);
    step := NanoLine(EncodeCommand(key, cmd), [], CELL_SIZE, END_ADDR);
    HearsSent(key, s, cmd, [], CELL_SIZE, END_ADDR);
    Onboarding.UnpairErases(s.img, key, cmd.counter, [], CELL_SIZE, END_ADDR);
    t := NanoHeard(s, step.line, [], CELL_SIZE, END_ADDR);
  }

  lemma HearsUnpaired(key: Key, s: State, cmd: Command, t: State) returns (step: Step)
    requires s.host == UnpairWaiting(cmd) && s.ran != [] && s.ran[|s.ran| - 1] == Ran(cmd, [Ascii("OK unpaired")])
    requires t == s.(host := Confirming)
    ensures Next(key, s, step, t) && Fair(key, s, step, true, true)
  {
    hide EncodeResponse, VerifyResponse, ResponseInput, CommandInput, Process, VerifyFrame, TearSafe, Ignored, Ascii,
         StartsWith, CheckLine, IsFinal;
    var r := Response(cmd.counter, SeqOf(0), Ascii("OK unpaired"));
    step := UnpairHear(EncodeResponse(key, r));
    ResponseRoundTrip(key, r);
    EncodedLeader(key, r);
    ReplyNotIgnored(key, r);
    var i := |s.ran| - 1;
    assert ResponseInput(r) == ResponseInput(Response(s.ran[i].cmd.counter, SeqOf(0), s.ran[i].bodies[0]));
  }

  lemma ReplyNotIgnored(key: Key, r: Response)
    ensures !Ignored(EncodeResponse(key, r))
  {
    EncodedLeader(key, r);
    hide EncodeResponse;
    assert Ascii("PROGRESS ")[0] == 0x50;
    assert R_LEADER[0] == 0x52;
    assert EncodeResponse(key, r)[0] == EncodeResponse(key, r)[..2][0];
  }

  /** From any pairing, a run in which the tool talks to an honest Nano, and power holds, ends
      with the Nano wiped, the host's key removed after the verified reply, and nothing but
      the one command sent. */
  lemma UnpairCompletes(key: Key, img: Image)
    ensures exists s: State ::
              && Reachable(key, s, true, true) && s.host == Retired && !IsPaired(s.img)
              && s.sent == [Command(1, Ascii("unpair"))] && |s.removals| == 1 && s.removals[0].ByReply?
  {
    hide Next, Reachable, Fair, IsPaired, PairedImage, StatusText, Load, KeyOf, Ascii;
    PairedRecord(img, key);
    FreshRing(img, key);
    var s0 := State(1, Down, PairedImage(img, key), [], [], [], []);
    ReachesStart(key, s0, true, true);
    var s1 := AsksToUnpair(key, s0);
    var cmd := Command(1, Ascii("unpair"));
    var nano, s2 := NanoUnpairs(key, s1, cmd);
    ReachesNext(key, s1, nano, s2, true, true);
    var s3 := s2.(host := Confirming);
    var reply := HearsUnpaired(key, s2, cmd, s3);
    ReachesNext(key, s2, reply, s3, true, true);
    var line := StatusText(s3.img);
    ReadsPaired(s3, line);
    var s4 := s3.(host := Retired, removals := s3.removals + [ByReply(line)]);
    ConfirmStep(key, s3, line, s4);
    FairFree(key, s3, UnpairConfirm(line), true, true);
    ReachesNext(key, s3, UnpairConfirm(line), s4, true, true);
  }

  lemma ConfirmStep(key: Key, s: State, line: bytes, t: State)
    requires s.host == Confirming && ConfirmHeard(s, line) == t
    ensures Next(key, s, UnpairConfirm(line), t)
  {
    hide ConfirmHeard;
  }

  // ----- the tool's three reads -----

  /** Blank and PROGRESS lines are passed over, at each of them. */
  lemma ToolPassesOver(key: Key, s: State, line: bytes)
    requires line == [] || StartsWith(line, Ascii("PROGRESS "))
    ensures ProbeHeard(s, line) == s && ConfirmHeard(s, line) == s
    ensures s.host.UnpairWaiting? ==> UnpairHeard(key, s, line) == s
  {
    hide ParseStatus, VerifyResponse, Ascii;
  }

  /** Any other line that is not what the tool waits for makes it give up, with the key where
      it was: no status line at the first and last read, a last one that still says paired,
      and anything but the verified reply "OK unpaired" to its own counter in between. */
  lemma ToolGivesUp(key: Key, s: State, line: bytes)
    requires line != [] && !StartsWith(line, Ascii("PROGRESS "))
    ensures ParseStatus(line) == None ==> ProbeHeard(s, line) == s.(host := Down) && ConfirmHeard(s, line) == s.(host := Down)
    ensures ParseStatus(line).Some? && ParseStatus(line).value.paired ==>
              ProbeHeard(s, line) == s.(host := Probed) && ConfirmHeard(s, line) == s.(host := Down)
    ensures s.host.UnpairWaiting?
            && (forall q: u32 :: Canonicalized(line) != EncodeResponse(key, Response(s.host.cmd.counter, q, Ascii("OK unpaired")))) ==>
              UnpairHeard(key, s, line) == s.(host := Down)
  {
    hide ParseStatus, VerifyResponse, Ascii, StartsWith, Canonicalized, EncodeResponse;
    if s.host.UnpairWaiting? && VerifyResponse(key, line).Ok? {
      VerifyResponseExact(key, line, VerifyResponse(key, line).value);
    }
  }
}

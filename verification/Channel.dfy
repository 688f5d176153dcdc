/** The authenticated channel as a whole: the daemon, the unpair and resync tools with their
    durable counter, the Nano with its EEPROM, and a network that delivers any lines it likes.

    A run starts right after pairing and ends for the Nano when it is no longer paired. */
module Channel {
  import opened Bytes
  import opened Outcomes
  import opened Framing
  import opened FirmwareFraming
  import opened Eeprom
  import opened EepromRing
  import opened EepromTears
  import opened Nano
  import opened SensorLink
  import opened Pairing
  import MacWire

  datatype Host =
    | Down                                             // no process holds the port
    | Idle(counter: u64)                               // daemon, with its in-memory counter
    | Begun(cmd: Command)                              // next counter on disk, nothing written
    | Waiting(cmd: Command, accepted: seq<bytes>)      // reading replies
    | Probing                                          // unpair tool, reading a first status reply
    | Probed                                           // the reply said paired
    | UnpairBegun(cmd: Command)
    | UnpairWaiting(cmd: Command)
    | Confirming                                       // framed reply accepted, reading a last status reply
    | Retired                                          // unpaired: all keys and the state file removed

  /** A framed command the Nano dispatched, and the bodies it printed. */
  datatype Ran = Ran(cmd: Command, bodies: seq<bytes>)

  /** A framed command that returned a body, and what its progress callback had been given. */
  datatype Returned = Returned(cmd: Command, progress: seq<bytes>, body: bytes)

  /** The unpair tool removing the host's key: because a status line said the Nano is not
      paired, or after a verified reply. */
  datatype Removal = ByStatus(line: bytes) | ByReply(line: bytes)

  datatype State = State(next: u64, host: Host, img: Image, sent: seq<Command>, ran: seq<Ran>,
                         returned: seq<Returned>, removals: seq<Removal>)

  datatype Step =
    | Open                        // the daemon opens the port and loads the counter
    | Begin(text: bytes)          // execute_framed up to the end of the save
    | BeginFails                  // counter exhausted or not saved
    | Send
    | SendFails
    | Hear(line: bytes)
    | TimeOut
    | Crash
    | UnpairOpen
    | UnpairProbe(line: bytes)
    | UnpairBegin
    | UnpairSend
    | UnpairHear(line: bytes)
    | UnpairConfirm(line: bytes)
    | Resync(line: bytes)         // the resync tool, from opening the port to the saved counter
    | NanoLine(line: bytes, script: bytes, saveCut: nat, bulkCut: nat)

  ghost predicate Init(key: Key, s: State) {
    && (exists img: Image :: s.img == PairedImage(img, key))
    && s.next == 1 && s.host == Down
    && s.sent == [] && s.ran == [] && s.returned == [] && s.removals == []
  }

  function ProgressTexts(bodies: seq<bytes>): (r: seq<bytes>)
    ensures |r| == |bodies|
    ensures forall i :: 0 <= i < |bodies| ==> r[i] == ProgressText(bodies[i])
  {
    if bodies == [] then [] else ProgressTexts(bodies[..|bodies| - 1]) + [ProgressText(bodies[|bodies| - 1])]
  }

  /** The daemon after one received line. */
  function Heard(key: Key, s: State, line: bytes): State
    requires s.host.Waiting?
  {
    var cmd, accepted := s.host.cmd, s.host.accepted;
    var after := Idle((cmd.counter + 1) % TWO_64);
    match CheckLine(key, cmd.counter, SeqOf(|accepted|), line)
    case Skip => s
    case Fail(_) => s.(host := after)
    case Accepted(body) =>
      if IsFinal(body) then s.(host := after, returned := s.returned + [Returned(cmd, ProgressTexts(accepted), body)])
      else s.(host := Waiting(cmd, accepted + [body]))
  }

  /** The unpair tool after a line where it expects its first status reply. */
  function ProbeHeard(s: State, line: bytes): State {
    if Ignored(line) then s
    else match ParseStatus(line)
      case None => s.(host := Down)
      case Some(status) =>
        if status.paired then s.(host := Probed)
        else s.(host := Down, removals := s.removals + [ByStatus(line)])
  }

  /** The unpair tool after the reply to its command; the sequence number is not looked at. */
  function UnpairHeard(key: Key, s: State, line: bytes): State
    requires s.host.UnpairWaiting?
  {
    if Ignored(line) then s
    else if !StartsWith(line, R_LEADER) then s.(host := Down)
    else match VerifyResponse(key, line)
      case Ok(r) =>
        if r.counter == s.host.cmd.counter && r.body == Ascii("OK unpaired") then s.(host := Confirming)
        else s.(host := Down)
      case Err(_) => s.(host := Down)
  }

  /** The unpair tool after its last status reply. */
  function ConfirmHeard(s: State, line: bytes): State {
    if Ignored(line) then s
    else match ParseStatus(line)
      case None => s.(host := Down)
      case Some(status) =>
        if status.paired then s.(host := Down)
        else s.(host := Retired, removals := s.removals + [ByReply(line)])
  }

  /** The counter the resync tool leaves on disk. */
  function Resynced(next: u64, line: bytes): u64 {
    match ParseStatus(line)
    case None => next
    case Some(status) =>
      if status.paired && ResyncTarget(status.counter).Some? then ResyncTarget(status.counter).value else next
  }

  function NanoHeard(s: State, line: bytes, script: bytes, saveCut: nat, bulkCut: nat): State {
    var out := Process(s.img, line, script, saveCut, bulkCut);
    s.(img := out.img,
       ran := if out.dispatched.Some? then s.ran + [Ran(out.dispatched.value, out.bodies)] else s.ran)
  }

  ghost predicate Next(key: Key, s: State, step: Step, t: State) {
    match step
    case Open => s.host == Down && t == s.(host := Idle(s.next))
    case Begin(text) =>
      && s.host.Idle? && AdvanceCounter(s.host.counter).Ok?
      && t == s.(next := AdvanceCounter(s.host.counter).value, host := Begun(Command(s.host.counter, text)))
    case BeginFails => s.host.Idle? && t == s
    case Send => s.host.Begun? && t == s.(host := Waiting(s.host.cmd, []), sent := s.sent + [s.host.cmd])
    case SendFails => s.host.Begun? && t == s.(host := Idle((s.host.cmd.counter + 1) % TWO_64))
    case Hear(line) => s.host.Waiting? && t == Heard(key, s, line)
    case TimeOut => s.host.Waiting? && t == s.(host := Idle((s.host.cmd.counter + 1) % TWO_64))
    case Crash => s.host != Retired && t == s.(host := Down)
    case UnpairOpen => s.host == Down && t == s.(host := Probing)
    case UnpairProbe(line) => s.host == Probing && t == ProbeHeard(s, line)
    case UnpairBegin =>
      && s.host == Probed && s.next < COUNTER_CEILING
      && t == s.(next := s.next + 1, host := UnpairBegun(Command(s.next, Ascii("unpair"))))
    case UnpairSend => s.host.UnpairBegun? && t == s.(host := UnpairWaiting(s.host.cmd), sent := s.sent + [s.host.cmd])
    case UnpairHear(line) => s.host.UnpairWaiting? && t == UnpairHeard(key, s, line)
    case UnpairConfirm(line) => s.host == Confirming && t == ConfirmHeard(s, line)
    case Resync(line) => s.host == Down && t == s.(next := Resynced(s.next, line))
    case NanoLine(line, script, saveCut, bulkCut) =>
      IsPaired(s.img) && t == NanoHeard(s, line, script, saveCut, bulkCut)
  }

  /** A run: states[i] --steps[i]--> states[i + 1]. */
  ghost predicate IsRun(key: Key, states: seq<State>, steps: seq<Step>) {
    && |states| == |steps| + 1
    && Init(key, states[0])
    && forall i :: 0 <= i < |steps| ==> Next(key, states[i], steps[i], states[i + 1])
  }

  // ----- assumptions about a run, used only where named -----

  /** Some key holder has computed a tag over this input. */
  ghost predicate Tagged(s: State, input: bytes) {
    || (exists i :: 0 <= i < |s.sent| && input == CommandInput(s.sent[i]))
    || (exists i, j :: 0 <= i < |s.ran| && 0 <= j < |s.ran[i].bodies|
                       && input == ResponseInput(Response(s.ran[i].cmd.counter, SeqOf(j), s.ran[i].bodies[j])))
  }

  /** The ideal tag: a delivered line verifies only if its input was tagged. */
  ghost predicate Genuine(key: Key, s: State, step: Step) {
    && (step.NanoLine? && VerifyFrame(key, step.line).Ok? ==>
          Tagged(s, CommandInput(VerifyFrame(key, step.line).value)))
    && ((step.Hear? || step.UnpairHear?) && VerifyResponse(key, step.line).Ok? ==>
          Tagged(s, ResponseInput(VerifyResponse(key, step.line).value)))
  }

  /** No command prints 2^32 lines. */
  ghost predicate FewLines(s: State, step: Step) {
    step.NanoLine? ==>
      |Process(s.img, step.line, step.script, step.saveCut, step.bulkCut).bodies| < TWO_32
  }

  /** A save that power cuts between its first and last byte goes over a cell it cannot tear
      into a third counter. */
  ghost predicate CleanSave(key: Key, s: State, step: Step) {
    step.NanoLine? && 0 < step.saveCut < CELL_SIZE && VerifyFrame(key, step.line).Ok? ==>
      TearSafe(Cell(s.img, NextCell(s.img)), VerifyFrame(key, step.line).value.counter, Load(s.img))
  }

  /** A resync never moves the host's counter backward. */
  ghost predicate Forward(s: State, step: Step) {
    step.Resync? ==> Resynced(s.next, step.line) >= s.next
  }

  ghost predicate AllGenuine(key: Key, states: seq<State>, steps: seq<Step>)
    requires |states| == |steps| + 1
  {
    forall i :: 0 <= i < |steps| ==> Genuine(key, states[i], steps[i])
  }

  ghost predicate AllFew(states: seq<State>, steps: seq<Step>)
    requires |states| == |steps| + 1
  {
    forall i :: 0 <= i < |steps| ==> FewLines(states[i], steps[i])
  }

  ghost predicate AllClean(key: Key, states: seq<State>, steps: seq<Step>)
    requires |states| == |steps| + 1
  {
    forall i :: 0 <= i < |steps| ==> CleanSave(key, states[i], steps[i])
  }

  ghost predicate AllForward(states: seq<State>, steps: seq<Step>)
    requires |states| == |steps| + 1
  {
    forall i :: 0 <= i < |steps| ==> Forward(states[i], steps[i])
  }

  /** The first `n` steps of a run, with whatever is assumed of them. */
  lemma RunTake(key: Key, states: seq<State>, steps: seq<Step>, n: nat)
    requires IsRun(key, states, steps) && n <= |steps|
    ensures IsRun(key, states[..n + 1], steps[..n])
    ensures AllGenuine(key, states, steps) ==> AllGenuine(key, states[..n + 1], steps[..n])
    ensures AllFew(states, steps) ==> AllFew(states[..n + 1], steps[..n])
    ensures AllClean(key, states, steps) ==> AllClean(key, states[..n + 1], steps[..n])
    ensures AllForward(states, steps) ==> AllForward(states[..n + 1], steps[..n])
  {
    hide Init, Next, Genuine, FewLines, CleanSave, Forward;
    var ss, ts := states[..n + 1], steps[..n];
    assert forall i {:trigger ts[i]} :: 0 <= i < n ==> ts[i] == steps[i] && ss[i] == states[i] && ss[i + 1] == states[i + 1];
  }

  lemma RunPrefix(key: Key, states: seq<State>, steps: seq<Step>)
    requires IsRun(key, states, steps) && |steps| > 0
    ensures IsRun(key, states[..|steps|], steps[..|steps| - 1])
    ensures Next(key, states[|steps| - 1], steps[|steps| - 1], states[|steps|])
    ensures AllGenuine(key, states, steps) ==> AllGenuine(key, states[..|steps|], steps[..|steps| - 1])
    ensures AllFew(states, steps) ==> AllFew(states[..|steps|], steps[..|steps| - 1])
    ensures AllClean(key, states, steps) ==> AllClean(key, states[..|steps|], steps[..|steps| - 1])
    ensures AllForward(states, steps) ==> AllForward(states[..|steps|], steps[..|steps| - 1])
  {
    hide Init, Next, Genuine, FewLines, CleanSave, Forward;
    RunTake(key, states, steps, |steps| - 1);
  }

  /** Some run under the ideal tag ends here; `clean` and `forward` say whether it has only
      clean saves and no backward resync. */
  ghost predicate Reachable(key: Key, s: State, clean: bool, forward: bool) {
    exists states: seq<State>, steps: seq<Step> :: Leads(key, states, steps, s, clean, forward)
  }

  ghost predicate Leads(key: Key, states: seq<State>, steps: seq<Step>, s: State, clean: bool, forward: bool) {
    && IsRun(key, states, steps) && states[|steps|] == s
    && AllGenuine(key, states, steps) && AllFew(states, steps)
    && (clean ==> AllClean(key, states, steps)) && (forward ==> AllForward(states, steps))
  }

  /** What is assumed of one step of such a run. */
  ghost predicate Fair(key: Key, s: State, step: Step, clean: bool, forward: bool) {
    Genuine(key, s, step) && FewLines(s, step) && (clean ==> CleanSave(key, s, step)) && (forward ==> Forward(s, step))
  }

  lemma ReachesStart(key: Key, s: State, clean: bool, forward: bool)
    requires Init(key, s)
    ensures Reachable(key, s, clean, forward)
  {
    hide Init, Next, Genuine, FewLines, CleanSave, Forward;
    assert Leads(key, [s], [], s, clean, forward);
  }

  lemma ReachesNext(key: Key, s: State, step: Step, t: State, clean: bool, forward: bool)
    requires Reachable(key, s, clean, forward) && Next(key, s, step, t) && Fair(key, s, step, clean, forward)
    ensures Reachable(key, t, clean, forward)
  {
    hide Init, Next, Genuine, FewLines, CleanSave, Forward;
    var states, steps :| Leads(key, states, steps, s, clean, forward);
    var ss, ts := states + [t], steps + [step];
    var n := |steps|;
    forall i | 0 <= i <= n
      ensures Next(key, ss[i], ts[i], ss[i + 1]) && Fair(key, ss[i], ts[i], clean, forward)
    {
      if i < n {
        assert ss[i] == states[i] && ts[i] == steps[i] && ss[i + 1] == states[i + 1];
      } else {
        assert ss[n] == s && ts[n] == step && ss[n + 1] == t;
      }
    }
    assert Leads(key, ss, ts, t, clean, forward);
  }

  // ----- what one line can do to a paired Nano -----

  lemma WipedIsUnpaired(img: Image, k: nat)
    requires 0 < k <= END_ADDR
    ensures !IsPaired(WipedPrefix(img, k))
  {
    assert WipedPrefix(img, k)[..MAGIC_LEN][0] == 0xFF;
  }

  lemma WipedNothing(img: Image)
    ensures WipedPrefix(img, 0) == img
  {
    assert Filled(0) == [];
    OverwriteNothing(img, 0);
  }

  lemma UnpairVerb()
    ensures !IsSensorVerb(Ascii("unpair")) && !StartsWith(Ascii("unpair"), Ascii("pair "))
    ensures Ascii("unpair") != Ascii("status")
  {
    var t := Ascii("unpair");
    assert t[0] == 0x75;
  }

  lemma UnpairEffect(img: Image, bulkCut: nat)
    requires IsPaired(img)
    ensures var d := Nano.Unpair(img, bulkCut);
            && (d.img == img || !IsPaired(d.img))
            && (d.printed != [] ==> !IsPaired(d.img))
  {
    WipedNothing(img);
    if bulkCut > 0 {
      WipedIsUnpaired(img, if bulkCut < END_ADDR then bulkCut else END_ADDR);
    }
    hide IsPaired, WipedPrefix, Ascii;
  }

  /** A dispatch on a paired Nano leaves its EEPROM alone, or unpairs it. */
  lemma DispatchEffect(img: Image, t: bytes, script: bytes, bulkCut: nat)
    requires IsPaired(img)
    ensures var d := Nano.Dispatch(img, t, script, bulkCut);
            && (d.img == img || !IsPaired(d.img))
            && (t == Ascii("unpair") && d.printed != [] ==> !IsPaired(d.img))
  {
    UnpairEffect(img, bulkCut);
    UnpairVerb();
    PairRefused(img, t);
    hide IsPaired, StatusText, UnknownText, StartsWith, IsSensorVerb, Nano.Pair, Nano.Unpair, Ascii;
  }

  lemma PairRefused(img: Image, t: bytes)
    requires IsPaired(img)
    ensures StartsWith(t, Ascii("pair ")) ==> |t| >= 5 && forall bulkCut: nat :: Nano.Pair(img, t[5..], bulkCut).img == img
  {
    hide IsPaired, MacWire.UnHex;
  }

  /** How many bytes of the new cell a save puts down. */
  function BytesDown(saveCut: nat): (k: nat)
    ensures k <= CELL_SIZE
  {
    if saveCut < CELL_SIZE then saveCut else CELL_SIZE
  }

  /** A line that verifies as `c` passes the counter gate of `img`. */
  ghost predicate Admitted(key: Key, img: Image, line: bytes, c: Command) {
    VerifyFrame(key, line) == Ok(c) && Load(img) < c.counter < COUNTER_CEILING
  }

  lemma ExecuteEffect(saved: Image, c: Command, script: bytes, bulkCut: nat)
    requires IsPaired(saved)
    ensures var out := Nano.Execute(saved, c, script, bulkCut);
            && (out.img == saved || !IsPaired(out.img))
            && (out.dispatched.None? ==> out.img == saved)
            && (out.dispatched.Some? ==> out.dispatched.value == c)
            && (out.dispatched.Some? && c.text == Ascii("unpair") && out.bodies != [] ==> !IsPaired(out.img))
  {
    DispatchEffect(saved, CString(c.text), script, bulkCut);
    assert 0 !in Ascii("unpair");
    assert PrintedBodies([]) == [];
    hide IsPaired, Nano.Dispatch, PrintedBodies, FrameStream, Ascii;
  }

  lemma AdmitEffect(img: Image, c: Command, script: bytes, saveCut: nat, bulkCut: nat)
    requires IsPaired(img)
    ensures var out := Admit(img, c, script, saveCut, bulkCut);
            match out.dispatched
            case Some(d) =>
              && d == c && Load(img) < c.counter < COUNTER_CEILING
              && (out.img == Saved(img, c.counter) || !IsPaired(out.img))
              && (c.text == Ascii("unpair") && out.bodies != [] ==> !IsPaired(out.img))
            case None =>
              || out.img == img
              || (Load(img) < c.counter < COUNTER_CEILING
                  && out.img == SavedPrefix(img, c.counter, BytesDown(saveCut)))
  {
    hide IsPaired, KeyOf, Nano.Execute, SavedPrefix, Load, Ascii;
    PairingSurvivesPrefix(img, c.counter, CELL_SIZE);
    ExecuteEffect(Saved(img, c.counter), c, script, bulkCut);
  }

  /** What a line does to a paired Nano: nothing, or a save of an admitted counter cut
      somewhere, or a full save followed by a dispatch. */
  lemma ProcessEffect(key: Key, img: Image, line: bytes, script: bytes, saveCut: nat, bulkCut: nat)
    requires IsPaired(img) && KeyOf(img) == key
    ensures var out := Process(img, line, script, saveCut, bulkCut);
            match out.dispatched
            case Some(c) =>
              && Admitted(key, img, line, c)
              && (out.img == Saved(img, c.counter) || !IsPaired(out.img))
              && (c.text == Ascii("unpair") && out.bodies != [] ==> !IsPaired(out.img))
            case None =>
              || out.img == img
              || (VerifyFrame(key, line).Ok? && Admitted(key, img, line, VerifyFrame(key, line).value)
                  && out.img == SavedPrefix(img, VerifyFrame(key, line).value.counter, BytesDown(saveCut)))
  {
    hide IsPaired, KeyOf, Nano.Dispatch, VerifyFrame, Admit, SavedPrefix, Load, Ascii, StatusName;
    StatusEffect(img, script, bulkCut);
    if VerifyFrame(key, line).Ok? {
      AdmitEffect(img, VerifyFrame(key, line).value, script, saveCut, bulkCut);
    }
  }

  lemma StatusEffect(img: Image, script: bytes, bulkCut: nat)
    ensures Nano.Dispatch(img, Ascii("status"), script, bulkCut).img == img
  {
    hide StatusText;
    assert !StartsWith(Ascii("status"), Ascii("pair ")) by {
      assert Ascii("status")[0] == 0x73;
    }
  }

  /** Across any one line the stored counter never falls, and it is the command's counter
      after a dispatch. */
  lemma NanoCounter(key: Key, img: Image, line: bytes, script: bytes, saveCut: nat, bulkCut: nat)
    requires IsPaired(img) && KeyOf(img) == key
    ensures var out := Process(img, line, script, saveCut, bulkCut);
            && (IsPaired(out.img) ==> KeyOf(out.img) == key && Load(img) <= Load(out.img))
            && match out.dispatched
               case Some(c) => Load(img) < c.counter && (IsPaired(out.img) ==> Load(out.img) == c.counter)
               case None => true
  {
    ProcessEffect(key, img, line, script, saveCut, bulkCut);
    var out := Process(img, line, script, saveCut, bulkCut);
    if VerifyFrame(key, line).Ok? {
      var n := VerifyFrame(key, line).value.counter;
      PairingSurvivesPrefix(img, n, CELL_SIZE);
      PairingSurvivesPrefix(img, n, BytesDown(saveCut));
      PowerLossNeverRewinds(img, n, BytesDown(saveCut));
      CompletedSaveLoads(img, n);
    }
    hide Process, IsPaired, KeyOf, VerifyFrame, SavedPrefix, Load;
  }

  // ----- at most once -----

  /** Dispatched counters strictly increase, and the stored counter bounds them. */
  ghost predicate NanoInv(key: Key, s: State) {
    && (forall i, j :: 0 <= i < j < |s.ran| ==> s.ran[i].cmd.counter < s.ran[j].cmd.counter)
    && (IsPaired(s.img) ==>
          KeyOf(s.img) == key && forall i :: 0 <= i < |s.ran| ==> s.ran[i].cmd.counter <= Load(s.img))
  }

  lemma NanoKeepsNanoInv(key: Key, s: State, line: bytes, script: bytes, saveCut: nat, bulkCut: nat)
    requires NanoInv(key, s) && IsPaired(s.img)
    ensures NanoInv(key, NanoHeard(s, line, script, saveCut, bulkCut))
  {
    hide Process, IsPaired, KeyOf, Load;
    NanoCounter(key, s.img, line, script, saveCut, bulkCut);
  }

  lemma NanoInvStep(key: Key, s: State, step: Step, t: State)
    requires NanoInv(key, s) && Next(key, s, step, t)
    ensures NanoInv(key, t)
  {
    hide Process, IsPaired, KeyOf, Load, NanoHeard;
    if step.NanoLine? {
      NanoKeepsNanoInv(key, s, step.line, step.script, step.saveCut, step.bulkCut);
    } else {
      HostKeepsNano(key, s, step, t);
      hide Next;
    }
  }

  lemma HostKeepsNano(key: Key, s: State, step: Step, t: State)
    requires Next(key, s, step, t) && !step.NanoLine?
    ensures t.img == s.img && t.ran == s.ran
  {
    hide CheckLine, VerifyResponse, IsFinal, Ascii, ParseStatus, Ignored, Resynced;
  }

  lemma {:induction false} NanoInvAlways(key: Key, states: seq<State>, steps: seq<Step>)
    requires IsRun(key, states, steps)
    ensures NanoInv(key, states[|steps|])
  {
    hide Next;
    if |steps| == 0 {
      StartsPaired(key, states[0]);
      hide IsPaired, KeyOf, Load;
    } else {
      hide Init, NanoInv;
      RunPrefix(key, states, steps);
      NanoInvAlways(key, states[..|steps|], steps[..|steps| - 1]);
      NanoInvStep(key, states[|steps| - 1], steps[|steps| - 1], states[|steps|]);
    }
  }

  lemma StartsPaired(key: Key, s: State)
    requires Init(key, s)
    ensures IsPaired(s.img) && KeyOf(s.img) == key && Load(s.img) == 0
  {
    var img: Image :| s.img == PairedImage(img, key);
    PairedRecord(img, key);
    FreshRing(img, key);
  }

  /** At most once: in every run, whatever lines are delivered, replayed or reordered and
      wherever power fails, the counters of dispatched commands strictly increase. */
  lemma AtMostOnce(key: Key, states: seq<State>, steps: seq<Step>)
    requires IsRun(key, states, steps)
    ensures var ran := states[|steps|].ran;
            forall i, j :: 0 <= i < j < |ran| ==> ran[i].cmd.counter < ran[j].cmd.counter
  {
    NanoInvAlways(key, states, steps);
    hide IsRun;
  }
}

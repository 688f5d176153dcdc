/** What every run of the channel guarantees under the ideal tag: authentic commands,
    authentic replies, agreeing counters, and an unpair that really happened. */
module ChannelSafety {
  import opened Bytes
  import opened Outcomes
  import opened Framing
  import opened FirmwareFraming
  import opened Eeprom
  import opened EepromRing
  import opened Nano
  import opened SensorLink
  import opened Pairing
  import opened Channel

  // ----- the host's counters -----

  ghost predicate SentBelow(s: State, c: nat) {
    forall i :: 0 <= i < |s.sent| ==> s.sent[i].counter < c
  }

  ghost predicate LastSent(s: State, cmd: Command) {
    s.sent != [] && s.sent[|s.sent| - 1] == cmd
  }

  ghost predicate HostInv(s: State) {
    && 1 <= s.next <= COUNTER_CEILING
    && (forall i, j :: 0 <= i < j < |s.sent| ==> s.sent[i].counter < s.sent[j].counter)
    && SentBelow(s, s.next)
    && match s.host
       case Idle(c) => c == s.next
       case Begun(cmd) => cmd.counter + 1 == s.next && cmd.counter >= 1 && SentBelow(s, cmd.counter)
       case UnpairBegun(cmd) =>
         cmd.counter + 1 == s.next && cmd.counter >= 1 && SentBelow(s, cmd.counter) && cmd.text == Ascii("unpair")
       case Waiting(cmd, _) => cmd.counter + 1 == s.next && LastSent(s, cmd)
       case UnpairWaiting(cmd) => cmd.counter + 1 == s.next && LastSent(s, cmd) && cmd.text == Ascii("unpair")
       case _ => true
  }

  predicate Hears(step: Step) {
    step.Hear? || step.UnpairProbe? || step.UnpairHear? || step.UnpairConfirm?
  }

  /** The steps that hear a reply change only the host's mode and its logs. */
  lemma HearingKeepsHost(key: Key, s: State, step: Step, t: State)
    requires HostInv(s) && Next(key, s, step, t) && Hears(step)
    ensures HostInv(t)
  {
    hide CheckLine, VerifyResponse, IsFinal, Ascii, ParseStatus, Ignored, StartsWith, ProgressTexts, SentBelow, LastSent;
    assert t.sent == s.sent && t.next == s.next;
    assert forall c :: SentBelow(s, c) ==> SentBelow(t, c) by {
      forall c | SentBelow(s, c) ensures SentBelow(t, c) {
        SameSentBelow(s, t, c);
      }
    }
    assert forall cmd :: LastSent(s, cmd) ==> LastSent(t, cmd) by {
      forall cmd | LastSent(s, cmd) ensures LastSent(t, cmd) {
        SameLastSent(s, t, cmd);
      }
    }
  }

  lemma SameSentBelow(s: State, t: State, c: nat)
    requires t.sent == s.sent && SentBelow(s, c)
    ensures SentBelow(t, c)
  {
  }

  lemma SameLastSent(s: State, t: State, cmd: Command)
    requires t.sent == s.sent && LastSent(s, cmd)
    ensures LastSent(t, cmd)
  {
  }

  lemma ResyncKeepsHost(s: State, line: bytes)
    requires HostInv(s) && s.host == Down && Forward(s, Resync(line))
    ensures HostInv(s.(next := Resynced(s.next, line)))
  {
    hide ParseStatus;
  }

  lemma HostInvStep(key: Key, s: State, step: Step, t: State)
    requires HostInv(s) && Next(key, s, step, t) && Forward(s, step)
    ensures HostInv(t)
  {
    hide Heard, ProbeHeard, UnpairHeard, ConfirmHeard, Resynced, Process, IsPaired, Ascii;
    if Hears(step) {
      HearingKeepsHost(key, s, step, t);
    } else if step.Resync? {
      ResyncKeepsHost(s, step.line);
    }
  }

  lemma {:induction false} HostInvAlways(key: Key, states: seq<State>, steps: seq<Step>)
    requires IsRun(key, states, steps) && AllForward(states, steps)
    ensures HostInv(states[|steps|])
  {
    hide Next, Forward;
    if |steps| > 0 {
      hide Init, HostInv;
      RunPrefix(key, states, steps);
      HostInvAlways(key, states[..|steps|], steps[..|steps| - 1]);
      HostInvStep(key, states[|steps| - 1], steps[|steps| - 1], states[|steps|]);
    }
  }

  // ----- commands are authentic -----

  ghost predicate AuthInv(s: State) {
    forall i :: 0 <= i < |s.ran| ==> s.ran[i].cmd in s.sent && |s.ran[i].bodies| < TWO_32
  }

  lemma TaggedCommandWasSent(s: State, c: Command)
    requires Tagged(s, CommandInput(c))
    ensures c in s.sent
  {
    hide CommandInput, ResponseInput;
    if i :| 0 <= i < |s.sent| && CommandInput(c) == CommandInput(s.sent[i]) {
      CommandInputInjective(c, s.sent[i]);
    } else {
      var i, j :| 0 <= i < |s.ran| && 0 <= j < |s.ran[i].bodies|
                  && CommandInput(c) == ResponseInput(Response(s.ran[i].cmd.counter, SeqOf(j), s.ran[i].bodies[j]));
      DomainsApart(c, Response(s.ran[i].cmd.counter, SeqOf(j), s.ran[i].bodies[j]));
    }
  }

  lemma HostKeepsAuth(key: Key, s: State, step: Step, t: State)
    requires Next(key, s, step, t) && !step.NanoLine?
    ensures t.img == s.img && t.ran == s.ran
    ensures t.sent == s.sent || exists c :: t.sent == s.sent + [c]
  {
    HostKeepsNano(key, s, step, t);
    hide CheckLine, VerifyResponse, IsFinal, Ascii, Process, ParseStatus, Ignored, Resynced;
  }

  lemma NanoKeepsAuth(key: Key, s: State, line: bytes, script: bytes, saveCut: nat, bulkCut: nat)
    requires NanoInv(key, s) && AuthInv(s) && IsPaired(s.img)
    requires Genuine(key, s, NanoLine(line, script, saveCut, bulkCut))
    requires FewLines(s, NanoLine(line, script, saveCut, bulkCut))
    ensures AuthInv(NanoHeard(s, line, script, saveCut, bulkCut))
  {
    hide Process, IsPaired, KeyOf, VerifyFrame, Tagged, Load;
    ProcessEffect(key, s.img, line, script, saveCut, bulkCut);
    if VerifyFrame(key, line).Ok? {
      TaggedCommandWasSent(s, VerifyFrame(key, line).value);
    }
  }

  lemma AuthInvStep(key: Key, s: State, step: Step, t: State)
    requires NanoInv(key, s) && AuthInv(s) && Next(key, s, step, t)
    requires Genuine(key, s, step) && FewLines(s, step)
    ensures AuthInv(t)
  {
    hide Process, IsPaired, VerifyFrame, Tagged, NanoInv, Genuine, FewLines, NanoHeard;
    if step.NanoLine? {
      NanoKeepsAuth(key, s, step.line, step.script, step.saveCut, step.bulkCut);
    } else {
      HostKeepsAuth(key, s, step, t);
      hide Next;
    }
  }

  lemma {:induction false} AuthInvAlways(key: Key, states: seq<State>, steps: seq<Step>)
    requires IsRun(key, states, steps) && AllGenuine(key, states, steps) && AllFew(states, steps)
    ensures AuthInv(states[|steps|])
  {
    hide Next, Genuine, FewLines;
    if |steps| > 0 {
      hide Init, AuthInv, NanoInv;
      RunPrefix(key, states, steps);
      NanoInvAlways(key, states[..|steps|], steps[..|steps| - 1]);
      AuthInvAlways(key, states[..|steps|], steps[..|steps| - 1]);
      AuthInvStep(key, states[|steps| - 1], steps[|steps| - 1], states[|steps|]);
    }
  }

  /** Every dispatched command is one the host put on the wire, and no two dispatches are
      of the same one. */
  lemma CommandsAreAuthentic(key: Key, states: seq<State>, steps: seq<Step>)
    requires IsRun(key, states, steps) && AllGenuine(key, states, steps) && AllFew(states, steps)
    ensures var s := states[|steps|];
            && (forall i :: 0 <= i < |s.ran| ==> s.ran[i].cmd in s.sent)
            && (forall i, j :: 0 <= i < j < |s.ran| ==> s.ran[i].cmd != s.ran[j].cmd)
  {
    AuthInvAlways(key, states, steps);
    AtMostOnce(key, states, steps);
    hide IsRun, AllGenuine, AllFew;
  }

  // ----- replies are authentic -----

  /** The host's returned body is the first OK or ERR line this dispatch printed, and its
      progress texts are the lines before that one, in order. */
  ghost predicate Answers(r: Ran, x: Returned) {
    var n := |x.progress|;
    && r.cmd == x.cmd && n < |r.bodies| && x.body == r.bodies[n]
    && (StartsWith(x.body, Ascii("OK")) || StartsWith(x.body, Ascii("ERR")))
    && forall k :: 0 <= k < n ==>
         var b := r.bodies[k];
         && !StartsWith(b, Ascii("OK")) && !StartsWith(b, Ascii("ERR"))
         && x.progress[k] == if StartsWith(b, Ascii("PROGRESS ")) then b[9..] else Ascii("[unhandled] ") + b
  }

  ghost predicate Answered(ran: seq<Ran>, x: Returned) {
    exists i :: 0 <= i < |ran| && Answers(ran[i], x)
  }

  lemma AnsweredLater(ran: seq<Ran>, more: seq<Ran>, x: Returned)
    requires Answered(ran, x) && ran <= more
    ensures Answered(more, x)
  {
    hide Answers;
    var i :| 0 <= i < |ran| && Answers(ran[i], x);
    assert more[i] == ran[i];
  }

  /** The bodies accepted so far are the first ones the command's dispatch printed. */
  ghost predicate Follows(s: State, cmd: Command, accepted: seq<bytes>) {
    && (forall k :: 0 <= k < |accepted| ==> !IsFinal(accepted[k]))
    && (accepted == [] || exists i :: 0 <= i < |s.ran| && s.ran[i].cmd == cmd && accepted <= s.ran[i].bodies)
  }

  ghost predicate ReplyInv(s: State) {
    && (s.host.Waiting? ==> Follows(s, s.host.cmd, s.host.accepted))
    && forall k :: 0 <= k < |s.returned| ==> Answered(s.ran, s.returned[k])
  }

  lemma SentOnce(s: State, c: Command, d: Command)
    requires HostInv(s) && c in s.sent && d in s.sent && c.counter == d.counter
    ensures c == d
  {
    var i :| 0 <= i < |s.sent| && s.sent[i] == c;
    var j :| 0 <= j < |s.sent| && s.sent[j] == d;
    assert i == j;
  }

  /** A tagged reply to a sent command is one of the bodies that command's dispatch printed. */
  lemma TaggedReply(s: State, cmd: Command, r: Response) returns (i: nat, j: nat)
    requires HostInv(s) && AuthInv(s) && cmd in s.sent
    requires Tagged(s, ResponseInput(r)) && r.counter == cmd.counter
    ensures i < |s.ran| && s.ran[i].cmd == cmd
    ensures j < |s.ran[i].bodies| && r.seq_no == SeqOf(j) && r.body == s.ran[i].bodies[j]
  {
    hide CommandInput, ResponseInput, HostInv, SeqOf;
    forall k | 0 <= k < |s.sent| ensures ResponseInput(r) != CommandInput(s.sent[k]) {
      DomainsApart(s.sent[k], r);
    }
    i, j :| 0 <= i < |s.ran| && 0 <= j < |s.ran[i].bodies|
            && ResponseInput(r) == ResponseInput(Response(s.ran[i].cmd.counter, SeqOf(j), s.ran[i].bodies[j]));
    ResponseInputInjective(r, Response(s.ran[i].cmd.counter, SeqOf(j), s.ran[i].bodies[j]));
    SentOnce(s, s.ran[i].cmd, cmd);
  }

  lemma CheckedResponse(key: Key, counter: u64, seq_no: u32, line: bytes, body: bytes)
    requires CheckLine(key, counter, seq_no, line) == SensorLink.Accepted(body)
    ensures VerifyResponse(key, line) == Ok(Response(counter, seq_no, body))
  {
    hide VerifyResponse, StartsWith;
  }

  lemma WaitingWasSent(s: State)
    requires HostInv(s) && s.host.Waiting?
    ensures s.host.cmd in s.sent
  {
  }

  /** An accepted body is the next one the dispatch printed. */
  lemma AcceptedIsNext(key: Key, s: State, line: bytes, body: bytes) returns (i: nat)
    requires NanoInv(key, s) && HostInv(s) && AuthInv(s) && ReplyInv(s)
    requires s.host.Waiting? && Genuine(key, s, Hear(line))
    requires CheckLine(key, s.host.cmd.counter, SeqOf(|s.host.accepted|), line) == SensorLink.Accepted(body)
    ensures i < |s.ran| && s.ran[i].cmd == s.host.cmd
    ensures |s.host.accepted| < |s.ran[i].bodies| && s.ran[i].bodies[|s.host.accepted|] == body
    ensures s.host.accepted <= s.ran[i].bodies
  {
    hide Tagged, ResponseInput, VerifyResponse, IsFinal, CheckLine, SeqOf, HostInv;
    var cmd, accepted := s.host.cmd, s.host.accepted;
    var j: nat;
    CheckedResponse(key, cmd.counter, SeqOf(|accepted|), line, body);
    assert cmd in s.sent by {
      WaitingWasSent(s);
    }
    i, j := TaggedReply(s, cmd, Response(cmd.counter, SeqOf(|accepted|), body));
    if accepted != [] {
      var k :| 0 <= k < |s.ran| && s.ran[k].cmd == cmd && accepted <= s.ran[k].bodies;
      assert k == i;
    }
    SeqsDiffer(j, |accepted|);
  }

  lemma SeqsDiffer(i: nat, j: nat)
    requires i < TWO_32 && j < TWO_32 && SeqOf(i) == SeqOf(j)
    ensures i == j
  {
  }

  lemma FinalAnswers(s: State, i: nat, body: bytes)
    requires s.host.Waiting? && ReplyInv(s) && i < |s.ran| && s.ran[i].cmd == s.host.cmd
    requires s.host.accepted <= s.ran[i].bodies && |s.host.accepted| < |s.ran[i].bodies|
    requires s.ran[i].bodies[|s.host.accepted|] == body && IsFinal(body)
    ensures Answered(s.ran, Returned(s.host.cmd, ProgressTexts(s.host.accepted), body))
  {
    hide IsFinal, ProgressTexts, Answered;
    var bodies, n := s.ran[i].bodies, |s.host.accepted|;
    assert s.host.accepted == bodies[..n];
    var x := Returned(s.host.cmd, ProgressTexts(s.host.accepted), body);
    FirstFinalAnswers(s.ran[i], n, x);
    AnsweredBy(s.ran, i, x);
  }

  lemma FirstFinalAnswers(r: Ran, n: nat, x: Returned)
    requires n < |r.bodies| && IsFinal(r.bodies[n]) && forall k :: 0 <= k < n ==> !IsFinal(r.bodies[k])
    requires x == Returned(r.cmd, ProgressTexts(r.bodies[..n]), r.bodies[n])
    ensures Answers(r, x)
  {
    hide IsFinal, ProgressText, Ascii, StartsWith;
    FinalExactly(x.body);
    forall k | 0 <= k < n
      ensures !StartsWith(r.bodies[k], Ascii("OK")) && !StartsWith(r.bodies[k], Ascii("ERR"))
      ensures x.progress[k] == ProgressText(r.bodies[k])
    {
      FinalExactly(r.bodies[k]);
      assert r.bodies[..n][k] == r.bodies[k];
    }
    forall k | 0 <= k < n
      ensures StartsWith(r.bodies[k], Ascii("PROGRESS ")) ==> |r.bodies[k]| >= 9 && ProgressText(r.bodies[k]) == r.bodies[k][9..]
      ensures !StartsWith(r.bodies[k], Ascii("PROGRESS ")) ==>
                ProgressText(r.bodies[k]) == Ascii("[unhandled] ") + r.bodies[k]
    {
      ProgressTextIs(r.bodies[k]);
    }
  }

  lemma AnsweredBy(ran: seq<Ran>, i: nat, x: Returned)
    requires i < |ran| && Answers(ran[i], x)
    ensures Answered(ran, x)
  {
  }

  lemma MoreFollows(s: State, i: nat, body: bytes)
    requires s.host.Waiting? && ReplyInv(s) && i < |s.ran| && s.ran[i].cmd == s.host.cmd
    requires s.host.accepted <= s.ran[i].bodies && |s.host.accepted| < |s.ran[i].bodies|
    requires s.ran[i].bodies[|s.host.accepted|] == body && !IsFinal(body)
    ensures Follows(s, s.host.cmd, s.host.accepted + [body])
  {
    hide IsFinal, Answered;
    assert s.host.accepted + [body] <= s.ran[i].bodies;
  }

  lemma HearKeepsReplies(key: Key, s: State, line: bytes)
    requires NanoInv(key, s) && HostInv(s) && AuthInv(s) && ReplyInv(s)
    requires s.host.Waiting? && Genuine(key, s, Hear(line))
    ensures ReplyInv(Heard(key, s, line))
  {
    hide CheckLine, IsFinal, NanoInv, AuthInv, HostInv, Genuine, Answered, Follows, ProgressTexts;
    var accepted := s.host.accepted;
    var verdict := CheckLine(key, s.host.cmd.counter, SeqOf(|accepted|), line);
    if verdict.Accepted? {
      var i := AcceptedIsNext(key, s, line, verdict.body);
      if IsFinal(verdict.body) {
        FinalAnswers(s, i, verdict.body);
      } else {
        MoreFollows(s, i, verdict.body);
        SameFollows(s, Heard(key, s, line), s.host.cmd, accepted + [verdict.body]);
      }
    }
  }

  lemma SameFollows(s: State, t: State, cmd: Command, accepted: seq<bytes>)
    requires Follows(s, cmd, accepted) && t.ran == s.ran
    ensures Follows(t, cmd, accepted)
  {
  }

  lemma OthersKeepReplies(key: Key, s: State, step: Step, t: State)
    requires ReplyInv(s) && Next(key, s, step, t) && !step.Hear?
    ensures ReplyInv(t)
  {
    hide Process, IsPaired, Ascii, VerifyResponse, Answered, IsFinal, ParseStatus, Ignored, Resynced;
    assert s.ran <= t.ran && t.returned == s.returned;
    assert t.host.Waiting? ==> (s.host == t.host || t.host.accepted == []);
    hide Next;
    forall k | 0 <= k < |t.returned| ensures Answered(t.ran, t.returned[k]) {
      AnsweredLater(s.ran, t.ran, s.returned[k]);
    }
    if t.host.Waiting? && t.host.accepted != [] {
      var i :| 0 <= i < |s.ran| && s.ran[i].cmd == s.host.cmd && s.host.accepted <= s.ran[i].bodies;
      assert t.ran[i] == s.ran[i];
    }
  }

  lemma ReplyInvStep(key: Key, s: State, step: Step, t: State)
    requires NanoInv(key, s) && HostInv(s) && AuthInv(s) && ReplyInv(s)
    requires Next(key, s, step, t) && Genuine(key, s, step)
    ensures ReplyInv(t)
  {
    hide NanoInv, HostInv, AuthInv, ReplyInv, Genuine;
    if step.Hear? {
      HearKeepsReplies(key, s, step.line);
    } else {
      OthersKeepReplies(key, s, step, t);
    }
  }

  lemma {:induction false} ReplyInvAlways(key: Key, states: seq<State>, steps: seq<Step>)
    requires IsRun(key, states, steps) && AllGenuine(key, states, steps) && AllFew(states, steps)
    requires AllForward(states, steps)
    ensures ReplyInv(states[|steps|])
  {
    hide Next, Genuine, FewLines, Forward;
    if |steps| > 0 {
      hide Init, AuthInv, NanoInv, HostInv, ReplyInv;
      RunPrefix(key, states, steps);
      NanoInvAlways(key, states[..|steps|], steps[..|steps| - 1]);
      HostInvAlways(key, states[..|steps|], steps[..|steps| - 1]);
      AuthInvAlways(key, states[..|steps|], steps[..|steps| - 1]);
      ReplyInvAlways(key, states[..|steps|], steps[..|steps| - 1]);
      ReplyInvStep(key, states[|steps| - 1], steps[|steps| - 1], states[|steps|]);
    }
  }

  /** Response integrity: every body a framed command ever returned, with the progress
      texts before it, is exactly what the Nano printed for that very command, in order,
      up to its first OK or ERR line; and the Nano ran that command once. */
  lemma ResponseIntegrity(key: Key, states: seq<State>, steps: seq<Step>)
    requires IsRun(key, states, steps) && AllGenuine(key, states, steps) && AllFew(states, steps)
    requires AllForward(states, steps)
    ensures var s := states[|steps|];
            && (forall k :: 0 <= k < |s.returned| ==> Answered(s.ran, s.returned[k]))
            && (forall i, j :: 0 <= i < |s.ran| && 0 <= j < |s.ran| && s.ran[i].cmd.counter == s.ran[j].cmd.counter
                  ==> i == j)
  {
    ReplyInvAlways(key, states, steps);
    AtMostOnce(key, states, steps);
    hide IsRun, AllGenuine, AllFew, AllForward, Answered;
  }
}

/** The reply loop of execute_framed is the channel's host: the lines it takes from the port
    drive the same steps to the same end. */
module Refinement {
  import opened Bytes
  import opened Outcomes
  import opened Framing
  import opened Nano
  import opened SensorLink
  import opened Channel

  /** The lines the reply loop takes from the port. */
  function Taken(lossy: bytes -> bytes, key: Key, cmd: Command, accepted: seq<bytes>,
                 rx: bytes, events: seq<PortEvent>): seq<bytes>
    decreases Work(rx, events)
  {
    var r := ReadLine(lossy, rx, events);
    if r.line.Err? || r.line.value.None? then []
    else
      var line := r.line.value.value;
      match CheckLine(key, cmd.counter, SeqOf(|accepted|), line)
      case Skip => [line] + Taken(lossy, key, cmd, accepted, r.rx, r.events)
      case Fail(_) => [line]
      case Accepted(body) =>
        if IsFinal(body) then [line] else [line] + Taken(lossy, key, cmd, accepted + [body], r.rx, r.events)
  }

  /** The channel's host hearing these lines one after another, as long as it waits. */
  function HearAll(key: Key, s: State, lines: seq<bytes>): State
    decreases |lines|
  {
    if lines == [] || !s.host.Waiting? then s else HearAll(key, Heard(key, s, lines[0]), lines[1..])
  }

  /** The host model `t`, gone on from `s`, has seen what the loop's reply says: a returned
      body and its progress texts are recorded as returned; an error leaves the host idle,
      or, on a read error or a deadline, for its TimeOut step to release. */
  ghost predicate Mirrors(s: State, reply: Reply, t: State)
    requires s.host.Waiting?
  {
    && t.next == s.next && t.sent == s.sent && t.img == s.img && t.ran == s.ran
    && match reply.result
       case Ok(body) => t.host.Idle? && t.returned == s.returned + [Returned(s.host.cmd, reply.progress, body)]
       case Err(e) =>
         && t.returned == s.returned && (t.host.Waiting? || t.host.Idle?)
         && (t.host.Waiting? ==> t.host.cmd == s.host.cmd && reply.progress == ProgressTexts(t.host.accepted))
  }

  /** Whatever the port delivers, the reply loop and the host model that hears the lines it
      took come to the same end. */
  lemma {:induction false} AwaitIsHearing(lossy: bytes -> bytes, key: Key, s: State, rx: bytes, events: seq<PortEvent>)
    requires s.host.Waiting?
    ensures var cmd := s.host.cmd;
            var accepted := s.host.accepted;
            Mirrors(s, Await(lossy, key, cmd, SeqOf(|accepted|), ProgressTexts(accepted), rx, events),
                    HearAll(key, s, Taken(lossy, key, cmd, accepted, rx, events)))
    decreases Work(rx, events)
  {
    hide ReadLine, CheckLine, IsFinal, SeqOf, ProgressTexts;
    var cmd, accepted := s.host.cmd, s.host.accepted;
    var r := ReadLine(lossy, rx, events);
    if r.line.Ok? && r.line.value.Some? {
      var line := r.line.value.value;
      var verdict := CheckLine(key, cmd.counter, SeqOf(|accepted|), line);
      if verdict.Skip? {
        AwaitIsHearing(lossy, key, s, r.rx, r.events);
        HearsFirst(key, s, line, Taken(lossy, key, cmd, accepted, r.rx, r.events));
        hide Mirrors, HearAll;
      } else if verdict.Accepted? && !IsFinal(verdict.body) {
        var more := accepted + [verdict.body];
        MoreProgress(accepted, verdict.body);
        NextSeqOf(|accepted|);
        AwaitIsHearing(lossy, key, Heard(key, s, line), r.rx, r.events);
        HearsFirst(key, s, line, Taken(lossy, key, cmd, more, r.rx, r.events));
        hide HearAll;
      } else {
        HearsFirst(key, s, line, []);
        assert [line] + [] == [line];
      }
    }
  }

  lemma MoreProgress(accepted: seq<bytes>, body: bytes)
    ensures ProgressTexts(accepted + [body]) == ProgressTexts(accepted) + [ProgressText(body)]
  {
    hide ProgressText;
    assert (accepted + [body])[..|accepted|] == accepted;
  }

  lemma HearsFirst(key: Key, s: State, line: bytes, rest: seq<bytes>)
    requires s.host.Waiting?
    ensures HearAll(key, s, [line] + rest) == HearAll(key, Heard(key, s, line), rest)
  {
    assert ([line] + rest)[1..] == rest;
  }
}

/** One whole exchange, byte for byte: what the Nano prints for a command, cut into any
    chunks, is what execute_framed hands back. */
module Exchange {
  import opened Bytes
  import opened Outcomes
  import opened Decimal
  import opened Framing
  import opened FirmwareFraming
  import opened Nano
  import opened NanoBuffers
  import opened SensorLink
  import opened Channel
  import ChannelAgreement
  import MacWire
  import SipHash

  /** Printable ASCII, which lossy decoding leaves alone. */
  predicate Printable(s: bytes) {
    forall b :: b in s ==> 0x20 <= b < 0x7F
  }

  /** A body every buffer takes. */
  predicate Simple(body: bytes) {
    Printable(body) && |body| <= 92
  }

  predicate AllSimple(bodies: seq<bytes>) {
    forall i :: 0 <= i < |bodies| ==> Simple(bodies[i])
  }

  ghost predicate KeepsAscii(lossy: bytes -> bytes) {
    forall s :: Printable(s) ==> lossy(s + [RETURN]) == s + [RETURN]
  }

  predicate OnlyData(events: seq<PortEvent>) {
    forall i :: 0 <= i < |events| ==> events[i].Chunk? || events[i].Silence?
  }

  // ----- the stream, frame by frame -----

  /** The frames from body `k` on. */
  function StreamFrom(key: Key, c: u64, bodies: seq<bytes>, k: nat): bytes
    requires k <= |bodies|
    decreases |bodies| - k
  {
    if k == |bodies| then [] else FrameLine(key, c, SeqOf(k), bodies[k]) + StreamFrom(key, c, bodies, k + 1)
  }

  lemma {:induction false} StreamSplits(key: Key, c: u64, bodies: seq<bytes>, k: nat)
    requires k <= |bodies|
    ensures FrameStream(key, c, bodies) == FrameStream(key, c, bodies[..k]) + StreamFrom(key, c, bodies, k)
    decreases |bodies| - k
  {
    hide FrameLine;
    if k == |bodies| {
      assert bodies[..k] == bodies;
    } else {
      StreamSplits(key, c, bodies, k + 1);
      assert bodies[..k + 1] == bodies[..k] + [bodies[k]];
      StreamOneMore(key, c, bodies[..k], bodies[k]);
      var a, b, d := FrameStream(key, c, bodies[..k]), FrameLine(key, c, SeqOf(k), bodies[k]), StreamFrom(key, c, bodies, k + 1);
      assert (a + b) + d == a + (b + d);
    }
  }

  // ----- one frame -----

  lemma PrintableHex(s: bytes)
    ensures Printable(MacWire.Hex(s))
  {
    if s != [] {
      PrintableHex(s[1..]);
      assert Printable(MacWire.HexByte(s[0]));
    }
  }

  lemma PrintableDec(n: nat)
    ensures Printable(Dec(n))
  {
    assert forall b :: b in Dec(n) ==> IsDigit(b);
  }

  lemma PrintableParts(head: bytes, c: bytes, q: bytes, body: bytes, mac: bytes)
    requires head == c + [SPACE] + q + [SPACE] + body
    requires Printable(c) && Printable(q) && Printable(body) && Printable(mac)
    ensures Printable(R_LEADER + head + (M_MARK + mac))
  {
    assert Printable(c + [SPACE] + q + [SPACE]);
    assert Printable(R_LEADER + head);
    assert Printable(M_MARK + mac);
  }

  lemma PrintableFrame(key: Key, r: Response)
    requires Printable(r.body)
    ensures Printable(EncodeResponse(key, r))
  {
    hide SipHash.Mac, MacWire.Hex, MacWire.MacBytes, ResponseInput, Dec, Printable;
    var tag := MacWire.MacBytes(SipHash.Mac(key, ResponseInput(r)));
    PrintableHex(tag);
    PrintableDec(r.counter);
    PrintableDec(r.seq_no);
    PrintableParts(ResponseHead(r), Dec(r.counter), Dec(r.seq_no), r.body, MacWire.Hex(tag));
  }

  /** A printable text, CR LF, and more: the first line is the text and its CR. */
  lemma LineEnds(text: bytes, rest: bytes, s: bytes)
    requires Printable(text) && s == text + CRLF + rest
    ensures IndexOf(s, NEWLINE) == |text| + 1 < |s|
    ensures s[..|text| + 1] == text + [RETURN] && s[|text| + 2..] == rest
  {
    forall j | 0 <= j <= |text| ensures s[j] != NEWLINE {
      assert j < |text| ==> s[j] == text[j] && text[j] in text;
    }
    IndexOfIs(s, NEWLINE, |text| + 1);
  }

  /** The next line of the stream is the frame, and it cooks to the frame itself. */
  lemma NextFrame(lossy: bytes -> bytes, key: Key, c: u64, bodies: seq<bytes>, k: nat)
    requires k < |bodies| && Simple(bodies[k]) && KeepsAscii(lossy)
    ensures var s := StreamFrom(key, c, bodies, k);
            var frame := EncodeResponse(key, Response(c, SeqOf(k), bodies[k]));
            && IndexOf(s, NEWLINE) == |frame| + 1 < |s| && |frame| <= 145
            && Cooked(lossy, s[..IndexOf(s, NEWLINE)]) == frame
            && s[IndexOf(s, NEWLINE) + 1..] == StreamFrom(key, c, bodies, k + 1)
  {
    hide EncodeResponse, FrameFits, Dec, FrameLine, IndexOf, SeqOf, Printable, CString;
    var r := Response(c, SeqOf(k), bodies[k]);
    var frame := EncodeResponse(key, r);
    ShortBodiesFit(key, r);
    PrintableFrame(key, r);
    FrameLength(key, r);
    PrintableNoNul(bodies[k]);
    FrameLineIs(key, c, SeqOf(k), bodies[k]);
    LineEnds(frame, StreamFrom(key, c, bodies, k + 1), StreamFrom(key, c, bodies, k));
    assert (frame + [RETURN])[..|frame|] == frame;
  }

  lemma PrintableNoNul(s: bytes)
    requires Printable(s)
    ensures 0 !in s
  {
  }

  lemma FrameLength(key: Key, r: Response)
    requires |r.body| <= 92
    ensures |EncodeResponse(key, r)| <= 145
  {
    hide Dec;
    EncodedLength(key, r);
    DecWidths(r.counter);
    DecWidths(r.seq_no);
  }

  lemma {:induction false} StreamLinesFit(lossy: bytes -> bytes, key: Key, c: u64, bodies: seq<bytes>, k: nat)
    requires k <= |bodies| && AllSimple(bodies) && KeepsAscii(lossy)
    ensures LinesFit(StreamFrom(key, c, bodies, k))
    decreases |bodies| - k
  {
    hide FrameLine, EncodeResponse, Cooked, KeepsAscii;
    if k < |bodies| {
      NextFrame(lossy, key, c, bodies, k);
      StreamLinesFit(lossy, key, c, bodies, k + 1);
      hide StreamFrom, IndexOf;
    }
  }

  // ----- reading it back -----

  /** With nothing but data and pauses to come, a buffered or coming line is returned. */
  lemma {:induction false} LineComes(lossy: bytes -> bytes, rx: bytes, events: seq<PortEvent>)
    requires OnlyData(events) && LinesFit(rx + Flat(events)) && IndexOf(rx + Flat(events), NEWLINE) < |rx + Flat(events)|
    ensures var r := ReadLine(lossy, rx, events);
            r.line.Ok? && r.line.value.Some? && OnlyData(r.events)
    decreases |events|
  {
    if IndexOf(rx, NEWLINE) < |rx| {
      BufferedStays(lossy, rx, events);
    } else {
      FirstNewlineOfMore(rx, Flat(events));
      ReadMore(lossy, rx, events);
      assert events == [] ==> rx + Flat(events) == rx;
      hide ReadLine, IndexOf;
      if events != [] {
        FlatStep(rx, events);
        LineComes(lossy, rx + Data(events[0]), events[1..]);
      }
    }
  }

  lemma BufferedStays(lossy: bytes -> bytes, rx: bytes, events: seq<PortEvent>)
    requires IndexOf(rx, NEWLINE) < |rx|
    ensures ReadLine(lossy, rx, events).line.Ok? && ReadLine(lossy, rx, events).line.value.Some?
    ensures ReadLine(lossy, rx, events).events == events
  {
  }

  lemma AwaitAccepts(lossy: bytes -> bytes, key: Key, cmd: Command, q: u32, progress: seq<bytes>,
                     rx: bytes, events: seq<PortEvent>, line: bytes, body: bytes)
    requires ReadLine(lossy, rx, events).line == Ok(Some(line))
    requires CheckLine(key, cmd.counter, q, line) == Accepted(body)
    ensures var r := ReadLine(lossy, rx, events);
            Await(lossy, key, cmd, q, progress, rx, events)
              == if IsFinal(body) then Reply(Ok(body), progress, r.rx, r.events)
                 else Await(lossy, key, cmd, (q + 1) % TWO_32, progress + [ProgressText(body)], r.rx, r.events)
  {
    hide ReadLine, CheckLine, IsFinal, ProgressText;
  }

  lemma {:induction false} AwaitFrom(lossy: bytes -> bytes, key: Key, cmd: Command, bodies: seq<bytes>, n: nat, k: nat,
                                     rx: bytes, events: seq<PortEvent>)
    requires k <= n < |bodies| && AllSimple(bodies) && KeepsAscii(lossy) && OnlyData(events)
    requires IsFinal(bodies[n]) && forall i :: 0 <= i < n ==> !IsFinal(bodies[i])
    requires rx + Flat(events) == StreamFrom(key, cmd.counter, bodies, k)
    ensures var r := Await(lossy, key, cmd, SeqOf(k), ProgressTexts(bodies[..k]), rx, events);
            r.result == Ok(bodies[n]) && r.progress == ProgressTexts(bodies[..n])
    decreases n - k
  {
    hide *;
    var r := NextIsAccepted(lossy, key, cmd, bodies, k, rx, events);
    if k < n {
      NextSeqOf(k);
      ProgressOneMore(bodies, k);
      AwaitFrom(lossy, key, cmd, bodies, n, k + 1, r.rx, r.events);
    }
  }

  lemma NextIsAccepted(lossy: bytes -> bytes, key: Key, cmd: Command, bodies: seq<bytes>, k: nat,
                       rx: bytes, events: seq<PortEvent>) returns (r: Reading)
    requires k < |bodies| && AllSimple(bodies) && KeepsAscii(lossy) && OnlyData(events)
    requires rx + Flat(events) == StreamFrom(key, cmd.counter, bodies, k)
    ensures var progress := ProgressTexts(bodies[..k]);
            Await(lossy, key, cmd, SeqOf(k), progress, rx, events)
              == if IsFinal(bodies[k]) then Reply(Ok(bodies[k]), progress, r.rx, r.events)
                 else Await(lossy, key, cmd, (SeqOf(k) + 1) % TWO_32, progress + [ProgressText(bodies[k])], r.rx, r.events)
    ensures OnlyData(r.events)
    ensures r.rx + Flat(r.events) == StreamFrom(key, cmd.counter, bodies, k + 1)
  {
    hide Flat, ReadLine, Cooked, KeepsAscii, EncodeResponse, FrameLine, CheckLine, IsFinal, ProgressTexts, StreamFrom,
         IndexOf, LinesFit, Simple, SeqOf, Await, ProgressText;
    NextFrame(lossy, key, cmd.counter, bodies, k);
    StreamLinesFit(lossy, key, cmd.counter, bodies, k);
    LineComes(lossy, rx, events);
    ReadLineTakesFirst(lossy, rx, events);
    r := ReadLine(lossy, rx, events);
    var frame := EncodeResponse(key, Response(cmd.counter, SeqOf(k), bodies[k]));
    ChannelAgreement.ReplyPasses(key, Response(cmd.counter, SeqOf(k), bodies[k]));
    AwaitAccepts(lossy, key, cmd, SeqOf(k), ProgressTexts(bodies[..k]), rx, events, frame, bodies[k]);
  }

  lemma ProgressOneMore(bodies: seq<bytes>, k: nat)
    requires k < |bodies|
    ensures ProgressTexts(bodies[..k + 1]) == ProgressTexts(bodies[..k]) + [ProgressText(bodies[k])]
  {
    hide ProgressText;
    assert bodies[..k + 1][..k] == bodies[..k];
  }

  /** If the port delivers what the Nano prints for a command, in any chunks with any
      pauses, execute_framed returns the first body that starts with OK or ERR, and its
      callback has had every body before it: the rest of a PROGRESS line, anything else
      marked as unhandled. */
  lemma HonestExchange(lossy: bytes -> bytes, key: Key, cmd: Command, bodies: seq<bytes>, n: nat, events: seq<PortEvent>)
    requires n < |bodies| && AllSimple(bodies) && KeepsAscii(lossy) && OnlyData(events)
    requires StartsWith(bodies[n], Ascii("OK")) || StartsWith(bodies[n], Ascii("ERR"))
    requires forall i :: 0 <= i < n ==> !StartsWith(bodies[i], Ascii("OK")) && !StartsWith(bodies[i], Ascii("ERR"))
    requires Flat(events) == FrameStream(key, cmd.counter, bodies)
    ensures var r := Await(lossy, key, cmd, 0, [], [], events);
            && r.result == Ok(bodies[n]) && |r.progress| == n
            && forall i :: 0 <= i < n ==>
                 r.progress[i] == if StartsWith(bodies[i], Ascii("PROGRESS ")) then bodies[i][9..]
                                  else Ascii("[unhandled] ") + bodies[i]
  {
    hide FrameLine, Await, KeepsAscii, IsFinal, Simple, Flat, ProgressText, StartsWith, Ascii;
    StreamSplits(key, cmd.counter, bodies, 0);
    assert bodies[..0] == [] && FrameStream(key, cmd.counter, []) == [] && ProgressTexts([]) == [];
    assert [] + Flat(events) == StreamFrom(key, cmd.counter, bodies, 0);
    assert SeqOf(0) == 0;
    forall i | 0 <= i <= n ensures IsFinal(bodies[i]) <==> i == n {
      FinalExactly(bodies[i]);
    }
    AwaitFrom(lossy, key, cmd, bodies, n, 0, [], events);
    forall i | 0 <= i < n
      ensures StartsWith(bodies[i], Ascii("PROGRESS ")) ==> |bodies[i]| >= 9 && ProgressText(bodies[i]) == bodies[i][9..]
      ensures !StartsWith(bodies[i], Ascii("PROGRESS ")) ==> ProgressText(bodies[i]) == Ascii("[unhandled] ") + bodies[i]
    {
      ProgressTextIs(bodies[i]);
    }
  }

  lemma {:induction false} AwaitRunsDry(lossy: bytes -> bytes, key: Key, cmd: Command, bodies: seq<bytes>, k: nat,
                                        rx: bytes, events: seq<PortEvent>)
    requires k <= |bodies| && AllSimple(bodies) && KeepsAscii(lossy) && OnlyData(events)
    requires forall i :: 0 <= i < |bodies| ==> !IsFinal(bodies[i])
    requires rx + Flat(events) == StreamFrom(key, cmd.counter, bodies, k)
    ensures var r := Await(lossy, key, cmd, SeqOf(k), ProgressTexts(bodies[..k]), rx, events);
            r.result == Err(Timeout(cmd.text)) && r.progress == ProgressTexts(bodies)
    decreases |bodies| - k
  {
    hide *;
    if k < |bodies| {
      var r := NextIsAccepted(lossy, key, cmd, bodies, k, rx, events);
      NextSeqOf(k);
      ProgressOneMore(bodies, k);
      AwaitRunsDry(lossy, key, cmd, bodies, k + 1, r.rx, r.events);
    } else {
      assert bodies[..k] == bodies;
      StreamIsOver(key, cmd.counter, bodies);
      DryIsTimeout(lossy, key, cmd, SeqOf(k), ProgressTexts(bodies), rx, events);
    }
  }

  lemma StreamIsOver(key: Key, c: u64, bodies: seq<bytes>)
    ensures StreamFrom(key, c, bodies, |bodies|) == []
  {
  }

  lemma {:induction false} DryIsTimeout(lossy: bytes -> bytes, key: Key, cmd: Command, q: u32, progress: seq<bytes>,
                                        rx: bytes, events: seq<PortEvent>)
    requires OnlyData(events) && rx + Flat(events) == []
    ensures var r := Await(lossy, key, cmd, q, progress, rx, events);
            r.result == Err(Timeout(cmd.text)) && r.progress == progress
  {
    NothingToRead(lossy, rx, events);
    hide ReadLine, CheckLine, IsFinal, ProgressText;
  }

  lemma {:induction false} NothingToRead(lossy: bytes -> bytes, rx: bytes, events: seq<PortEvent>)
    requires OnlyData(events) && rx + Flat(events) == []
    ensures ReadLine(lossy, rx, events).line == Ok(None)
    decreases |events|
  {
    if events != [] {
      assert rx + Data(events[0]) == [];
      NothingToRead(lossy, [], events[1..]);
    }
  }

  /** Without such a body the command times out, after the callback has had every line. */
  lemma NoFinalTimesOut(lossy: bytes -> bytes, key: Key, cmd: Command, bodies: seq<bytes>, events: seq<PortEvent>)
    requires AllSimple(bodies) && KeepsAscii(lossy) && OnlyData(events)
    requires forall i :: 0 <= i < |bodies| ==> !StartsWith(bodies[i], Ascii("OK")) && !StartsWith(bodies[i], Ascii("ERR"))
    requires Flat(events) == FrameStream(key, cmd.counter, bodies)
    ensures var r := Await(lossy, key, cmd, 0, [], [], events);
            r.result == Err(Timeout(cmd.text)) && |r.progress| == |bodies|
  {
    hide FrameLine, Await, KeepsAscii, IsFinal, Simple, Flat, ProgressText, StartsWith, Ascii;
    StreamSplits(key, cmd.counter, bodies, 0);
    assert bodies[..0] == [] && FrameStream(key, cmd.counter, []) == [] && ProgressTexts([]) == [];
    assert [] + Flat(events) == StreamFrom(key, cmd.counter, bodies, 0);
    assert SeqOf(0) == 0;
    forall i | 0 <= i < |bodies| ensures !IsFinal(bodies[i]) {
      FinalExactly(bodies[i]);
    }
    AwaitRunsDry(lossy, key, cmd, bodies, 0, [], events);
  }
}

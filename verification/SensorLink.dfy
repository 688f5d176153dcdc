/** The daemon's end of the serial link: reading lines out of arbitrary chunks, and one
    framed command from persisting its counter to its final reply. */
module SensorLink {
  import opened Bytes
  import opened Outcomes
  import opened Framing

  const MAX_LINE_LEN: nat := 4096
  const READ_LEN: nat := 256
  const RX_LIMIT: nat := MAX_LINE_LEN + READ_LEN

  datatype SensorError =
    | Io
    | Timeout(cmd: bytes)
    | FramingRejected(line: bytes)
    | BadResponse(error: FramingError, line: bytes)
    | CounterMismatch(gotCounter: u64, wantCounter: u64)
    | SeqMismatch(gotSeq: u32, wantSeq: u32)
    | LineTooLong
    | CounterExhausted

  function AdvanceCounter(counter: u64): (r: Result<u64, SensorError>)
    ensures r.Ok? <==> counter < 0xFFFF_FFFF_FFFF_0000
    ensures r.Ok? ==> r.value == counter + 1 <= COUNTER_CEILING
    ensures r.Err? ==> r.error == CounterExhausted
  {
    if counter >= COUNTER_CEILING then Err(CounterExhausted) else Ok(counter + 1)
  }

  // ----- reading lines -----

  /** What one attempt to read the port brings: some bytes, nothing for a while, the
      caller's deadline, or an I/O error. */
  datatype PortEvent = Chunk(data: bytes) | Silence | Late | Broken

  /** Every byte still to be handled, and every event still to come. */
  function Work(rx: bytes, events: seq<PortEvent>): nat {
    |rx| + |Flat(events)| + |events|
  }

  /** The bytes an event adds to the buffer. */
  function Data(event: PortEvent): bytes {
    if event.Chunk? then event.data else []
  }

  /** The bytes the port will deliver. */
  function Flat(events: seq<PortEvent>): bytes {
    if events == [] then [] else Data(events[0]) + Flat(events[1..])
  }

  /** A received line as text: lossy UTF-8 decoding, then one trailing CR dropped. */
  function Cooked(lossy: bytes -> bytes, raw: bytes): bytes {
    var text := lossy(raw);
    if text != [] && text[|text| - 1] == RETURN then text[..|text| - 1] else text
  }

  datatype Reading = Reading(line: Result<Option<bytes>, SensorError>, rx: bytes, events: seq<PortEvent>)

  /** What read_line returns, and what it leaves buffered and unread. */
  function ReadLine(lossy: bytes -> bytes, rx: bytes, events: seq<PortEvent>): (r: Reading)
    ensures r.line.Ok? && r.line.value.Some? ==> Work(r.rx, r.events) < Work(rx, events)
    decreases |events|
  {
    var nl := IndexOf(rx, NEWLINE);
    if nl < |rx| then Reading(Ok(Some(Cooked(lossy, rx[..nl]))), rx[nl + 1..], events)
    else if |rx| > MAX_LINE_LEN then Reading(Err(LineTooLong), [], events)
    else if events == [] then Reading(Ok(None), rx, [])
    else match events[0]
      case Chunk(data) => ReadLine(lossy, rx + data, events[1..])
      case Silence => ReadLine(lossy, rx, events[1..])
      case Late => Reading(Ok(None), rx, events[1..])
      case Broken => Reading(Err(Io), rx, events[1..])
  }

  // ----- one received line of a framed command -----

  datatype Verdict = Skip | Fail(error: SensorError) | Accepted(body: bytes)

  /** The checks execute_framed puts on a line. */
  function CheckLine(key: Key, counter: u64, seq_no: u32, line: bytes): Verdict {
    if line == [] then Skip
    else if !StartsWith(line, R_LEADER) then Fail(FramingRejected(line))
    else match VerifyResponse(key, line)
      case Err(e) => Fail(BadResponse(e, line))
      case Ok(r) =>
        if r.counter != counter then Fail(CounterMismatch(r.counter, counter))
        else if r.seq_no != seq_no then Fail(SeqMismatch(r.seq_no, seq_no))
        else Accepted(r.body)
  }

  /** A body that ends the command. */
  predicate IsFinal(body: bytes) {
    !StartsWith(body, Ascii("PROGRESS ")) && (StartsWith(body, Ascii("OK")) || StartsWith(body, Ascii("ERR")))
  }

  /** What the progress callback is given for a body that does not end the command. */
  function ProgressText(body: bytes): bytes {
    match StripPrefix(body, Ascii("PROGRESS "))
    case Some(rest) => rest
    case None => Ascii("[unhandled] ") + body
  }

  lemma SameStart(s: bytes, p: bytes, q: bytes)
    requires StartsWith(s, p) && StartsWith(s, q) && p != [] && q != []
    ensures p[0] == q[0]
  {
    assert s[..|p|][0] == s[..|q|][0];
  }

  /** A reply ends with the first body that starts with OK or ERR. */
  lemma FinalExactly(body: bytes)
    ensures IsFinal(body) <==> StartsWith(body, Ascii("OK")) || StartsWith(body, Ascii("ERR"))
  {
    hide StartsWith;
    var progress, ok, err := Ascii("PROGRESS "), Ascii("OK"), Ascii("ERR");
    assert progress[0] != ok[0] && progress[0] != err[0];
    if StartsWith(body, progress) && StartsWith(body, ok) {
      SameStart(body, progress, ok);
    } else if StartsWith(body, progress) && StartsWith(body, err) {
      SameStart(body, progress, err);
    }
  }

  lemma ProgressTextIs(body: bytes)
    ensures StartsWith(body, Ascii("PROGRESS ")) ==> |body| >= 9 && ProgressText(body) == body[9..]
    ensures !StartsWith(body, Ascii("PROGRESS ")) ==> ProgressText(body) == Ascii("[unhandled] ") + body
  {
    hide AsciiByte;
  }

  /** Which lines count: a blank one is passed over, and otherwise only the frame of this
      counter and sequence number brings its body. */
  lemma CheckLineExactly(key: Key, counter: u64, seq_no: u32, line: bytes, body: bytes)
    ensures CheckLine(key, counter, seq_no, line) == Skip <==> line == []
    ensures CheckLine(key, counter, seq_no, line) == Accepted(body)
       <==> Canonicalized(line) == EncodeResponse(key, Response(counter, seq_no, body))
  {
    hide Canonicalized, EncodeResponse, StartsWith, VerifyResponse;
    VerifyResponseExact(key, line, Response(counter, seq_no, body));
    if VerifyResponse(key, line).Ok? {
      VerifiedLeads(key, line);
    }
  }

  /** What else a line brings: a text without the leader is the firmware's own refusal, a
      frame of another exchange is named by its counter or sequence number, and the rest is
      no frame under this key. */
  lemma RefusedLineExactly(key: Key, counter: u64, seq_no: u32, line: bytes, r: Response)
    requires line != []
    ensures CheckLine(key, counter, seq_no, line) == Fail(FramingRejected(line)) <==> !StartsWith(line, Ascii("R "))
    ensures Canonicalized(line) == EncodeResponse(key, r) ==>
              && (r.counter != counter ==>
                    CheckLine(key, counter, seq_no, line) == Fail(CounterMismatch(r.counter, counter)))
              && (r.counter == counter && r.seq_no != seq_no ==>
                    CheckLine(key, counter, seq_no, line) == Fail(SeqMismatch(r.seq_no, seq_no)))
    ensures StartsWith(line, Ascii("R ")) && (forall q: Response :: Canonicalized(line) != EncodeResponse(key, q)) ==>
              CheckLine(key, counter, seq_no, line).Fail? && CheckLine(key, counter, seq_no, line).error.BadResponse?
  {
    hide Canonicalized, EncodeResponse, Ascii, StartsWith, VerifyResponse;
    LeaderIs();
    VerifyResponseExact(key, line, r);
    var v := VerifyResponse(key, line);
    if v.Ok? {
      VerifiedLeads(key, line);
      VerifyResponseExact(key, line, v.value);
    }
  }

  lemma LeaderIs()
    ensures R_LEADER == Ascii("R ")
  {
  }

  lemma VerifiedLeads(key: Key, line: bytes)
    requires VerifyResponse(key, line).Ok?
    ensures line != [] && StartsWith(line, R_LEADER)
  {
    hide SplitMacSuffix, SplitResponseHead, ResponseInput;
  }

  datatype Reply = Reply(result: Result<bytes, SensorError>, progress: seq<bytes>, rx: bytes, events: seq<PortEvent>)

  /** The reply loop of execute_framed. `progress` is what the callback has been given. */
  function Await(lossy: bytes -> bytes, key: Key, cmd: Command, seq_no: u32, progress: seq<bytes>,
                 rx: bytes, events: seq<PortEvent>): Reply
    decreases Work(rx, events)
  {
    var r := ReadLine(lossy, rx, events);
    match r.line
    case Err(e) => Reply(Err(e), progress, r.rx, r.events)
    case Ok(None) => Reply(Err(Timeout(cmd.text)), progress, r.rx, r.events)
    case Ok(Some(line)) =>
      match CheckLine(key, cmd.counter, seq_no, line)
      case Skip => Await(lossy, key, cmd, seq_no, progress, r.rx, r.events)
      case Fail(e) => Reply(Err(e), progress, r.rx, r.events)
      case Accepted(body) =>
        if IsFinal(body) then Reply(Ok(body), progress, r.rx, r.events)
        else Await(lossy, key, cmd, (seq_no + 1) % TWO_32, progress + [ProgressText(body)], r.rx, r.events)
  }

  // ----- the driver object -----

  /** state.json, replaced atomically. */
  class StateFile {
    var next: u64

    constructor (n: u64)
      ensures next == n
    {
      next := n;
    }

    method Save(n: u64, fails: bool) returns (ok: bool)
      modifies this
      ensures ok == !fails
      ensures next == if fails then old(next) else n
    {
      if !fails {
        next := n;
      }
      ok := !fails;
    }
  }

  class R503 {
    const key: Key
    const store: StateFile
    const lossy: bytes -> bytes
    var clientCounter: u64
    var rxBuf: bytes
    var events: seq<PortEvent>   // what the port will deliver
    var wire: bytes              // everything written to the port
    var progress: seq<bytes>     // everything given to the progress callback

    /** A freshly opened port with the counter apply_auth loads from the state file. */
    constructor (k: Key, s: StateFile, l: bytes -> bytes, e: seq<PortEvent>)
      ensures key == k && store == s && lossy == l && events == e
      ensures clientCounter == s.next && rxBuf == [] && wire == [] && progress == []
    {
      key, store, lossy, events := k, s, l, e;
      clientCounter, rxBuf, wire, progress := s.next, [], [], [];
    }

    /** Chunks never exceed the read buffer. */
    predicate ChunksFit()
      reads this
    {
      forall i :: 0 <= i < |events| && events[i].Chunk? ==> |events[i].data| <= READ_LEN
    }

    method Position() returns (nl: nat)
      ensures nl == IndexOf(rxBuf, NEWLINE)
    {
      nl := 0;
      while nl < |rxBuf| && rxBuf[nl] != NEWLINE
        invariant nl <= |rxBuf|
        invariant forall j :: 0 <= j < nl ==> rxBuf[j] != NEWLINE
      {
        nl := nl + 1;
      }
      IndexOfIs(rxBuf, NEWLINE, nl);
    }

    /** read_line; at no point does the buffer hold more than 4352 bytes. */
    method NextLine() returns (line: Result<Option<bytes>, SensorError>)
      requires ChunksFit() && |rxBuf| <= RX_LIMIT
      modifies this`rxBuf, this`events
      ensures Reading(line, rxBuf, events) == ReadLine(lossy, old(rxBuf), old(events))
      ensures ChunksFit() && |rxBuf| <= RX_LIMIT
    {
      while true
        invariant ReadLine(lossy, rxBuf, events) == ReadLine(lossy, old(rxBuf), old(events))
        invariant ChunksFit() && |rxBuf| <= RX_LIMIT
        decreases |events|
      {
        var nl := Position();
        if nl < |rxBuf| {
          line := Ok(Some(Cooked(lossy, rxBuf[..nl])));
          rxBuf := rxBuf[nl + 1..];
          return;
        }
        if |rxBuf| > MAX_LINE_LEN {
          rxBuf := [];
          return Err(LineTooLong);
        }
        if events == [] {
          return Ok(None);
        }
        var event := events[0];
        events := events[1..];
        match event {
          case Chunk(data) => rxBuf := rxBuf + data;
          case Silence =>
          case Late => return Ok(None);
          case Broken => return Err(Io);
        }
      }
    }

    /** Writing and flushing; with `fails`, an error after that many bytes are out. */
    method Write(data: bytes, fails: Option<nat>) returns (ok: bool)
      modifies this`wire
      ensures ok == fails.None?
      ensures wire == old(wire) + if fails.Some? && fails.value < |data| then data[..fails.value] else data
    {
      ok := fails.None?;
      wire := wire + if fails.Some? && fails.value < |data| then data[..fails.value] else data;
    }

    /** execute_framed: the next counter is on disk before anything is written, and a failed
        write may leave any part of the frame on the wire. */
    method ExecuteFramed(cmd: bytes, saveFails: bool, writeFails: Option<nat>) returns (r: Result<bytes, SensorError>)
      requires ChunksFit()
      modifies this, store
      ensures old(clientCounter) >= COUNTER_CEILING || saveFails ==>
                && r == Err(if old(clientCounter) >= COUNTER_CEILING then CounterExhausted else Io)
                && clientCounter == old(clientCounter) && store.next == old(store.next)
                && wire == old(wire) && progress == old(progress)
      ensures old(clientCounter) < COUNTER_CEILING && !saveFails ==>
                && clientCounter == store.next == old(clientCounter) + 1 <= COUNTER_CEILING
                && var c := Command(old(clientCounter), cmd);
                   var sent := EncodeCommand(key, c) + [NEWLINE];
                   if writeFails.Some? then
                     && r == Err(Io) && progress == old(progress)
                     && wire == old(wire) + if writeFails.value < |sent| then sent[..writeFails.value] else sent
                   else
                     && wire == old(wire) + sent
                     && Reply(r, progress, rxBuf, events) == Await(lossy, key, c, 0, old(progress), [], old(events))
    {
      hide EncodeCommand, CheckLine, ReadLine;
      var counter := clientCounter;
      var advanced := AdvanceCounter(counter);
      if advanced.Err? {
        return Err(advanced.error);
      }
      var saved := store.Save(advanced.value, saveFails);
      if !saved {
        return Err(Io);
      }
      clientCounter := advanced.value;
      var frame := EncodeCommand(key, Command(counter, cmd));
      rxBuf := [];
      var written := Write(frame + [NEWLINE], writeFails);
      if !written {
        return Err(Io);
      }
      r := AwaitReply(Command(counter, cmd));
    }

    method AwaitReply(cmd: Command) returns (r: Result<bytes, SensorError>)
      requires ChunksFit() && |rxBuf| <= RX_LIMIT
      modifies this`rxBuf, this`events, this`progress
      ensures Reply(r, progress, rxBuf, events)
           == Await(lossy, key, cmd, 0, old(progress), old(rxBuf), old(events))
    {
      hide CheckLine, ReadLine, IsFinal, ProgressText;
      var expectedSeq: u32 := 0;
      while true
        invariant ChunksFit() && |rxBuf| <= RX_LIMIT
        invariant Await(lossy, key, cmd, expectedSeq, progress, rxBuf, events)
               == Await(lossy, key, cmd, 0, old(progress), old(rxBuf), old(events))
        decreases Work(rxBuf, events)
      {
        var line := NextLine();
        if line.Err? {
          return Err(line.error);
        }
        if line.value.None? {
          return Err(Timeout(cmd.text));
        }
        var verdict := CheckLine(key, cmd.counter, expectedSeq, line.value.value);
        match verdict {
          case Skip =>
          case Fail(e) => return Err(e);
          case Accepted(body) =>
            expectedSeq := (expectedSeq + 1) % 0x1_0000_0000;
            if IsFinal(body) {
              return Ok(body);
            }
            progress := progress + [ProgressText(body)];
        }
      }
    }
  }

  // ----- chunk independence -----

  /** The newline-terminated lines of a byte stream. */
  function Lines(s: bytes): seq<bytes>
    decreases |s|
  {
    var nl := IndexOf(s, NEWLINE);
    if nl == |s| then [] else [s[..nl]] + Lines(s[nl + 1..])
  }

  /** No line, nor the unterminated rest, is longer than the limit. */
  predicate LinesFit(s: bytes)
    decreases |s|
  {
    var nl := IndexOf(s, NEWLINE);
    nl <= MAX_LINE_LEN && (nl < |s| ==> LinesFit(s[nl + 1..]))
  }

  predicate NoneBroken(events: seq<PortEvent>) {
    forall i :: 0 <= i < |events| ==> !events[i].Broken?
  }

  lemma {:induction false} FirstNewlineOfMore(s: bytes, t: bytes)
    ensures IndexOf(s + t, NEWLINE) == if IndexOf(s, NEWLINE) < |s| then IndexOf(s, NEWLINE) else |s| + IndexOf(t, NEWLINE)
  {
    var nl := if IndexOf(s, NEWLINE) < |s| then IndexOf(s, NEWLINE) else |s| + IndexOf(t, NEWLINE);
    IndexOfIs(s + t, NEWLINE, nl);
  }

  /** What a call of read_line does to a stream: it takes the first line off, or it takes
      nothing. */
  ghost predicate TakesFirst(lossy: bytes -> bytes, s: bytes, r: Reading) {
    && r.line.Ok? && NoneBroken(r.events)
    && match r.line.value
       case Some(line) =>
         var nl := IndexOf(s, NEWLINE);
         nl < |s| && line == Cooked(lossy, s[..nl]) && r.rx + Flat(r.events) == s[nl + 1..]
       case None => r.rx + Flat(r.events) == s
  }

  lemma BufferedLine(lossy: bytes -> bytes, rx: bytes, events: seq<PortEvent>)
    requires IndexOf(rx, NEWLINE) < |rx|
    ensures ReadLine(lossy, rx, events).line.Ok? && ReadLine(lossy, rx, events).line.value.Some?
  {
  }

  lemma TakesBuffered(lossy: bytes -> bytes, rx: bytes, events: seq<PortEvent>)
    requires NoneBroken(events) && IndexOf(rx, NEWLINE) < |rx|
    ensures TakesFirst(lossy, rx + Flat(events), ReadLine(lossy, rx, events))
  {
    var s, nl := rx + Flat(events), IndexOf(rx, NEWLINE);
    FirstNewlineOfMore(rx, Flat(events));
    hide Flat, Cooked;
    assert s[..nl] == rx[..nl] && s[nl + 1..] == rx[nl + 1..] + Flat(events);
  }

  lemma FlatStep(rx: bytes, events: seq<PortEvent>)
    requires events != []
    ensures rx + Flat(events) == (rx + Data(events[0])) + Flat(events[1..])
    ensures Work(rx, events) == Work(rx + Data(events[0]), events[1..]) + 1
  {
    hide Data;
    assert rx + (Data(events[0]) + Flat(events[1..])) == (rx + Data(events[0])) + Flat(events[1..]);
  }

  /** One turn of the loop with no newline buffered. */
  lemma ReadMore(lossy: bytes -> bytes, rx: bytes, events: seq<PortEvent>)
    requires IndexOf(rx, NEWLINE) == |rx| <= MAX_LINE_LEN
    ensures events == [] ==> ReadLine(lossy, rx, events) == Reading(Ok(None), rx, [])
    ensures events != [] && events[0].Late? ==> ReadLine(lossy, rx, events) == Reading(Ok(None), rx, events[1..])
    ensures events != [] && !events[0].Late? && !events[0].Broken? ==>
              ReadLine(lossy, rx, events) == ReadLine(lossy, rx + Data(events[0]), events[1..])
    ensures events != [] && events[0].Broken? ==> ReadLine(lossy, rx, events) == Reading(Err(Io), rx, events[1..])
  {
    assert rx + [] == rx;
  }

  /** The buffer is given up, and emptied, exactly when more than 4096 bytes hold no line. */
  lemma TooLongExactly(lossy: bytes -> bytes, rx: bytes)
    ensures ReadLine(lossy, rx, []).line == Err(LineTooLong) <==> IndexOf(rx, 0x0A) == |rx| && |rx| > 4096
    ensures ReadLine(lossy, rx, []).line == Err(LineTooLong) ==> ReadLine(lossy, rx, []).rx == []
  {
    hide Cooked;
  }

  /** A line loses one CR at its end, and nothing else. */
  lemma CookedExactly(lossy: bytes -> bytes, raw: bytes, text: bytes)
    requires lossy(raw) == text + [0x0D] || (lossy(raw) == text && (text == [] || text[|text| - 1] != 0x0D))
    ensures Cooked(lossy, raw) == text
  {
    assert (text + [0x0D])[..|text|] == text;
  }

  lemma TakesNothing(lossy: bytes -> bytes, rx: bytes, events: seq<PortEvent>)
    requires NoneBroken(events)
    ensures TakesFirst(lossy, rx + Flat(events), Reading(Ok(None), rx, events))
  {
  }

  /** One call takes the first line off the stream, however the stream is cut; otherwise
      it loses nothing. */
  lemma {:induction false} ReadLineTakesFirst(lossy: bytes -> bytes, rx: bytes, events: seq<PortEvent>)
    requires NoneBroken(events) && LinesFit(rx + Flat(events))
    ensures TakesFirst(lossy, rx + Flat(events), ReadLine(lossy, rx, events))
    ensures var r := ReadLine(lossy, rx, events);
            r.line == Ok(None) ==> if events == [] then IndexOf(rx, NEWLINE) == |rx| && r.rx == rx && r.events == []
                                   else Work(r.rx, r.events) < Work(rx, events)
    decreases |events|
  {
    if IndexOf(rx, NEWLINE) < |rx| {
      TakesBuffered(lossy, rx, events);
      BufferedLine(lossy, rx, events);
      hide *;
    } else {
      FirstNewlineOfMore(rx, Flat(events));
      ReadMore(lossy, rx, events);
      hide ReadLine, Cooked, IndexOf, TakesFirst;
      if events == [] {
        TakesNothing(lossy, rx, events);
      } else {
        FlatStep(rx, events);
        TakesNothing(lossy, rx, events[1..]);
        hide Flat, Work, LinesFit;
        if events[0].Late? {
          assert rx + Data(events[0]) == rx;
        } else {
          ReadLineTakesFirst(lossy, rx + Data(events[0]), events[1..]);
        }
      }
    }
  }

  /** Every line repeated calls return until the port has nothing more. */
  function AllLines(lossy: bytes -> bytes, rx: bytes, events: seq<PortEvent>): seq<bytes>
    decreases Work(rx, events)
  {
    var r := ReadLine(lossy, rx, events);
    if r.line.Err? then []
    else if r.line.value.Some? then [r.line.value.value] + AllLines(lossy, r.rx, r.events)
    else if Work(r.rx, r.events) < Work(rx, events) then AllLines(lossy, r.rx, r.events)
    else []
  }

  function CookedLines(lossy: bytes -> bytes, lines: seq<bytes>): (r: seq<bytes>)
    ensures |r| == |lines|
    ensures forall i :: 0 <= i < |lines| ==> r[i] == Cooked(lossy, lines[i])
  {
    if lines == [] then [] else [Cooked(lossy, lines[0])] + CookedLines(lossy, lines[1..])
  }

  lemma FirstOfLines(lossy: bytes -> bytes, s: bytes)
    requires IndexOf(s, NEWLINE) < |s|
    ensures CookedLines(lossy, Lines(s))
         == [Cooked(lossy, s[..IndexOf(s, NEWLINE)])] + CookedLines(lossy, Lines(s[IndexOf(s, NEWLINE) + 1..]))
  {
    hide Cooked, IndexOf;
    var rest := Lines(s[IndexOf(s, NEWLINE) + 1..]);
    assert Lines(s) == [s[..IndexOf(s, NEWLINE)]] + rest;
    assert Lines(s)[0] == s[..IndexOf(s, NEWLINE)] && Lines(s)[1..] == rest;
  }

  lemma LinesFitLater(s: bytes)
    requires LinesFit(s) && IndexOf(s, NEWLINE) < |s|
    ensures LinesFit(s[IndexOf(s, NEWLINE) + 1..])
  {
  }

  /** Chunk independence: whatever the cuts and pauses, repeated calls yield exactly the
      lines of the byte stream. */
  lemma {:induction false} ChunksDoNotMatter(lossy: bytes -> bytes, rx: bytes, events: seq<PortEvent>)
    requires NoneBroken(events) && LinesFit(rx + Flat(events))
    ensures AllLines(lossy, rx, events) == CookedLines(lossy, Lines(rx + Flat(events)))
    decreases Work(rx, events)
  {
    hide ReadLine, Cooked, Flat, IndexOf, LinesFit, Lines, CookedLines, Work;
    var r, s := ReadLine(lossy, rx, events), rx + Flat(events);
    ReadLineTakesFirst(lossy, rx, events);
    if r.line.value.Some? {
      LinesFitLater(s);
      FirstOfLines(lossy, s);
      ChunksDoNotMatter(lossy, r.rx, r.events);
    } else if events != [] {
      ChunksDoNotMatter(lossy, r.rx, r.events);
    } else {
      NoLines(lossy, rx, events);
    }
  }

  lemma NoLines(lossy: bytes -> bytes, rx: bytes, events: seq<PortEvent>)
    requires events == [] && IndexOf(rx, NEWLINE) == |rx|
    ensures CookedLines(lossy, Lines(rx + Flat(events))) == []
  {
    assert rx + Flat(events) == rx;
  }
}

/** The Nano's firmware: line assembly, the framed-command gate, dispatch and the framer
    that turns printed text back into response frames. Sensor handlers are any printed
    text; power may fail during an EEPROM save or wipe. */
module Nano {
  import opened Bytes
  import opened Outcomes
  import opened Decimal
  import opened Framing
  import opened FirmwareFraming
  import opened Eeprom

  const LINE_BUFFER: nat := 128
  const FRAME_BUFFER: nat := 160
  const BODY_BUFFER: nat := 96
  const CRLF: bytes := [RETURN, NEWLINE]

  /** C strings end at their first NUL. */
  function CString(s: bytes): (r: bytes)
    ensures |r| <= |s|
    ensures 0 !in r
    ensures 0 !in s ==> r == s
    ensures r == s[..IndexOf(s, 0)]
  {
    if s == [] || s[0] == 0 then [] else [s[0]] + CString(s[1..])
  }

  // ----- the framer: printed text to response bodies -----

  datatype Framer = Framer(cur: bytes, done: seq<bytes>)

  function Flush(f: Framer): Framer {
    if f.cur == [] then f else Framer([], f.done + [f.cur])
  }

  function Write(f: Framer, c: byte): Framer {
    if c == NEWLINE then Flush(f)
    else if c == RETURN then f
    else if |f.cur| < LINE_BUFFER - 1 then f.(cur := f.cur + [c])
    else f
  }

  function Print(f: Framer, text: bytes): Framer {
    if text == [] then f else Write(Print(f, text[..|text| - 1]), text[|text| - 1])
  }

  lemma {:induction false} PrintTwice(f: Framer, s: bytes, t: bytes)
    ensures Print(Print(f, s), t) == Print(f, s + t)
  {
    hide Write;
    if t == [] {
      assert s + t == s;
    } else {
      PrintTwice(f, s, t[..|t| - 1]);
      assert (s + t)[..|s + t| - 1] == s + t[..|t| - 1];
    }
  }

  /** The bodies one framed command prints, in order. */
  function PrintedBodies(text: bytes): seq<bytes> {
    Flush(Print(Framer([], []), text)).done
  }

  /** What goes out for the body with sequence number `q` of the command with counter `c`.
      The frame is printed as a C string. */
  function FrameLine(key: Key, c: u64, q: u32, body: bytes): bytes {
    var r := Response(c, q, body);
    (if FrameFits(key, r, FRAME_BUFFER) then CString(EncodeResponse(key, r)) else Ascii("ERR encode_overflow")) + CRLF
  }

  /** The 32-bit sequence number of body number `i`. */
  function SeqOf(i: nat): u32 {
    i % TWO_32
  }

  lemma NextSeqOf(i: nat)
    ensures (SeqOf(i) + 1) % TWO_32 == SeqOf(i + 1)
  {
  }

  function FrameStream(key: Key, c: u64, bodies: seq<bytes>): bytes {
    if bodies == [] then []
    else FrameStream(key, c, bodies[..|bodies| - 1]) + FrameLine(key, c, SeqOf(|bodies| - 1), bodies[|bodies| - 1])
  }

  lemma StreamOneMore(key: Key, c: u64, bodies: seq<bytes>, body: bytes)
    ensures FrameStream(key, c, bodies + [body])
         == FrameStream(key, c, bodies) + FrameLine(key, c, SeqOf(|bodies|), body)
  {
    hide FrameLine;
    assert (bodies + [body])[..|bodies|] == bodies;
  }

  // ----- dispatch -----

  /** The commands that print what the sensor, or the wake pin, makes them print. */
  predicate IsSensorVerb(t: bytes) {
    || t == Ascii("info") || t == Ascii("count") || t == Ascii("verify") || t == Ascii("identify")
    || t == Ascii("clear") || t == Ascii("clear confirm")
    || StartsWith(t, Ascii("enroll ")) || StartsWith(t, Ascii("delete "))
    || t == Ascii("wake")
  }

  datatype Dispatched = Dispatched(img: Image, printed: bytes)

  function Say(img: Image, text: bytes): Dispatched {
    Dispatched(img, text + CRLF)
  }

  function StatusText(img: Image): bytes {
    Ascii("OK paired=") + (if IsPaired(img) then Ascii("true") else Ascii("false"))
    + Ascii(" counter=") + Dec(Load(img)) + Ascii(" fmt=") + Dec(FORMAT_VERSION) + Ascii(" fw=1.1")
  }

  /** handlePair; a pairing cut short by power loss prints nothing. */
  function Pair(img: Image, args: bytes, bulkCut: nat): Dispatched {
    if IsPaired(img) then Say(img, Ascii("ERR already_paired"))
    else if |args| != 32 then Say(img, Ascii("ERR bad_args bad_key_len"))
    else match MacWire.UnHex(args)
      case None => Say(img, Ascii("ERR bad_args bad_key_hex"))
      case Some(key) =>
        UnHexLength(args);
        if bulkCut < PAIRING_LEN then Dispatched(PairingPrefix(img, key, bulkCut), [])
        else Say(PairedImage(img, key), Ascii("OK paired"))
  }

  /** handleUnpairFramed; a wipe cut short by power loss prints nothing. */
  function Unpair(img: Image, bulkCut: nat): Dispatched {
    if !IsPaired(img) then Say(img, Ascii("ERR not_paired"))
    else if bulkCut < END_ADDR then Dispatched(WipedPrefix(img, bulkCut), [])
    else Say(WipedPrefix(img, END_ADDR), Ascii("OK unpaired"))
  }

  function UnknownText(t: bytes): bytes {
    Ascii("ERR unknown_command ") + (if |t| <= 40 then t else t[..40])
  }

  /** dispatch(): `script` is what a sensor handler prints. */
  function Dispatch(img: Image, t: bytes, script: bytes, bulkCut: nat): Dispatched {
    if IsSensorVerb(t) then Dispatched(img, script)
    else if t == Ascii("status") then Say(img, StatusText(img))
    else if StartsWith(t, Ascii("pair ")) then Pair(img, t[5..], bulkCut)
    else if t == Ascii("unpair") then Unpair(img, bulkCut)
    else if t == Ascii("ping") then Say(img, Ascii("OK pong"))
    else if t == Ascii("led off") then Say(img, Ascii("OK"))
    else Say(img, UnknownText(t))
  }

  // ----- process_line -----

  /** What one input line does: the EEPROM afterwards, the bytes sent, and, if a framed
      command was dispatched, which one and the bodies it printed. */
  datatype Outcome = Outcome(img: Image, tx: bytes, dispatched: Option<Command>, bodies: seq<bytes>)

  function Reply(img: Image, text: bytes): Outcome {
    Outcome(img, text + CRLF, None, [])
  }

  function StatusName(s: FrameStatus): bytes {
    match s
    case BadLeader => Ascii("bad_frame_leader")
    case TooShortFrame => Ascii("frame_too_short")
    case BadSuffix => Ascii("bad_frame_suffix")
    case BadMacHex => Ascii("bad_mac_hex")
    case BadCounter => Ascii("bad_counter")
    case BadSeq => Ascii("bad_seq")
    case MacWrong => Ascii("mac_invalid")
  }

  function Process(img: Image, line: bytes, script: bytes, saveCut: nat, bulkCut: nat): Outcome {
    if line == Ascii("ping") then Reply(img, Ascii("OK pong"))
    else if line == Ascii("status") || !IsPaired(img) then
      var d := Dispatch(img, line, script, bulkCut);
      Outcome(d.img, d.printed, None, [])
    else if |line| < 2 || line[0] != 0x43 || line[1] != SPACE then Reply(img, Ascii("ERR mac_required"))
    else match VerifyFrame(KeyOf(img), line)
      case Err(status) => Reply(img, Ascii("ERR ") + StatusName(status))
      case Ok(command) => Admit(img, command, script, saveCut, bulkCut)
  }

  /** The rest of process_line for a command whose tag verified. */
  function Admit(img: Image, command: Command, script: bytes, saveCut: nat, bulkCut: nat): Outcome {
    if command.counter <= Load(img) then Reply(img, Ascii("ERR replay"))
    else if command.counter >= COUNTER_CEILING then Reply(img, Ascii("ERR counter_ceiling"))
    else if saveCut < CELL_SIZE then Outcome(SavedPrefix(img, command.counter, saveCut), [], None, [])
    else Execute(Saved(img, command.counter), command, script, bulkCut)
  }

  /** What follows the completed save: the length wall, then the dispatch. */
  function Execute(saved: Image, command: Command, script: bytes, bulkCut: nat): Outcome {
    if |command.text| >= BODY_BUFFER then Reply(saved, Ascii("ERR frame_body_too_long"))
    else
      var d := Dispatch(saved, CString(command.text), script, bulkCut);
      var bodies := PrintedBodies(d.printed);
      Outcome(d.img, FrameStream(KeyOf(saved), command.counter, bodies), Some(command), bodies)
  }

  // ----- loop(): assembling lines -----

  datatype Event = Quiet | Line(text: bytes) | Overflow

  function Receive(inbuf: bytes, c: byte): (bytes, Event) {
    if c == NEWLINE || c == RETURN then
      if inbuf == [] then ([], Quiet) else ([], Line(inbuf))
    else if |inbuf| + 1 >= LINE_BUFFER then ([], Overflow)
    else (inbuf + [c], Quiet)
  }

  /** What is buffered, and the lines handed to process_line, after the bytes `s`. */
  function Feed(inbuf: bytes, s: bytes): (bytes, seq<bytes>)
    decreases s
  {
    if s == [] then (inbuf, [])
    else
      var (next, event) := Receive(inbuf, s[0]);
      var (left, lines) := Feed(next, s[1..]);
      (left, (if event.Line? then [event.text] else []) + lines)
  }

  predicate PlainText(s: bytes) {
    NEWLINE !in s && RETURN !in s
  }

  /** Every line process_line sees has 1 to 127 bytes and no line terminator. */
  lemma {:induction false} LinesAreShort(inbuf: bytes, s: bytes)
    requires |inbuf| < LINE_BUFFER && PlainText(inbuf)
    ensures |Feed(inbuf, s).0| < LINE_BUFFER && PlainText(Feed(inbuf, s).0)
    ensures forall t :: t in Feed(inbuf, s).1 ==> 0 < |t| < LINE_BUFFER && PlainText(t)
    decreases s
  {
    if s != [] {
      LinesAreShort(Receive(inbuf, s[0]).0, s[1..]);
    }
  }

  /** A line of up to 127 bytes sent to an idle Nano arrives whole, and alone, at either
      terminator. */
  lemma {:induction false} LineArrives(inbuf: bytes, t: bytes, end: byte)
    requires 0 < |inbuf + t| < 128 && PlainText(t) && (end == 0x0A || end == 0x0D)
    ensures Feed(inbuf, t + [end]) == ([], [inbuf + t])
    decreases t
  {
    var s := t + [end];
    if t == [] {
      assert s[0] == end && s[1..] == [] && inbuf + t == inbuf;
      assert Feed([], s[1..]) == ([], []);
      assert [inbuf] + [] == [inbuf];
    } else {
      assert s[0] == t[0] && s[1..] == t[1..] + [end];
      assert PlainText(t[1..]) && t[0] in t;
      assert Receive(inbuf, s[0]) == (inbuf + [t[0]], Quiet);
      assert inbuf + [t[0]] + t[1..] == inbuf + t;
      LineArrives(inbuf + [t[0]], t[1..], end);
      var whole := inbuf + t;
      assert Feed(inbuf + [t[0]], s[1..]) == ([], [whole]);
      assert [] + [whole] == [whole];
    }
  }

  /** Whatever is fed to it, the loop reports an overflow, and forgets the line, exactly at a
      128th byte; a terminator after nothing does nothing. */
  lemma OverflowExactly(inbuf: bytes, c: byte)
    ensures Receive(inbuf, c) == ([], Overflow) <==> |inbuf| >= 127 && c != 0x0A && c != 0x0D
    ensures c == 0x0A || c == 0x0D ==> Receive([], c) == ([], Quiet)
  {
  }
}

/** The firmware's fixed buffers suffice for everything it prints. */
module NanoBuffers {
  import opened Bytes
  import opened Outcomes
  import opened SipHash
  import opened MacWire
  import opened Decimal
  import opened Framing
  import opened FirmwareFraming
  import opened Nano

  lemma EncodedLength(key: Key, r: Response)
    ensures |ResponseInput(r)| == 6 + |Dec(r.counter)| + |Dec(r.seq_no)| + |r.body|
    ensures |EncodeResponse(key, r)| == 23 + |Dec(r.counter)| + |Dec(r.seq_no)| + |r.body|
  {
    hide Mac, MacBytes, Dec;
  }

  /** Exactly which bodies can be framed: the 128-byte tag buffer is the tighter one. */
  lemma FitsExactly(key: Key, r: Response)
    ensures FrameFits(key, r, FRAME_BUFFER) <==> |Dec(r.counter)| + |Dec(r.seq_no)| + |r.body| <= 122
  {
    hide ResponseInput, EncodeResponse, Dec;
    EncodedLength(key, r);
  }

  /** A body that cannot be framed goes out as a warning outside any frame. */
  lemma OverlongReply(key: Key, c: u64, q: u32, body: bytes)
    requires |Dec(c)| + |Dec(q)| + |body| > 122
    ensures FrameLine(key, c, q, body) == Ascii("ERR encode_overflow") + Ascii("\r\n")
  {
    hide EncodeResponse, FrameFits, Dec, CString, Ascii;
    FitsExactly(key, Response(c, q, body));
    LineBreak();
  }

  lemma LineBreak()
    ensures CRLF == Ascii("\r\n")
  {
  }

  /** A body of at most 92 bytes is framed whatever the counter and the sequence number. */
  lemma ShortBodiesFit(key: Key, r: Response)
    requires |r.body| <= 92
    ensures FrameFits(key, r, FRAME_BUFFER)
  {
    hide Dec;
    FitsExactly(key, r);
    DecWidths(r.counter);
    DecWidths(r.seq_no);
  }

  /** 92 is the best such bound. */
  lemma LongerBodiesMayNot(key: Key, r: Response)
    requires |r.body| == 93 && r.counter == COUNTER_CEILING - 1 && r.seq_no == TWO_32 - 1
    ensures !FrameFits(key, r, FRAME_BUFFER)
  {
    FitsExactly(key, r);
    hide FrameFits, Dec;
    assert Pow10(5) == 100000;
    assert Pow10(9) == 10000 * Pow10(5);
    assert Pow10(14) == 100000 * Pow10(9);
    assert Pow10(19) == 100000 * Pow10(14);
    DecLongEnough(r.counter, 19);
    DecLongEnough(r.seq_no, 9);
  }

  lemma {:induction false} DecLongEnough(n: nat, k: nat)
    requires n >= Pow10(k)
    ensures |Dec(n)| > k
  {
    if k > 0 {
      assert n / 10 >= Pow10(k - 1);
      DecLongEnough(n / 10, k - 1);
    }
  }

  // ----- what handlers print becomes bodies -----

  lemma {:induction false} PrintPlain(f: Framer, text: bytes)
    requires PlainText(text) && |f.cur| + |text| < LINE_BUFFER
    ensures Print(f, text) == f.(cur := f.cur + text)
  {
    if text != [] {
      var n := |text| - 1;
      assert PlainText(text[..n]);
      PrintPlain(f, text[..n]);
      assert text == text[..n] + [text[n]] && text[n] in text;
    }
  }

  lemma PrintCrlf(f: Framer)
    ensures Print(f, CRLF) == Flush(f)
  {
    assert CRLF[..1] == [RETURN] && [RETURN][..0] == [];
    assert Print(f, [RETURN]) == Write(f, RETURN);
    assert Print(f, CRLF) == Write(Print(f, CRLF[..1]), NEWLINE);
  }

  lemma {:induction false} PrintFull(f: Framer, text: bytes)
    requires PlainText(text) && |f.cur| == LINE_BUFFER - 1
    ensures Print(f, text) == f
  {
    if text != [] {
      var n := |text| - 1;
      assert PlainText(text[..n]);
      PrintFull(f, text[..n]);
      assert text[n] in text;
    }
  }

  /** println of a longer one makes one body of its first 127 bytes. */
  lemma LongLinesAreCut(text: bytes)
    requires PlainText(text) && |text| >= 127
    ensures PrintedBodies(text + CRLF) == [text[..127]]
  {
    hide Print, Write, PlainText;
    var f, head, rest := Framer([], []), text[..127], text[127..];
    assert PlainText(head) && PlainText(rest) by {
      PlainParts(text, 127);
    }
    assert text == head + rest;
    PrintPlain(f, head);
    var g := f.(cur := head);
    assert [] + head == head;
    PrintFull(g, rest);
    PrintTwice(f, head, rest);
    PrintTwice(f, text, CRLF);
    PrintCrlf(g);
    assert [] + [head] == [head];
  }

  lemma PlainParts(s: bytes, k: nat)
    requires PlainText(s) && k <= |s|
    ensures PlainText(s[..k]) && PlainText(s[k..])
  {
  }

  /** println of a short plain text makes exactly one body, that text. */
  lemma PrintlnIsOneBody(text: bytes)
    requires PlainText(text) && 0 < |text| < LINE_BUFFER
    ensures PrintedBodies(text + CRLF) == [text]
  {
    hide Print, Write, PlainText;
    var f := Framer([], []);
    PrintPlain(f, text);
    PrintTwice(f, text, CRLF);
    PrintCrlf(f.(cur := text));
    assert [] + text == text && [] + [text] == [text];
  }

  /** The unknown-command echo is one body of at most 60 bytes, so it is always framed. */
  lemma UnknownAlwaysFits(key: Key, c: u64, q: u32, t: bytes)
    requires PlainText(t)
    ensures PrintedBodies(UnknownText(t) + CRLF) == [UnknownText(t)]
    ensures |UnknownText(t)| <= 60
    ensures FrameFits(key, Response(c, q, UnknownText(t)), FRAME_BUFFER)
  {
    hide FrameFits, PrintedBodies;
    var verb, echo := Ascii("ERR unknown_command "), if |t| <= 40 then t else t[..40];
    assert PlainText(verb) && PlainText(echo);
    assert PlainText(verb + echo);
    PrintlnIsOneBody(UnknownText(t));
    ShortBodiesFit(key, Response(c, q, UnknownText(t)));
  }

  /** Print::print(n, HEX): upper-case digits, no leading zero. */
  function HexNumber(n: nat): (s: bytes)
    ensures |s| > 0
    ensures forall b :: b in s ==> b >= 0x30
  {
    if n < 16 then [UpperDigit(n)] else HexNumber(n / 16) + [UpperDigit(n % 16)]
  }

  function UpperDigit(n: nat): byte
    requires n < 16
  {
    if n < 10 then 0x30 + n else 0x41 + n - 10
  }

  function Pow16(k: nat): nat {
    if k == 0 then 1 else 16 * Pow16(k - 1)
  }

  lemma {:induction false} HexNumberLength(n: nat, k: nat)
    requires k > 0 && n < Pow16(k)
    ensures |HexNumber(n)| <= k
  {
    if n >= 16 {
      HexNumberLength(n / 16, k - 1);
    }
  }

  /** The line emitInfo prints for the sensor's five fields. */
  function InfoText(capacity: nat, enrolled: nat, sysid: nat, security: nat, addr: nat): bytes {
    Ascii("OK fw=1.1 capacity=") + Dec(capacity) + Ascii(" enrolled=") + Dec(enrolled)
    + Ascii(" sysid=0x") + HexNumber(sysid) + Ascii(" security=") + Dec(security)
    + Ascii(" device_addr=0x") + HexNumber(addr)
  }

  /** The info line has at most 90 bytes, so it is always framed. */
  lemma InfoAlwaysFits(key: Key, c: u64, q: u32, capacity: nat, enrolled: nat, sysid: nat, security: nat, addr: nat)
    requires capacity < 0x1_0000 && enrolled < 0x1_0000 && sysid < 0x1_0000 && security < 0x1_0000
    requires addr < TWO_32
    ensures |InfoText(capacity, enrolled, sysid, security, addr)| <= 90
    ensures FrameFits(key, Response(c, q, InfoText(capacity, enrolled, sysid, security, addr)), FRAME_BUFFER)
  {
    hide FrameFits, Dec, HexNumber;
    assert Pow10(5) == 100000 && Pow16(4) == 0x1_0000 && Pow16(8) == 0x1_0000 * Pow16(4);
    DecLength(capacity, 5);
    DecLength(enrolled, 5);
    DecLength(security, 5);
    HexNumberLength(sysid, 4);
    HexNumberLength(addr, 8);
    ShortBodiesFit(key, Response(c, q, InfoText(capacity, enrolled, sysid, security, addr)));
  }

  // ----- commands -----

  /** On every line loop() can pass on, the firmware's verifier and the daemon's agree, but
      for lines below 24 bytes: the command tag buffer never overflows. */
  lemma LoopLinesVerifyAlike(key: Key, s: bytes, line: bytes, c: Command)
    requires line in Feed([], s).1
    ensures VerifyFrame(key, line) == Ok(c) <==> VerifyCommand(key, line) == Ok(c) && |line| >= 24
  {
    hide VerifyFrame, VerifyCommand;
    LinesAreShort([], s);
    VerifiersAgree(key, line, c);
  }

  // ----- frames read back -----

  lemma {:induction false} HexHasNoNul(s: bytes)
    ensures forall b :: b in Hex(s) ==> b >= 0x30
  {
    if s != [] {
      HexHasNoNul(s[1..]);
      assert forall b :: b in HexByte(s[0]) ==> b >= 0x30;
    }
  }

  lemma FrameHasNoNul(head: bytes, c: bytes, q: bytes, body: bytes, mac: bytes)
    requires head == c + [SPACE] + q + [SPACE] + body
    requires 0 !in c && 0 !in q && 0 !in body && 0 !in mac
    ensures 0 !in R_LEADER + head + (M_MARK + mac)
  {
    assert 0 !in c + [SPACE] + q + [SPACE];
    assert 0 !in R_LEADER + head;
    assert 0 !in M_MARK + mac;
  }

  lemma EncodedHasNoNul(key: Key, r: Response)
    requires 0 !in r.body
    ensures 0 !in EncodeResponse(key, r)
  {
    var mac := Mac(key, ResponseInput(r));
    HexHasNoNul(MacBytes(mac));
    hide Mac, MacBytes, Hex, ResponseInput, Dec;
    assert 0 !in Dec(r.counter) && 0 !in Dec(r.seq_no);
    FrameHasNoNul(ResponseHead(r), Dec(r.counter), Dec(r.seq_no), r.body, Hex(MacBytes(mac)));
  }

  /** A framed body free of NULs goes out as the frame itself. */
  lemma FrameLineIs(key: Key, c: u64, q: u32, body: bytes)
    requires 0 !in body && FrameFits(key, Response(c, q, body), FRAME_BUFFER)
    ensures FrameLine(key, c, q, body) == EncodeResponse(key, Response(c, q, body)) + CRLF
  {
    hide EncodeResponse, FrameFits;
    EncodedHasNoNul(key, Response(c, q, body));
  }
}

/** The firmware's wire framing: fixed buffers, pointer offsets and status codes, and its
    agreement with the daemon's. */
module FirmwareFraming {
  import opened Bytes
  import opened Outcomes
  import opened SipHash
  import opened MacWire
  import opened Decimal
  import opened Framing

  const MAC_BUFFER: nat := 128

  // ----- buffers -----

  method Memcpy(out: array<byte>, off: nat, src: bytes)
    requires off + |src| <= out.Length
    modifies out
    ensures out[..] == Spliced(old(out[..]), off, src)
    ensures out[..off + |src|] == old(out[..off]) + src
  {
    hide Spliced;
    ghost var was := out[..];
    SplicedNothing(was, off);
    assert src[..0] == [];
    for i := 0 to |src|
      invariant out[..] == Spliced(was, off, src[..i])
    {
      SplicedOneMore(was, off, src[..i], src[i]);
      assert src[..i + 1] == src[..i] + [src[i]];
      Put(out, off + i, src[i]);
    }
    assert src[..|src|] == src;
    SplicedPrefix(was, off, src, |src|);
  }

  /** hex_to_bytes on the first `hexLen` characters at `hex`. */
  method HexToBytes(hex: bytes, hexLen: nat, out: array<byte>, outMax: nat) returns (ok: bool, outLen: nat)
    requires hexLen <= |hex| && outMax <= out.Length
    modifies out
    ensures ok == (hexLen % 2 == 0 && hexLen / 2 <= outMax && UnHex(hex[..hexLen]).Some?)
    ensures ok ==> outLen == hexLen / 2 && out[..outLen] == UnHex(hex[..hexLen]).value
  {
    outLen := 0;
    if hexLen % 2 != 0 {
      return false, 0;
    }
    var n := hexLen / 2;
    if n > outMax {
      return false, 0;
    }
    ghost var h := hex[..hexLen];
    assert h[0..] == h && UnHex(h).Some? ==> [] + UnHex(h).value == UnHex(h).value;
    for i := 0 to n
      invariant UnHex(h) == Prefixed(out[..i], UnHex(h[2 * i..]))
    {
      var hi := Nybble(hex[i * 2]);
      var lo := Nybble(hex[i * 2 + 1]);
      assert h[2 * i..][2..] == h[2 * (i + 1)..];
      if hi.None? {
        return false, 0;
      }
      if lo.None? {
        return false, 0;
      }
      ghost var before := out[..i];
      PrefixedTwice(before, [16 * hi.value + lo.value], UnHex(h[2 * (i + 1)..]));
      out[i] := hi.value * 16 + lo.value;
      assert out[..i + 1] == before + [out[i]];
    }
    assert h[2 * n..] == [];
    return true, n;
  }

  /** bytes_to_hex: digits at `out + off`, then a NUL. */
  method BytesToHex(input: bytes, out: array<byte>, off: nat)
    requires off + 2 * |input| + 1 <= out.Length
    modifies out
    ensures out[..] == Spliced(old(out[..]), off, Hex(input) + [0])
  {
    hide Spliced, HexByte, Hex, HexDigit;
    ghost var was := out[..];
    SplicedNothing(was, off);
    assert input[..0] == [] && Hex([]) == [] by {
      HexOfNothing();
    }
    for i := 0 to |input|
      invariant out[..] == Spliced(was, off, Hex(input[..i]))
    {
      HexOneMore(input, i);
      ghost var done := Hex(input[..i]);
      SplicedOneMore(was, off, done, HexDigit(input[i] / 16));
      Put(out, off + i * 2, HexDigit(input[i] / 16));
      SplicedOneMore(was, off, done + [HexDigit(input[i] / 16)], HexDigit(input[i] % 16));
      Put(out, off + i * 2 + 1, HexDigit(input[i] % 16));
    }
    assert input[..|input|] == input;
    SplicedOneMore(was, off, Hex(input), 0);
    Put(out, off + 2 * |input|, 0);
  }

  lemma HexOfNothing()
    ensures Hex([]) == []
  {
  }

  lemma {:induction false} HexAppend(s: bytes, t: bytes)
    ensures Hex(s + t) == Hex(s) + Hex(t)
  {
    if s == [] {
      assert s + t == t;
    } else {
      hide HexByte;
      HexAppend(s[1..], t);
      assert (s + t)[1..] == s[1..] + t;
      assert HexByte(s[0]) + (Hex(s[1..]) + Hex(t)) == HexByte(s[0]) + Hex(s[1..]) + Hex(t);
    }
  }

  lemma HexOneMore(s: bytes, i: nat)
    requires i < |s|
    ensures Hex(s[..i + 1]) == Hex(s[..i]) + [HexDigit(s[i] / 16)] + [HexDigit(s[i] % 16)]
  {
    assert s[..i + 1] == s[..i] + [s[i]];
    HexAppend(s[..i], [s[i]]);
    assert Hex([s[i]]) == HexByte(s[i]) + Hex([]);
  }

  /** siphash_to_le_bytes: byte i is the tag shifted right by 8i bits. */
  method SiphashToLeBytes(mac: word) returns (out: bytes)
    ensures out == MacBytes(mac)
  {
    hide Low, Down, WordBytes;
    out := [];
    var m := mac;
    for i := 0 to 8
      invariant |out| == i && out + WordBytes(m, 8 - i) == MacBytes(mac)
    {
      ghost var rest := WordBytes(Down(m), 7 - i);
      NextWordByte(m, 8 - i);
      assert out + ([Low(m) as int] + rest) == out + [Low(m) as int] + rest;
      out := out + [Low(m) as int];
      m := Down(m);
    }
  }

  lemma {:induction false} NextWordByte(m: word, k: nat)
    requires k > 0
    ensures WordBytes(m, k) == [Low(m) as int] + WordBytes(Down(m), k - 1)
  {
    hide Low, Down;
  }

  // ----- tags -----

  method ComputeCmdMac(key: Key, counter: u64, cmdLine: bytes) returns (ok: bool, mac: bytes)
    ensures ok == (|CommandInput(Command(counter, cmdLine))| <= MAC_BUFFER)
    ensures ok ==> mac == MacBytes(Mac(key, CommandInput(Command(counter, cmdLine))))
  {
    hide Spliced, Mac, MacBytes, Dec;
    var buf := new byte[128];
    var off := 0;
    if off + 4 > 128 {
      return false, [];
    }
    Memcpy(buf, off, CMD_TAG);
    off := off + 4;
    var n := FormatU64(counter, buf, off);
    off := off + n;
    if off + 1 > 128 {
      return false, [];
    }
    off := PutNext(buf, off, SPACE);
    if off + |cmdLine| > 128 {
      return false, [];
    }
    Memcpy(buf, off, cmdLine);
    off := off + |cmdLine|;
    assert buf[..off] == CommandInput(Command(counter, cmdLine));
    var m := SipHash24Firmware(key, buf[..], off);
    assert buf[..][..off] == buf[..off];
    mac := SiphashToLeBytes(m);
    return true, mac;
  }

  method ComputeRespMac(key: Key, counter: u64, seq_no: u32, body: bytes) returns (ok: bool, mac: bytes)
    ensures ok == (|ResponseInput(Response(counter, seq_no, body))| <= MAC_BUFFER)
    ensures ok ==> mac == MacBytes(Mac(key, ResponseInput(Response(counter, seq_no, body))))
  {
    hide Spliced, Mac, MacBytes, Dec;
    var buf := new byte[128];
    var off := 0;
    if off + 4 > 128 {
      return false, [];
    }
    Memcpy(buf, off, RSP_TAG);
    off := off + 4;
    var n := FormatU64(counter, buf, off);
    off := off + n;
    if off + 1 > 128 {
      return false, [];
    }
    off := PutNext(buf, off, SPACE);
    n := FormatU32(seq_no, buf, off);
    off := off + n;
    if off + 1 > 128 {
      return false, [];
    }
    off := PutNext(buf, off, SPACE);
    if off + |body| > 128 {
      return false, [];
    }
    Memcpy(buf, off, body);
    off := off + |body|;
    assert buf[..off] == ResponseInput(Response(counter, seq_no, body));
    var m := SipHash24Firmware(key, buf[..], off);
    assert buf[..][..off] == buf[..off];
    mac := SiphashToLeBytes(m);
    return true, mac;
  }

  // ----- command frames -----

  datatype FrameStatus =
    | BadLeader
    | TooShortFrame
    | BadSuffix
    | BadMacHex
    | BadCounter
    | BadSeq
    | MacWrong

  /** What parse_command_frame decides about a line. */
  function ParseFrame(line: bytes): Result<(Command, bytes), FrameStatus> {
    if |line| < 24 then Err(TooShortFrame)
    else if line[0] != 0x43 || line[1] != SPACE then Err(BadLeader)
    else
      var suffix := line[|line| - MAC_SUFFIX_LEN..];
      if suffix[..3] != M_MARK then Err(BadSuffix)
      else if UnHex(suffix[3..]).None? then Err(BadMacHex)
      else
        var command :- SplitFrameBody(line[2..|line| - MAC_SUFFIX_LEN]);
        Ok((command, UnHex(suffix[3..]).value))
  }

  function SplitFrameBody(body: bytes): Result<Command, FrameStatus> {
    var sp := IndexOf(body, SPACE);
    if sp == 0 || sp >= |body| then Err(TooShortFrame)
    else match ParseStrictU64(body[..sp])
      case None => Err(BadCounter)
      case Some(counter) => Ok(Command(counter, body[sp + 1..]))
  }

  method ParseCommandFrame(line: bytes) returns (r: Result<(Command, bytes), FrameStatus>)
    ensures r == ParseFrame(line)
  {
    if |line| < 24 {
      return Err(TooShortFrame);
    }
    if line[0] != 0x43 || line[1] != 0x20 {
      return Err(BadLeader);
    }
    var suffixLen := 3 + 16;
    if |line| < 2 + suffixLen {
      return Err(TooShortFrame);
    }
    var suffix := line[|line| - suffixLen..];
    if suffix[0] != 0x20 || suffix[1] != 0x4D || suffix[2] != 0x20 {
      assert suffix[..3] != M_MARK by {
        assert suffix[..3][0] == suffix[0] && suffix[..3][1] == suffix[1] && suffix[..3][2] == suffix[2];
      }
      return Err(BadSuffix);
    }
    assert suffix[..3] == M_MARK;
    var mac := new byte[8];
    var ok, macLen := HexToBytes(suffix[3..], 16, mac, 8);
    assert suffix[3..][..16] == suffix[3..];
    if !ok || macLen != 8 {
      return Err(BadMacHex);
    }
    var body := line[2..|line| - suffixLen];
    var sp := 0;
    while sp < |body| && body[sp] != SPACE
      invariant sp <= |body|
      invariant forall j :: 0 <= j < sp ==> body[j] != SPACE
    {
      sp := sp + 1;
    }
    IndexOfIs(body, SPACE, sp);
    if sp == 0 || sp >= |body| {
      return Err(TooShortFrame);
    }
    var counter := ParseU64(body, sp);
    if counter.None? {
      return Err(BadCounter);
    }
    return Ok((Command(counter.value, body[sp + 1..]), mac[..macLen]));
  }

  /** What verify_command_frame decides: a command too long for the tag buffer counts as
      too short a frame. */
  function VerifyFrame(key: Key, line: bytes): Result<Command, FrameStatus> {
    var (command, claimed) :- ParseFrame(line);
    if |CommandInput(command)| > MAC_BUFFER then Err(TooShortFrame)
    else if MacBytes(Mac(key, CommandInput(command))) != claimed then Err(MacWrong)
    else Ok(command)
  }

  method VerifyCommandFrame(key: Key, line: bytes) returns (r: Result<Command, FrameStatus>)
    ensures r == VerifyFrame(key, line)
  {
    hide Mac, MacBytes;
    var parsed := ParseCommandFrame(line);
    if parsed.Err? {
      return Err(parsed.error);
    }
    var (command, claimed) := parsed.value;
    var ok, computed := ComputeCmdMac(key, command.counter, command.text);
    if !ok {
      return Err(TooShortFrame);
    }
    var differ := false;
    assert |claimed| == 8 by {
      ParsedMacLength(line);
    }
    for i := 0 to 8
      invariant differ <==> claimed[..i] != computed[..i]
    {
      assert claimed[..i + 1] == claimed[..i] + [claimed[i]];
      assert computed[..i + 1] == computed[..i] + [computed[i]];
      differ := differ || claimed[i] != computed[i];
    }
    assert claimed[..8] == claimed && computed[..8] == computed;
    if differ {
      return Err(MacWrong);
    }
    return Ok(command);
  }

  lemma {:induction false} UnHexLength(h: bytes)
    requires UnHex(h).Some?
    ensures |h| == 2 * |UnHex(h).value|
  {
    if h != [] {
      UnHexLength(h[2..]);
    }
  }

  lemma ParsedMacLength(line: bytes)
    requires ParseFrame(line).Ok?
    ensures |ParseFrame(line).value.1| == 8
  {
    UnHexLength(line[|line| - MAC_SUFFIX_LEN..][3..]);
  }

  // ----- response frames -----

  /** Exactly when encode_response_frame can build a frame into `outMax` bytes. */
  predicate FrameFits(key: Key, r: Response, outMax: nat) {
    |ResponseInput(r)| <= MAC_BUFFER && |EncodeResponse(key, r)| + 1 <= outMax
  }

  /** encode_response_frame up to the body; 0 on overflow. The caller's buffer must leave
      room for a counter and a seq to be printed before the length tests that follow them. */
  method PrintResponseHead(counter: u64, seq_no: u32, body: bytes, out: array<byte>) returns (off: int)
    requires out.Length >= 46
    modifies out
    ensures off >= 0 && (off > 0 <==> 2 + |ResponseHead(Response(counter, seq_no, body))| <= out.Length)
    ensures off > 0 ==> off <= out.Length && out[..off] == R_LEADER + ResponseHead(Response(counter, seq_no, body))
  {
    hide Spliced, Dec;
    DecWidths(counter);
    ghost var c, q := Dec(counter), Dec(seq_no);
    HeadLength(Response(counter, seq_no, body));
    off := PutNext(out, 0, 0x52);
    off := PutNext(out, off, SPACE);
    assert out[..off] == R_LEADER;
    var k := FormatU64(counter, out, off);
    if off + k > out.Length {
      return 0;
    }
    off := off + k;
    if off + 1 > out.Length {
      return 0;
    }
    off := PutNext(out, off, SPACE);
    assert out[..off] == R_LEADER + c + [SPACE];
    k := FormatU32(seq_no, out, off);
    if off + k > out.Length {
      return 0;
    }
    off := off + k;
    if off + 1 > out.Length {
      return 0;
    }
    off := PutNext(out, off, SPACE);
    assert out[..off] == R_LEADER + c + [SPACE] + q + [SPACE];
    if off + |body| > out.Length {
      return 0;
    }
    Memcpy(out, off, body);
    off := off + |body|;
    Regroup(R_LEADER, c, q, body);
  }

  lemma HeadLength(r: Response)
    ensures |ResponseHead(r)| == |Dec(r.counter)| + |Dec(r.seq_no)| + |r.body| + 2
  {
  }

  lemma Regroup(leader: bytes, c: bytes, q: bytes, body: bytes)
    ensures leader + c + [SPACE] + q + [SPACE] + body == leader + (c + [SPACE] + q + [SPACE] + body)
  {
  }

  /** The end of encode_response_frame: the tag and a NUL after the first `at` bytes. */
  method PrintTag(mac: bytes, out: array<byte>, at: nat) returns (off: nat)
    requires |mac| == 8 && at <= out.Length
    modifies out
    ensures off > 0 <==> at + 20 <= out.Length
    ensures off > 0 ==> off == at + 19 && out[..off] == old(out[..at]) + M_MARK + Hex(mac) && out[off] == 0
  {
    hide Spliced, Hex;
    off := at;
    if off + 3 > out.Length {
      return 0;
    }
    off := PutNext(out, off, SPACE);
    off := PutNext(out, off, 0x4D);
    off := PutNext(out, off, SPACE);
    if off + 16 + 1 > out.Length {
      return 0;
    }
    ghost var before := out[..];
    BytesToHex(mac, out, off);
    PrintedPrefix(before, out[..], off, Hex(mac));
    assert out[..][off..off + 17] == Hex(mac) + [0];
    off := off + 16;
    assert out[off] == (Hex(mac) + [0])[16];
  }

  method EncodeResponseFrame(key: Key, counter: u64, seq_no: u32, body: bytes, out: array<byte>) returns (n: nat)
    requires out.Length >= 46
    modifies out
    ensures n > 0 <==> FrameFits(key, Response(counter, seq_no, body), out.Length)
    ensures n > 0 ==> n < out.Length && out[..n] == EncodeResponse(key, Response(counter, seq_no, body)) && out[n] == 0
  {
    hide Mac, MacBytes, Dec, Hex, ResponseInput;
    ghost var r := Response(counter, seq_no, body);
    ghost var mac := Mac(key, ResponseInput(r));
    assert |EncodeResponse(key, r)| == 2 + |ResponseHead(r)| + 19;
    var ok, tag := ComputeRespMac(key, counter, seq_no, body);
    if !ok {
      return 0;
    }
    var off := PrintResponseHead(counter, seq_no, body, out);
    if off == 0 {
      return 0;
    }
    n := PrintTag(tag, out, off);
    assert R_LEADER + ResponseHead(r) + (M_MARK + Hex(tag)) == R_LEADER + ResponseHead(r) + M_MARK + Hex(tag);
  }

  // ----- agreement with the daemon -----

  lemma BodiesAgree(body: bytes)
    ensures SplitFrameBody(body).Ok? <==> SplitCounterBody(body).Ok?
    ensures SplitFrameBody(body).Ok? ==> SplitFrameBody(body).value == SplitCounterBody(body).value
  {
  }

  /** The firmware's parser accepts a line exactly when the daemon's does and the line has
      at least 24 bytes, with the same counter, command and tag. */
  lemma ParsersAgree(line: bytes, c: Command, mac: word)
    ensures ParseFrame(line) == Ok((c, MacBytes(mac)))
       <==> ParseCommand(line) == Ok((c, mac)) && |line| >= 24
  {
    hide MacBytes, Word, UnHex, SplitFrameBody, SplitCounterBody;
    if |line| >= 24 {
      var rest := line[2..];
      var at := |rest| - MAC_SUFFIX_LEN;
      var suffix := line[|line| - MAC_SUFFIX_LEN..];
      assert line[..2] == C_LEADER <==> line[0] == 0x43 && line[1] == SPACE;
      assert rest[at..] == suffix && rest[..at] == line[2..|line| - MAC_SUFFIX_LEN];
      BodiesAgree(rest[..at]);
      assert suffix[..3] == M_MARK ==> suffix[..3][0] == SPACE && rest[at] == SPACE;
      if UnHex(suffix[3..]).Some? {
        UnHexLength(suffix[3..]);
        MacBytesRoundTrip(mac, UnHex(suffix[3..]).value);
      }
    }
  }

  lemma CommandLineLength(line: bytes, c: Command, mac: word)
    requires ParseCommand(line) == Ok((c, mac))
    ensures |line| == 22 + |Dec(c.counter)| + |c.text|
  {
    hide Canonicalized;
    ParseCommandExact(line, c, mac);
  }

  /** The only lines the daemon parses and the firmware refuses carry a one-digit counter
      and no command. */
  lemma OnlyEmptyCommandsDiffer(line: bytes, c: Command, mac: word)
    requires ParseCommand(line) == Ok((c, mac))
    ensures ParseFrame(line).Err? <==> c.counter < 10 && c.text == []
  {
    CommandLineLength(line, c, mac);
    ParsersAgree(line, c, mac);
    if c.counter >= 10 {
      assert |Dec(c.counter)| >= 2;
    }
  }

  /** The two verifiers accept the same command under every key, on every line of 24 to 145
      bytes; outside that the firmware accepts nothing. */
  lemma VerifiersAgree(key: Key, line: bytes, c: Command)
    ensures VerifyFrame(key, line) == Ok(c)
       <==> VerifyCommand(key, line) == Ok(c) && 24 <= |line| <= 145
  {
    hide Mac, MacBytes, ParseFrame, ParseCommand;
    var mac := Mac(key, CommandInput(c));
    ParsersAgree(line, c, mac);
    if ParseCommand(line) == Ok((c, mac)) {
      CommandLineLength(line, c, mac);
    }
    if ParseCommand(line).Ok? {
      var (got, claimed) := ParseCommand(line).value;
      assert VerifyCommand(key, line) == Ok(c) <==> got == c && claimed == mac;
    }
    if ParseFrame(line).Ok? {
      var (got, claimed) := ParseFrame(line).value;
      assert VerifyFrame(key, line) == Ok(c)
        <==> got == c && claimed == MacBytes(mac) && |CommandInput(c)| <= MAC_BUFFER;
    }
  }
}

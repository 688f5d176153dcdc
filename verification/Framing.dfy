/** The daemon's wire framing: command and response lines, their tags and parsers.
    Lines are byte strings; a Rust string is its UTF-8 bytes. */
module Framing {
  import opened Bytes
  import opened Outcomes
  import opened SipHash
  import opened MacWire
  import opened Decimal

  const MAC_HEX_LEN: nat := 16
  const MAC_SUFFIX_LEN: nat := 19

  type Key = k: bytes | |k| == 16 witness seq(16, _ => 0)

  // "CMD ", "RSP ", "C ", "R ", " M "
  const CMD_TAG: bytes := [0x43, 0x4D, 0x44, 0x20]
  const RSP_TAG: bytes := [0x52, 0x53, 0x50, 0x20]
  const C_LEADER: bytes := [0x43, 0x20]
  const R_LEADER: bytes := [0x52, 0x20]
  const M_MARK: bytes := [0x20, 0x4D, 0x20]

  datatype FramingError =
    | TooShort(len: nat)
    | WrongLeader(expected: byte)
    | MissingMacSuffix
    | InvalidMac
    | InvalidCounter
    | InvalidSeq
    | MacMismatch

  datatype Command = Command(counter: u64, text: bytes)
  datatype Response = Response(counter: u64, seq_no: u32, body: bytes)

  // ----- what the tags cover -----

  function CommandInput(c: Command): bytes {
    CMD_TAG + Dec(c.counter) + [SPACE] + c.text
  }

  function ResponseInput(r: Response): bytes {
    RSP_TAG + Dec(r.counter) + [SPACE] + Dec(r.seq_no) + [SPACE] + r.body
  }

  function MacSuffix(mac: word): bytes {
    M_MARK + Hex(MacBytes(mac))
  }

  // ----- encoders -----

  function CommandHead(c: Command): bytes {
    Dec(c.counter) + [SPACE] + c.text
  }

  function ResponseHead(r: Response): bytes {
    Dec(r.counter) + [SPACE] + Dec(r.seq_no) + [SPACE] + r.body
  }

  function EncodeCommand(key: Key, c: Command): bytes {
    C_LEADER + CommandHead(c) + MacSuffix(Mac(key, CommandInput(c)))
  }

  function EncodeResponse(key: Key, r: Response): bytes {
    R_LEADER + ResponseHead(r) + MacSuffix(Mac(key, ResponseInput(r)))
  }

  // ----- parsers -----

  function StripPrefix(s: bytes, p: bytes): Option<bytes> {
    if StartsWith(s, p) then Some(s[|p|..]) else None
  }

  /** A UTF-8 continuation byte does not start a character. */
  predicate IsCharBoundary(s: bytes, i: nat)
    requires i <= |s|
  {
    i == 0 || i == |s| || !(0x80 <= s[i] < 0xC0)
  }

  function SplitMacSuffix(s: bytes): Result<(bytes, word), FramingError> {
    if |s| < MAC_SUFFIX_LEN then Err(TooShort(|s|))
    else
      var at := |s| - MAC_SUFFIX_LEN;
      if !IsCharBoundary(s, at) then Err(MissingMacSuffix)
      else
        var head, suffix := s[..at], s[at..];
        if suffix[..3] != M_MARK then Err(MissingMacSuffix)
        else match ParseMacHex(suffix[3..])
          case None => Err(InvalidMac)
          case Some(mac) => Ok((head, mac))
  }

  function SplitCounterBody(s: bytes): Result<Command, FramingError> {
    var sp := IndexOf(s, SPACE);
    if sp == |s| then Err(TooShort(|s|))
    else match ParseStrictU64(s[..sp])
      case None => Err(InvalidCounter)
      case Some(counter) => Ok(Command(counter, s[sp + 1..]))
  }

  function ParseCommand(line: bytes): Result<(Command, word), FramingError> {
    match StripPrefix(line, C_LEADER)
    case None => Err(WrongLeader(0x43))
    case Some(rest) =>
      var (head, mac) :- SplitMacSuffix(rest);
      var command :- SplitCounterBody(head);
      Ok((command, mac))
  }

  function VerifyCommand(key: Key, line: bytes): Result<Command, FramingError> {
    var (command, claimed) :- ParseCommand(line);
    if Mac(key, CommandInput(command)) == claimed then Ok(command) else Err(MacMismatch)
  }

  function ParseResponse(line: bytes): Result<(Response, word), FramingError> {
    match StripPrefix(line, R_LEADER)
    case None => Err(WrongLeader(0x52))
    case Some(rest) =>
      var (head, mac) :- SplitMacSuffix(rest);
      var response :- SplitResponseHead(head);
      Ok((response, mac))
  }

  function SplitResponseHead(head: bytes): Result<Response, FramingError> {
    var sp1 := IndexOf(head, SPACE);
    if sp1 == |head| then Err(TooShort(|head|))
    else match ParseStrictU64(head[..sp1])
      case None => Err(InvalidCounter)
      case Some(counter) =>
        var rest := head[sp1 + 1..];
        var sp2 := IndexOf(rest, SPACE);
        if sp2 == |rest| then Err(TooShort(|rest|))
        else match ParseStrictU32(rest[..sp2])
          case None => Err(InvalidSeq)
          case Some(seq_no) => Ok(Response(counter, seq_no, rest[sp2 + 1..]))
  }

  function VerifyResponse(key: Key, line: bytes): Result<Response, FramingError> {
    var (response, claimed) :- ParseResponse(line);
    if Mac(key, ResponseInput(response)) == claimed then Ok(response) else Err(MacMismatch)
  }

  // ----- heads -----

  /** A number followed by a space is read back off the front of any text. */
  lemma FindSpaceAfter(number: nat, rest: bytes)
    ensures IndexOf(Dec(number) + [SPACE] + rest, SPACE) == |Dec(number)|
  {
    var s := Dec(number) + [SPACE] + rest;
    assert s[|Dec(number)|] == SPACE;
    forall j | 0 <= j < |Dec(number)| ensures s[j] != SPACE {
      assert s[j] == Dec(number)[j] && Dec(number)[j] in Dec(number);
    }
  }

  lemma SplitCommandExact(head: bytes, c: Command)
    ensures SplitCounterBody(head) == Ok(c) <==> head == CommandHead(c)
  {
    hide ParseStrictU64, Dec;
    var sp := IndexOf(head, SPACE);
    if head == CommandHead(c) {
      FindSpaceAfter(c.counter, c.text);
      assert head[..sp] == Dec(c.counter) && head[sp + 1..] == c.text;
      ParseStrictU64Exact(head[..sp], c.counter);
    }
    if SplitCounterBody(head) == Ok(c) {
      ParseStrictU64Exact(head[..sp], c.counter);
      assert head == head[..sp] + [SPACE] + head[sp + 1..];
    }
  }

  lemma SplitResponseReads(r: Response)
    ensures SplitResponseHead(ResponseHead(r)) == Ok(r)
  {
    hide ParseStrictU64, ParseStrictU32, Dec, IndexOf;
    var head, tail := ResponseHead(r), Dec(r.seq_no) + [SPACE] + r.body;
    assert head == Dec(r.counter) + [SPACE] + tail;
    FindSpaceAfter(r.counter, tail);
    FindSpaceAfter(r.seq_no, r.body);
    var sp1, sp2 := IndexOf(head, SPACE), IndexOf(tail, SPACE);
    assert head[..sp1] == Dec(r.counter) && head[sp1 + 1..] == tail;
    assert tail[..sp2] == Dec(r.seq_no) && tail[sp2 + 1..] == r.body;
    ParseStrictU64Exact(head[..sp1], r.counter);
    ParseStrictU32Exact(tail[..sp2], r.seq_no);
  }

  lemma SplitResponseWrites(head: bytes, r: Response)
    requires SplitResponseHead(head) == Ok(r)
    ensures head == ResponseHead(r)
  {
    hide ParseStrictU64, ParseStrictU32, Dec, IndexOf;
    var sp1 := IndexOf(head, SPACE);
    var rest := head[sp1 + 1..];
    var sp2 := IndexOf(rest, SPACE);
    ParseStrictU64Exact(head[..sp1], r.counter);
    ParseStrictU32Exact(rest[..sp2], r.seq_no);
    assert head == head[..sp1] + [SPACE] + rest;
    assert rest == rest[..sp2] + [SPACE] + rest[sp2 + 1..];
    Reassociate(Dec(r.counter) + [SPACE], Dec(r.seq_no) + [SPACE], r.body);
  }

  lemma Reassociate(a: bytes, b: bytes, c: bytes)
    ensures a + (b + c) == a + b + c
  {
  }

  lemma SplitResponseExact(head: bytes, r: Response)
    ensures SplitResponseHead(head) == Ok(r) <==> head == ResponseHead(r)
  {
    hide SplitResponseHead, ResponseHead;
    SplitResponseReads(r);
    if SplitResponseHead(head) == Ok(r) {
      SplitResponseWrites(head, r);
    }
  }

  // ----- tag suffixes -----

  /** The line with its last sixteen characters in lower case. */
  function Canonicalized(line: bytes): (r: bytes)
    ensures |r| == |line|
  {
    if |line| < MAC_HEX_LEN then line
    else line[..|line| - MAC_HEX_LEN] + Lowered(line[|line| - MAC_HEX_LEN..])
  }

  lemma SplitMacReads(s: bytes, head: bytes, mac: word)
    requires Canonicalized(s) == head + MacSuffix(mac)
    ensures SplitMacSuffix(s) == Ok((head, mac))
  {
    hide ParseMacHex, Hex, MacBytes, Lowered;
    var n, c := |s|, Canonicalized(s);
    var at := n - MAC_SUFFIX_LEN;
    assert |head| == at;
    assert c[..at] == head == s[..at] && c[at..] == MacSuffix(mac);
    assert c[at..] == s[at..][..3] + Lowered(s[n - MAC_HEX_LEN..]);
    assert c[at..][..3] == M_MARK && c[at..][3..] == Hex(MacBytes(mac));
    assert s[at..][3..] == s[n - MAC_HEX_LEN..];
    assert s[at] == s[at..][..3][0];
    ParseMacHexExact(s[at..][3..], mac);
  }

  lemma SplitMacWrites(s: bytes, head: bytes, mac: word)
    requires SplitMacSuffix(s) == Ok((head, mac))
    ensures Canonicalized(s) == head + MacSuffix(mac)
  {
    hide ParseMacHex, Hex, MacBytes, Lowered;
    var n, c := |s|, Canonicalized(s);
    var at := n - MAC_SUFFIX_LEN;
    ParseMacHexExact(s[at..][3..], mac);
    assert s[at..][3..] == s[n - MAC_HEX_LEN..];
    assert c[at..] == s[at..][..3] + Lowered(s[n - MAC_HEX_LEN..]);
    assert c[..at] == s[..at];
    assert c == c[..at] + c[at..];
  }

  lemma SplitMacExact(s: bytes, head: bytes, mac: word)
    ensures SplitMacSuffix(s) == Ok((head, mac)) <==> Canonicalized(s) == head + MacSuffix(mac)
  {
    hide SplitMacSuffix, Canonicalized, MacSuffix;
    if Canonicalized(s) == head + MacSuffix(mac) {
      SplitMacReads(s, head, mac);
    }
    if SplitMacSuffix(s) == Ok((head, mac)) {
      SplitMacWrites(s, head, mac);
    }
  }

  // ----- canonical frames -----

  lemma CanonicalAfter(leader: bytes, s: bytes)
    requires |s| >= MAC_HEX_LEN
    ensures Canonicalized(leader + s) == leader + Canonicalized(s)
  {
    hide Lowered;
    var line, at := leader + s, |s| - MAC_HEX_LEN;
    assert line[..|leader| + at] == leader + s[..at];
    assert line[|leader| + at..] == s[at..];
    Reassociate(leader, s[..at], Lowered(s[at..]));
  }

  lemma CanonicalTail(leader: bytes, s: bytes, text: bytes)
    requires |s| >= MAC_HEX_LEN
    ensures Canonicalized(leader + s) == leader + text <==> Canonicalized(s) == text
  {
    hide Canonicalized;
    CanonicalAfter(leader, s);
    assert (leader + Canonicalized(s))[|leader|..] == Canonicalized(s);
    assert (leader + text)[|leader|..] == text;
  }

  /** A line that, canonicalized, starts with the leader starts with it already. */
  lemma LeaderKept(leader: bytes, line: bytes, text: bytes)
    requires |text| >= MAC_SUFFIX_LEN
    requires Canonicalized(line) == leader + text
    ensures StripPrefix(line, leader).Some?
    ensures line == leader + line[|leader|..] && |line| - |leader| >= MAC_SUFFIX_LEN
  {
    hide Lowered;
    assert line[..|leader|] == Canonicalized(line)[..|leader|];
  }

  lemma SuffixLength(mac: word)
    ensures |MacSuffix(mac)| == MAC_SUFFIX_LEN
  {
  }

  /** Command lines: the parser accepts exactly the printed forms, in either hex case. */
  lemma ParseCommandExact(line: bytes, c: Command, mac: word)
    ensures ParseCommand(line) == Ok((c, mac))
       <==> Canonicalized(line) == C_LEADER + (CommandHead(c) + MacSuffix(mac))
  {
    SuffixLength(mac);
    hide CommandHead, MacSuffix, SplitMacSuffix, SplitCounterBody, Canonicalized;
    var text := CommandHead(c) + MacSuffix(mac);
    var rest := StripPrefix(line, C_LEADER);
    if Canonicalized(line) == C_LEADER + text {
      LeaderKept(C_LEADER, line, text);
    }
    if rest.Some? {
      var s := rest.value;
      assert line == C_LEADER + s;
      SplitMacExact(s, CommandHead(c), mac);
      SplitCommandExact(CommandHead(c), c);
      if |s| >= MAC_HEX_LEN {
        CanonicalTail(C_LEADER, s, text);
      } else {
        TooShortForMac(s);
      }
      if ParseCommand(line) == Ok((c, mac)) {
        SplitCommandExact(SplitMacSuffix(s).value.0, c);
      }
    }
  }

  lemma TooShortForMac(s: bytes)
    requires |s| < MAC_HEX_LEN
    ensures SplitMacSuffix(s).Err? && |Canonicalized(s)| < MAC_SUFFIX_LEN
  {
  }

  lemma ParseResponseExact(line: bytes, r: Response, mac: word)
    ensures ParseResponse(line) == Ok((r, mac))
       <==> Canonicalized(line) == R_LEADER + (ResponseHead(r) + MacSuffix(mac))
  {
    SuffixLength(mac);
    hide ResponseHead, MacSuffix, SplitMacSuffix, SplitResponseHead, Canonicalized;
    var text := ResponseHead(r) + MacSuffix(mac);
    var rest := StripPrefix(line, R_LEADER);
    if Canonicalized(line) == R_LEADER + text {
      LeaderKept(R_LEADER, line, text);
    }
    if rest.Some? {
      var s := rest.value;
      assert line == R_LEADER + s;
      SplitMacExact(s, ResponseHead(r), mac);
      SplitResponseExact(ResponseHead(r), r);
      if |s| >= MAC_HEX_LEN {
        CanonicalTail(R_LEADER, s, text);
      } else {
        TooShortForMac(s);
      }
      if ParseResponse(line) == Ok((r, mac)) {
        SplitResponseExact(SplitMacSuffix(s).value.0, r);
      }
    }
  }

  /** verify_command accepts a line as command `c` exactly when that line, with its tag in
      lower case, is what the encoder makes of `c` under the same key. */
  lemma VerifyCommandExact(key: Key, line: bytes, c: Command)
    ensures VerifyCommand(key, line) == Ok(c) <==> Canonicalized(line) == EncodeCommand(key, c)
  {
    hide CommandHead, CommandInput, MacSuffix, Mac, ParseCommand, Canonicalized;
    var mac := Mac(key, CommandInput(c));
    assert EncodeCommand(key, c) == C_LEADER + (CommandHead(c) + MacSuffix(mac));
    ParseCommandExact(line, c, mac);
    if ParseCommand(line).Ok? {
      var (got, claimed) := ParseCommand(line).value;
      assert VerifyCommand(key, line) == Ok(c) <==> got == c && claimed == mac;
    }
  }

  lemma VerifyResponseExact(key: Key, line: bytes, r: Response)
    ensures VerifyResponse(key, line) == Ok(r) <==> Canonicalized(line) == EncodeResponse(key, r)
  {
    hide ResponseHead, ResponseInput, MacSuffix, Mac, ParseResponse, Canonicalized;
    var mac := Mac(key, ResponseInput(r));
    assert EncodeResponse(key, r) == R_LEADER + (ResponseHead(r) + MacSuffix(mac));
    ParseResponseExact(line, r, mac);
    if ParseResponse(line).Ok? {
      var (got, claimed) := ParseResponse(line).value;
      assert VerifyResponse(key, line) == Ok(r) <==> got == r && claimed == mac;
    }
  }

  lemma {:induction false} LoweredHex(s: bytes)
    ensures Lowered(Hex(s)) == Hex(s)
  {
    if s != [] {
      LoweredHex(s[1..]);
      var h := HexByte(s[0]) + Hex(s[1..]);
      assert h[2..] == Hex(s[1..]);
      forall i | 0 <= i < |h| ensures Lower(h[i]) == h[i] {
        if i >= 2 {
          assert h[i] == Hex(s[1..])[i - 2];
          assert Lowered(Hex(s[1..]))[i - 2] == Hex(s[1..])[i - 2];
        }
      }
    }
  }

  lemma EncodedIsCanonical(front: bytes, mac: word)
    ensures Canonicalized(front + MacSuffix(mac)) == front + MacSuffix(mac)
  {
    hide Lowered, Hex, MacBytes;
    var line, h := front + MacSuffix(mac), Hex(MacBytes(mac));
    LoweredHex(MacBytes(mac));
    assert line == front + M_MARK + h;
    assert line[|line| - MAC_HEX_LEN..] == h;
    assert line[..|line| - MAC_HEX_LEN] == front + M_MARK;
  }

  /** Encode then verify returns the original command, whatever its text holds. */
  lemma CommandRoundTrip(key: Key, c: Command)
    ensures VerifyCommand(key, EncodeCommand(key, c)) == Ok(c)
  {
    hide Mac, MacSuffix, VerifyCommand, Canonicalized;
    EncodedIsCanonical(C_LEADER + CommandHead(c), Mac(key, CommandInput(c)));
    VerifyCommandExact(key, EncodeCommand(key, c), c);
  }

  lemma ResponseRoundTrip(key: Key, r: Response)
    ensures VerifyResponse(key, EncodeResponse(key, r)) == Ok(r)
  {
    hide Mac, MacSuffix, VerifyResponse, Canonicalized;
    EncodedIsCanonical(R_LEADER + ResponseHead(r), Mac(key, ResponseInput(r)));
    VerifyResponseExact(key, EncodeResponse(key, r), r);
  }

  // ----- what the daemon says of a line that is no frame -----

  /** Leader, length, tag mark and tag, in this order. */
  lemma NoResponseTag(key: Key, line: bytes)
    ensures !StartsWith(line, R_LEADER) ==> VerifyResponse(key, line) == Err(WrongLeader(0x52))
    ensures StartsWith(line, R_LEADER) && |line| < 21 ==> VerifyResponse(key, line) == Err(TooShort(|line| - 2))
    ensures StartsWith(line, R_LEADER) && |line| >= 21 && line[|line| - 19..|line| - 16] != [0x20, 0x4D, 0x20] ==>
              VerifyResponse(key, line) == Err(MissingMacSuffix)
    ensures StartsWith(line, R_LEADER) && |line| >= 21 && line[|line| - 19..|line| - 16] == [0x20, 0x4D, 0x20]
            && (forall mac: word :: Lowered(line[|line| - 16..]) != Hex(MacBytes(mac))) ==>
              VerifyResponse(key, line) == Err(InvalidMac)
  {
    hide Mac, ResponseInput, SplitResponseHead, MacBytes, Hex, Lowered, ParseMacHex;
    var n := |line|;
    if StartsWith(line, R_LEADER) && n >= 21 {
      var rest := line[2..];
      assert rest[|rest| - 19..][..3] == line[n - 19..n - 16] && rest[|rest| - 19..][3..] == line[n - 16..];
      assert rest[|rest| - 19] == line[n - 19..n - 16][0];
      if ParseMacHex(line[n - 16..]).Some? {
        ParseMacHexExact(line[n - 16..], ParseMacHex(line[n - 16..]).value);
      }
    }
  }

  /** What is left to decide once the tag is split off. */
  lemma SplitOff(key: Key, line: bytes, head: bytes, mac: word)
    requires Canonicalized(line) == R_LEADER + (head + MacSuffix(mac))
    ensures VerifyResponse(key, line)
         == match SplitResponseHead(head)
            case Err(e) => Err(e)
            case Ok(r) => if Mac(key, ResponseInput(r)) == mac then Ok(r) else Err(MacMismatch)
  {
    SuffixLength(mac);
    hide MacSuffix, SplitMacSuffix, SplitResponseHead, Canonicalized, Mac, ResponseInput;
    LeaderKept(R_LEADER, line, head + MacSuffix(mac));
    var s := line[2..];
    assert line == R_LEADER + s;
    CanonicalTail(R_LEADER, s, head + MacSuffix(mac));
    SplitMacExact(s, head, mac);
  }

  lemma FirstSpace(token: bytes, rest: bytes, head: bytes)
    requires SPACE !in token && head == token + [SPACE] + rest
    ensures IndexOf(head, SPACE) == |token| < |head| && head[..|token|] == token && head[|token| + 1..] == rest
  {
    assert forall j :: 0 <= j < |token| ==> head[j] == token[j] && token[j] in token;
    IndexOfIs(head, SPACE, |token|);
  }

  lemma NoSpace(s: bytes)
    requires SPACE !in s
    ensures IndexOf(s, SPACE) == |s|
  {
  }

  /** With a tag at its end, a frame without a counter, or with one that is not a number's
      printed form, or with nothing after it. */
  lemma NoResponseCounter(key: Key, line: bytes, token: bytes, rest: bytes, mac: word)
    requires SPACE !in token
    ensures Canonicalized(line) == R_LEADER + (token + MacSuffix(mac)) ==>
              VerifyResponse(key, line) == Err(TooShort(|token|))
    ensures Canonicalized(line) == R_LEADER + (token + [SPACE] + rest + MacSuffix(mac)) ==>
              && ((forall c: u64 :: token != Dec(c)) ==> VerifyResponse(key, line) == Err(InvalidCounter))
              && ((exists c: u64 :: token == Dec(c)) && SPACE !in rest ==> VerifyResponse(key, line) == Err(TooShort(|rest|)))
  {
    hide Mac, MacSuffix, ParseStrictU64, ParseStrictU32, Dec, ResponseInput, Canonicalized, VerifyResponse;
    if Canonicalized(line) == R_LEADER + (token + MacSuffix(mac)) {
      SplitOff(key, line, token, mac);
      NoSpace(token);
    }
    if Canonicalized(line) == R_LEADER + (token + [SPACE] + rest + MacSuffix(mac)) {
      var head := token + [SPACE] + rest;
      SplitOff(key, line, head, mac);
      FirstSpace(token, rest, head);
      if ParseStrictU64(token).Some? {
        ParseStrictU64Exact(token, ParseStrictU64(token).value);
      }
      if c: u64 :| token == Dec(c) {
        ParseStrictU64Exact(token, c);
      }
      if SPACE !in rest {
        NoSpace(rest);
      }
    }
  }

  /** With a counter too: a sequence number that is not one, or else the tag decides. */
  lemma NoResponseSeq(key: Key, line: bytes, c: u64, token: bytes, body: bytes, mac: word)
    requires SPACE !in token && Canonicalized(line) == R_LEADER + (Dec(c) + [SPACE] + (token + [SPACE] + body) + MacSuffix(mac))
    ensures (forall q: u32 :: token != Dec(q)) ==> VerifyResponse(key, line) == Err(InvalidSeq)
    ensures forall q: u32 :: token == Dec(q) ==>
              var r := Response(c, q, body);
              VerifyResponse(key, line) == if mac == Mac(key, ResponseInput(r)) then Ok(r) else Err(MacMismatch)
  {
    hide Mac, MacSuffix, ParseStrictU64, ParseStrictU32, Dec, ResponseInput, Canonicalized, VerifyResponse;
    var rest := token + [SPACE] + body;
    var head := Dec(c) + [SPACE] + rest;
    SplitOff(key, line, head, mac);
    assert SPACE !in Dec(c) by {
      assert forall b :: b in Dec(c) ==> IsDigit(b);
    }
    FirstSpace(Dec(c), rest, head);
    FirstSpace(token, body, rest);
    ParseStrictU64Exact(Dec(c), c);
    if ParseStrictU32(token).Some? {
      ParseStrictU32Exact(token, ParseStrictU32(token).value);
    }
    forall q: u32 | token == Dec(q) ensures ParseStrictU32(token) == Some(q) {
      ParseStrictU32Exact(token, q);
    }
  }

  // ----- what a tag covers determines the message -----

  lemma CommandInputInjective(c: Command, d: Command)
    requires CommandInput(c) == CommandInput(d)
    ensures c == d
  {
    hide Dec;
    assert CommandInput(c) == CMD_TAG + CommandHead(c) && CommandInput(d) == CMD_TAG + CommandHead(d);
    assert CommandInput(c)[4..] == CommandHead(c) && CommandInput(d)[4..] == CommandHead(d);
    SplitCommandExact(CommandHead(c), c);
    SplitCommandExact(CommandHead(c), d);
  }

  lemma ResponseInputInjective(r: Response, q: Response)
    requires ResponseInput(r) == ResponseInput(q)
    ensures r == q
  {
    hide Dec;
    assert ResponseInput(r) == RSP_TAG + ResponseHead(r) && ResponseInput(q) == RSP_TAG + ResponseHead(q);
    assert ResponseInput(r)[4..] == ResponseHead(r) && ResponseInput(q)[4..] == ResponseHead(q);
    SplitResponseExact(ResponseHead(r), r);
    SplitResponseExact(ResponseHead(r), q);
  }

  /** No command and response share a tag input. */
  lemma DomainsApart(c: Command, r: Response)
    ensures CommandInput(c) != ResponseInput(r)
  {
    assert CommandInput(c)[0] == 0x43 && ResponseInput(r)[0] == 0x52;
  }
}

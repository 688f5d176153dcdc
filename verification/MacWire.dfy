/** The wire form of a tag: eight bytes, lowest first, printed as sixteen hex digits. */
module MacWire {
  import opened Bytes
  import opened Outcomes
  import opened SipHash

  // ----- tag bytes -----

  function Low(m: word): bv8 {
    (m & 0xFF) as bv8
  }

  function Down(m: word): word {
    m >> 8
  }

  function WordBytes(m: word, k: nat): (s: bytes)
    ensures |s| == k
    decreases k
  {
    if k == 0 then [] else [Low(m) as int] + WordBytes(Down(m), k - 1)
  }

  /** mac_to_le_bytes: byte 0 is the lowest. */
  function MacBytes(m: word): (s: bytes)
    ensures |s| == 8
  {
    WordBytes(m, 8)
  }

  function Downs(m: word, k: nat): word
    decreases k
  {
    if k == 0 then m else Downs(Down(m), k - 1)
  }

  lemma {:induction false} Rejoin(m: word)
    ensures Or(Wide(Low(m)), UpEight(Down(m))) == m
  {
  }

  lemma {:induction false} TakeApart(v: bv8, m: word)
    requires m >> 56 == 0
    ensures Low(Or(Wide(v), UpEight(m))) == v
    ensures Down(Or(Wide(v), UpEight(m))) == m
  {
  }

  lemma {:induction false} WordOfBytes(m: word, k: nat)
    requires Downs(m, k) == 0
    ensures Word(WordBytes(m, k)) == m
    decreases k
  {
    hide Or, Wide, UpEight, Low, Down, Bits;
    if k > 0 {
      WordOfBytes(Down(m), k - 1);
      Rejoin(m);
      BitsOfInt(Low(m));
      assert WordBytes(m, k)[1..] == WordBytes(Down(m), k - 1);
    }
  }

  lemma {:induction false} DownsOfZero(k: nat)
    ensures Downs(0, k) == 0
  {
    hide Down;
    if k > 0 {
      DownsOfZero(k - 1);
      DownOfZero();
    }
  }

  lemma {:induction false} DownOfZero()
    ensures Down(0) == 0
  {
  }

  lemma {:induction false} DownsMore(m: word, j: nat, k: nat)
    requires j <= k && Downs(m, j) == 0
    ensures Downs(m, k) == 0
    decreases j
  {
    hide Down;
    if j == 0 {
      DownsOfZero(k);
    } else {
      DownsMore(Down(m), j - 1, k - 1);
    }
  }

  lemma SevenDowns(m: word)
    ensures Downs(m, 7) == m >> 56
    ensures Downs(m, 8) == 0
  {
    hide Down;
    assert Downs(m, 7) == Down(Down(Down(Down(Down(Down(Down(m)))))));
    assert Downs(m, 8) == Down(Down(Down(Down(Down(Down(Down(Down(m))))))));
    ShiftedOut(m);
  }

  lemma {:induction false} ShiftedOut(m: word)
    ensures Down(Down(Down(Down(Down(Down(Down(m))))))) == m >> 56
    ensures Down(Down(Down(Down(Down(Down(Down(Down(m)))))))) == 0
  {
  }

  lemma {:induction false} WordFits(s: bytes)
    requires |s| <= 8
    ensures Downs(Word(s), |s|) == 0
    ensures WordBytes(Word(s), |s|) == s
  {
    hide Or, Wide, UpEight, Low, Down, Bits;
    if s != [] {
      var m := Word(s[1..]);
      WordFits(s[1..]);
      DownsMore(m, |s| - 1, 7);
      SevenDowns(m);
      TakeApart(Bits(s[0]), m);
    }
  }

  /** The tag and its eight bytes determine each other. */
  lemma MacBytesRoundTrip(m: word, s: bytes)
    requires |s| == 8
    ensures Word(MacBytes(m)) == m
    ensures MacBytes(Word(s)) == s
  {
    SevenDowns(m);
    WordOfBytes(m, 8);
    WordFits(s);
  }

  // ----- hex -----

  function HexDigit(n: nat): byte
    requires n < 16
  {
    if n < 10 then 0x30 + n else 0x61 + n - 10
  }

  /** Both ends read either case. */
  function Nybble(c: byte): Option<nat> {
    if 0x30 <= c <= 0x39 then Some(c - 0x30)
    else if 0x61 <= c <= 0x66 then Some(10 + c - 0x61)
    else if 0x41 <= c <= 0x46 then Some(10 + c - 0x41)
    else None
  }

  function HexByte(b: byte): (s: bytes)
    ensures |s| == 2
  {
    [HexDigit(b / 16), HexDigit(b % 16)]
  }

  function Hex(s: bytes): (h: bytes)
    ensures |h| == 2 * |s|
  {
    if s == [] then [] else HexByte(s[0]) + Hex(s[1..])
  }

  function UnHex(h: bytes): Option<bytes> {
    if h == [] then Some([])
    else if |h| < 2 || Nybble(h[0]).None? || Nybble(h[1]).None? then None
    else Prefixed([16 * Nybble(h[0]).value + Nybble(h[1]).value], UnHex(h[2..]))
  }

  function Prefixed(p: bytes, s: Option<bytes>): Option<bytes> {
    if s.None? then None else Some(p + s.value)
  }

  lemma PrefixedTwice(p: bytes, q: bytes, s: Option<bytes>)
    ensures Prefixed(p, Prefixed(q, s)) == Prefixed(p + q, s)
  {
    assert s.Some? ==> p + (q + s.value) == (p + q) + s.value;
  }

  function Lower(c: byte): byte {
    if 0x41 <= c <= 0x5A then c + 32 else c
  }

  function Lowered(s: bytes): (t: bytes)
    ensures |t| == |s|
    ensures forall i :: 0 <= i < |s| ==> t[i] == Lower(s[i])
  {
    if s == [] then [] else [Lower(s[0])] + Lowered(s[1..])
  }

  lemma HexByteExact(c: byte, d: byte, b: byte)
    ensures Nybble(c).Some? && Nybble(d).Some? && 16 * Nybble(c).value + Nybble(d).value == b
       <==> [Lower(c), Lower(d)] == HexByte(b)
  {
    NybbleExact(c, b / 16);
    NybbleExact(d, b % 16);
    assert [Lower(c), Lower(d)][0] == Lower(c) && [Lower(c), Lower(d)][1] == Lower(d);
  }

  lemma NybbleExact(c: byte, n: nat)
    requires n < 16
    ensures Nybble(c) == Some(n) <==> Lower(c) == HexDigit(n)
  {
  }

  /** A text reads back as some bytes exactly when, in lower case, it is their hex form. */
  lemma {:induction false} UnHexExact(h: bytes, s: bytes)
    ensures UnHex(h) == Some(s) <==> Lowered(h) == Hex(s)
  {
    if |h| >= 2 && s != [] {
      hide Nybble, HexByte, Lower;
      var l := Lowered(h);
      UnHexExact(h[2..], s[1..]);
      HexByteExact(h[0], h[1], s[0]);
      assert Lowered(h[2..]) == l[2..];
      assert l == [Lower(h[0]), Lower(h[1])] + l[2..];
      assert l == Hex(s) <==> l[..2] == HexByte(s[0]) && l[2..] == Hex(s[1..]);
      assert l[..2] == [Lower(h[0]), Lower(h[1])];
      assert s == [s[0]] + s[1..];
    }
  }

  /** mac_to_hex: one "{:02x}" per byte. */
  method MacToHex(mac: word) returns (s: bytes)
    ensures s == Hex(MacBytes(mac))
  {
    var le := MacBytes(mac);
    s := [];
    assert le[0..] == le && s + Hex(le) == Hex(le);
    for i := 0 to 8
      invariant s + Hex(le[i..]) == Hex(le)
    {
      assert le[i..][1..] == le[i + 1..];
      ghost var h, rest := HexByte(le[i]), Hex(le[i + 1..]);
      assert Hex(le[i..]) == h + rest;
      assert s + (h + rest) == (s + h) + rest;
      s := s + HexByte(le[i]);
    }
    assert le[8..] == [] && s + [] == s;
  }

  function ParseMacHex(hex: bytes): Option<word> {
    if |hex| != 16 then None
    else match UnHex(hex)
      case None => None
      case Some(s) => Some(Word(s))
  }

  /** parse_mac_hex: fills eight bytes, then reads them little-endian. */
  method ParseMacHexLoop(hex: bytes) returns (mac: Option<word>)
    ensures mac == ParseMacHex(hex)
  {
    if |hex| != 16 {
      return None;
    }
    var out := new byte[8];
    assert hex[0..] == hex && UnHex(hex).Some? ==> [] + UnHex(hex).value == UnHex(hex).value;
    for i := 0 to 8
      invariant UnHex(hex) == Prefixed(out[..i], UnHex(hex[2 * i..]))
    {
      var hi, lo := Nybble(hex[i * 2]), Nybble(hex[i * 2 + 1]);
      assert hex[2 * i..][2..] == hex[2 * (i + 1)..];
      if hi.None? || lo.None? {
        return None;
      }
      ghost var before := out[..i];
      PrefixedTwice(before, [16 * hi.value + lo.value], UnHex(hex[2 * (i + 1)..]));
      out[i] := 16 * hi.value + lo.value;
      assert out[..i + 1] == before + [out[i]];
    }
    assert out[..8] + [] == out[..];
    return Some(Word(out[..]));
  }

  /** A tag's text determines the tag, in either case. */
  lemma ParseMacHexExact(hex: bytes, m: word)
    ensures ParseMacHex(hex) == Some(m) <==> Lowered(hex) == Hex(MacBytes(m))
  {
    hide Word, MacBytes;
    UnHexExact(hex, MacBytes(m));
    if UnHex(hex).Some? {
      var s := UnHex(hex).value;
      UnHexExact(hex, s);
      if |hex| == 16 {
        MacBytesRoundTrip(m, s);
      }
    }
    MacBytesRoundTrip(m, MacBytes(m));
  }
}

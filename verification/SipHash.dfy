/** SipHash-2-4, three ways: the definition (Aumasson and Bernstein, "SipHash: a fast
    short-input PRF", 2012, section 2), the daemon's code and the firmware's code. */
module SipHash {
  import opened Bytes

  type word = bv64

  datatype State = State(v0: word, v1: word, v2: word, v3: word)

  function Add(x: word, y: word): word {
    x + y
  }

  function Xor(x: word, y: word): word {
    x ^ y
  }

  function Or(x: word, y: word): word {
    x | y
  }

  function Wide(v: bv8): word {
    v as word
  }

  function UpEight(x: word): word {
    x << 8
  }

  function Shift(x: word, n: nat): word
    requires n <= 64
  {
    x << n
  }

  function Rotl(x: word, b: nat): word
    requires b < 64
  {
    (x << b) | (x >> (64 - b))
  }

  function Round(s: State): State {
    var a0 := Add(s.v0, s.v1);
    var a1 := Xor(Rotl(s.v1, 13), a0);
    var a2 := Add(s.v2, s.v3);
    var a3 := Xor(Rotl(s.v3, 16), a2);
    var b0 := Add(Rotl(a0, 32), a3);
    var b3 := Xor(Rotl(a3, 21), b0);
    var b2 := Add(a2, a1);
    var b1 := Xor(Rotl(a1, 17), b2);
    State(b0, b1, Rotl(b2, 32), b3)
  }

  /** Mixing one message word: two rounds between the two xors. */
  function Compress(s: State, m: word): State {
    var t := Round(Round(s.(v3 := Xor(s.v3, m))));
    t.(v0 := Xor(t.v0, m))
  }

  function Finish(s: State): word {
    var t := Round(Round(Round(Round(s.(v2 := Xor(s.v2, 0xFF))))));
    Xor(Xor(Xor(t.v0, t.v1), t.v2), t.v3)
  }

  const C0: word := 0x736f6d6570736575
  const C1: word := 0x646f72616e646f6d
  const C2: word := 0x6c7967656e657261
  const C3: word := 0x7465646279746573

  function Init(k0: word, k1: word): State {
    State(Xor(k0, C0), Xor(k1, C1), Xor(k0, C2), Xor(k1, C3))
  }

  /** The little-endian word spelled by a byte string. */
  function Word(s: bytes): word {
    if s == [] then 0 else Or(Wide(Bits(s[0])), UpEight(Word(s[1..])))
  }

  function Zeros(n: nat): (s: bytes)
    ensures |s| == n
  {
    seq(n, _ => 0)
  }

  /** Section 2.2: the message is padded with zeros up to a last byte holding its length
      modulo 256, so that it splits into whole words. */
  function Padded(msg: bytes): bytes {
    msg + Zeros(7 - |msg| % 8) + [|msg| % 256]
  }

  /** The whole words of a byte string. */
  function Blocks(p: bytes): (ms: seq<word>)
    ensures |ms| == |p| / 8
  {
    seq(|p| / 8, i requires 0 <= i < |p| / 8 => Word(p[8 * i..8 * i + 8]))
  }

  function Absorb(s: State, ms: seq<word>): State {
    if ms == [] then s else Compress(Absorb(s, ms[..|ms| - 1]), ms[|ms| - 1])
  }

  function Start(key: bytes): State
    requires |key| == 16
  {
    Init(Word(key[..8]), Word(key[8..]))
  }

  function Mac(key: bytes, msg: bytes): word
    requires |key| == 16
  {
    Finish(Absorb(Start(key), Blocks(Padded(msg))))
  }

  // ----- the last block -----

  /** A byte moved up to place `i` of a word, eight bits at a time. */
  function Placed(v: bv8, i: nat): word
    requires i < 8
  {
    if i == 0 then Wide(v) else UpEight(Placed(v, i - 1))
  }

  /** The length byte with the bytes of `tail` or-ed in below it, first byte lowest. */
  function TailWord(len: byte, tail: bytes): word
    requires |tail| < 8
  {
    if tail == [] then Placed(Bits(len), 7)
    else Or(TailWord(len, tail[..|tail| - 1]), Placed(Bits(tail[|tail| - 1]), |tail| - 1))
  }

  function LastBlock(len: byte, tail: bytes): bytes
    requires |tail| < 8
  {
    tail + Zeros(7 - |tail|) + [len]
  }

  // Laws of or-ing shifted bytes.

  lemma {:induction false} OrLaws(x: word, y: word, z: word)
    ensures Or(x, Or(y, z)) == Or(Or(x, y), z)
    ensures Or(x, y) == Or(y, x)
    ensures Or(x, 0) == x
  {
  }

  lemma {:induction false} UpLaws(x: word, y: word)
    ensures UpEight(Or(x, y)) == Or(UpEight(x), UpEight(y))
  {
  }

  lemma {:induction false} UpOfZero()
    ensures UpEight(0) == 0
  {
  }

  lemma {:induction false} PlacedZero(i: nat)
    requires i < 8
    ensures Placed(0, i) == 0
  {
    hide UpEight;
    if i > 0 {
      PlacedZero(i - 1);
      UpOfZero();
    }
  }

  lemma {:induction false} UpTo8(x: word)
    ensures UpEight(x) == Shift(x, 8)
  {
  }

  lemma {:induction false} UpTo16(x: word)
    ensures UpEight(Shift(x, 8)) == Shift(x, 16)
  {
    assert (x << 8) << 8 == x << 16;
  }

  lemma {:induction false} UpTo24(x: word)
    ensures UpEight(Shift(x, 16)) == Shift(x, 24)
  {
    assert (x << 16) << 8 == x << 24;
  }

  lemma {:induction false} UpTo32(x: word)
    ensures UpEight(Shift(x, 24)) == Shift(x, 32)
  {
    assert (x << 24) << 8 == x << 32;
  }

  lemma {:induction false} UpTo40(x: word)
    ensures UpEight(Shift(x, 32)) == Shift(x, 40)
  {
    assert (x << 32) << 8 == x << 40;
  }

  lemma {:induction false} UpTo48(x: word)
    ensures UpEight(Shift(x, 40)) == Shift(x, 48)
  {
    assert (x << 40) << 8 == x << 48;
  }

  lemma {:induction false} UpTo56(x: word)
    ensures UpEight(Shift(x, 48)) == Shift(x, 56)
  {
    assert (x << 48) << 8 == x << 56;
  }

  /** Moving a byte up eight bits at a time is one shift. */
  lemma PlacedAt(v: bv8)
    ensures Placed(v, 0) == Wide(v) && Placed(v, 1) == Shift(Wide(v), 8) && Placed(v, 2) == Shift(Wide(v), 16)
    ensures Placed(v, 3) == Shift(Wide(v), 24) && Placed(v, 4) == Shift(Wide(v), 32)
    ensures Placed(v, 5) == Shift(Wide(v), 40) && Placed(v, 6) == Shift(Wide(v), 48)
    ensures Placed(v, 7) == Shift(Wide(v), 56)
  {
    hide Wide, UpEight, Shift;
    UpTo8(Wide(v));
    UpTo16(Wide(v));
    UpTo24(Wide(v));
    UpTo32(Wide(v));
    UpTo40(Wide(v));
    UpTo48(Wide(v));
    UpTo56(Wide(v));
    assert Placed(v, 3) == UpEight(Placed(v, 2));
    assert Placed(v, 5) == UpEight(Placed(v, 4));
    assert Placed(v, 7) == UpEight(Placed(v, 6));
  }

  /** Bytes or-ed together from place `k` up. */
  function Spread(s: bytes, k: nat): word
    requires k + |s| <= 8
    decreases |s|
  {
    if s == [] then 0 else Or(Placed(Bits(s[0]), k), Spread(s[1..], k + 1))
  }

  lemma {:induction false} UpSpread(s: bytes, k: nat)
    requires k + |s| < 8
    ensures UpEight(Spread(s, k)) == Spread(s, k + 1)
    decreases |s|
  {
    hide Or, UpEight, Bits;
    if s == [] {
      UpOfZero();
    } else {
      UpSpread(s[1..], k + 1);
      UpLaws(Placed(Bits(s[0]), k), Spread(s[1..], k + 1));
      assert Placed(Bits(s[0]), k + 1) == UpEight(Placed(Bits(s[0]), k));
    }
  }

  lemma {:induction false} WordSpreads(s: bytes)
    requires |s| <= 8
    ensures Word(s) == Spread(s, 0)
  {
    hide Or, UpEight, Bits, Wide;
    if s != [] {
      WordSpreads(s[1..]);
      UpSpread(s[1..], 0);
    }
  }

  lemma {:induction false} SpreadAppend(s: bytes, t: bytes, k: nat)
    requires k + |s| + |t| <= 8
    ensures Spread(s + t, k) == Or(Spread(s, k), Spread(t, k + |s|))
    decreases |s|
  {
    hide Or, Placed, Bits;
    var rest := Spread(t, k + |s|);
    if s == [] {
      assert s + t == t;
      OrLaws(0, rest, 0);
      OrLaws(rest, 0, 0);
    } else {
      assert (s + t)[1..] == s[1..] + t;
      SpreadAppend(s[1..], t, k + 1);
      OrLaws(Placed(Bits(s[0]), k), Spread(s[1..], k + 1), rest);
    }
  }

  lemma {:induction false} SpreadZeros(n: nat, k: nat)
    requires k + n <= 8
    ensures Spread(Zeros(n), k) == 0
    decreases n
  {
    hide Or, Placed, Bits;
    if n > 0 {
      assert Zeros(n)[1..] == Zeros(n - 1);
      SpreadZeros(n - 1, k + 1);
      SameValueSameBits(Bits(0), 0);
      PlacedZero(k);
      OrLaws(0, 0, 0);
    }
  }

  lemma {:induction false} TailSpreads(len: byte, tail: bytes)
    requires |tail| < 8
    ensures TailWord(len, tail) == Or(Spread(tail, 0), Placed(Bits(len), 7))
  {
    hide Or, Placed, Bits;
    var top := Placed(Bits(len), 7);
    if tail == [] {
      OrLaws(0, top, 0);
      OrLaws(top, 0, 0);
    } else {
      var n := |tail| - 1;
      var last := Placed(Bits(tail[n]), n);
      TailSpreads(len, tail[..n]);
      assert tail == tail[..n] + [tail[n]];
      SpreadAppend(tail[..n], [tail[n]], 0);
      SpreadOne(tail[n], n);
      OrLaws(Spread(tail[..n], 0), top, last);
      OrLaws(Spread(tail[..n], 0), last, top);
      OrLaws(last, top, 0);
    }
  }

  lemma {:induction false} SpreadOne(b: byte, k: nat)
    requires k < 8
    ensures Spread([b], k) == Placed(Bits(b), k)
  {
    hide Or, Placed, Bits;
    assert [b][1..] == [];
    OrLaws(Placed(Bits(b), k), 0, 0);
  }

  /** The definition's last word is the one the code builds by shifting and or-ing. */
  lemma LastWord(len: byte, tail: bytes)
    requires |tail| < 8
    ensures Word(LastBlock(len, tail)) == TailWord(len, tail)
  {
    hide Or, Placed, Bits, Word, TailWord, Spread;
    var zeros := Zeros(7 - |tail|);
    WordSpreads(LastBlock(len, tail));
    TailSpreads(len, tail);
    assert LastBlock(len, tail) == tail + (zeros + [len]);
    SpreadAppend(tail, zeros + [len], 0);
    SpreadAppend(zeros, [len], |tail|);
    SpreadZeros(7 - |tail|, |tail|);
    SpreadOne(len, 7);
    OrLaws(0, Placed(Bits(len), 7), 0);
    OrLaws(Placed(Bits(len), 7), 0, 0);
  }

  lemma PaddedBlocks(msg: bytes)
    ensures Blocks(Padded(msg)) == Blocks(msg) + [Word(LastBlock(|msg| % 256, msg[8 * (|msg| / 8)..]))]
  {
    hide Word;
    var n := |msg| / 8;
    var p, ms := Padded(msg), Blocks(msg) + [Word(LastBlock(|msg| % 256, msg[8 * n..]))];
    assert |p| == 8 * (n + 1);
    forall i | 0 <= i < n ensures Blocks(p)[i] == ms[i] {
      assert p[8 * i..8 * i + 8] == msg[8 * i..8 * i + 8];
    }
    assert p[8 * n..8 * n + 8] == LastBlock(|msg| % 256, msg[8 * n..]);
  }

  // ----- the daemon: crypto.rs -----

  lemma {:induction false} RotlIsRotateLeft(x: word)
    ensures RotateLeft(x, 13) == Rotl(x, 13) && RotateLeft(x, 16) == Rotl(x, 16)
    ensures RotateLeft(x, 17) == Rotl(x, 17) && RotateLeft(x, 21) == Rotl(x, 21)
    ensures RotateLeft(x, 32) == Rotl(x, 32)
  {
  }

  function RotateLeft(x: word, b: nat): word
    requires b <= 64
  {
    x.RotateLeft(b)
  }

  /** The sipround! macro, on native rotations. */
  method SipRoundRust(s: State) returns (t: State)
    ensures t == Round(s)
  {
    hide Rotl, Add, Xor, RotateLeft;
    var v0, v1, v2, v3 := s.v0, s.v1, s.v2, s.v3;
    v0 := Add(v0, v1);
    RotlIsRotateLeft(v1);
    v1 := RotateLeft(v1, 13);
    v1 := Xor(v1, v0);
    RotlIsRotateLeft(v0);
    v0 := RotateLeft(v0, 32);
    v2 := Add(v2, v3);
    RotlIsRotateLeft(v3);
    v3 := RotateLeft(v3, 16);
    v3 := Xor(v3, v2);
    v0 := Add(v0, v3);
    RotlIsRotateLeft(v3);
    v3 := RotateLeft(v3, 21);
    v3 := Xor(v3, v0);
    v2 := Add(v2, v1);
    RotlIsRotateLeft(v1);
    v1 := RotateLeft(v1, 17);
    v1 := Xor(v1, v2);
    RotlIsRotateLeft(v2);
    v2 := RotateLeft(v2, 32);
    t := State(v0, v1, v2, v3);
  }

  method SipHash24Rust(key: bytes, msg: bytes) returns (mac: word)
    requires |key| == 16
    ensures mac == Mac(key, msg)
  {
    hide Word, Round, Init, Xor, Or, Placed, Bits, Blocks;
    var s := Init(Word(key[0..8]), Word(key[8..16]));
    assert key[0..8] == key[..8] && key[8..16] == key[8..];
    var blocks := |msg| / 8;
    for i := 0 to blocks
      invariant s == Absorb(Start(key), Blocks(msg)[..i])
    {
      var m := Word(msg[i * 8..i * 8 + 8]);
      BlockAt(msg, i);
      s := s.(v3 := Xor(s.v3, m));
      s := SipRoundRust(s);
      s := SipRoundRust(s);
      s := s.(v0 := Xor(s.v0, m));
      AbsorbOneMore(Start(key), Blocks(msg), i);
    }
    assert Blocks(msg)[..blocks] == Blocks(msg);
    var len := |msg| % 256;
    var tail := msg[blocks * 8..];
    var b := Placed(Bits(len), 7);
    for i := 0 to |tail|
      invariant b == TailWord(len, tail[..i])
    {
      assert tail[..i + 1][..i] == tail[..i];
      b := Or(b, Placed(Bits(tail[i]), i));
    }
    assert tail[..|tail|] == tail;
    s := s.(v3 := Xor(s.v3, b));
    s := SipRoundRust(s);
    s := SipRoundRust(s);
    s := s.(v0 := Xor(s.v0, b));
    MacByBlocks(key, msg);
    s := s.(v2 := Xor(s.v2, 0xFF));
    s := SipRoundRust(s);
    s := SipRoundRust(s);
    s := SipRoundRust(s);
    s := SipRoundRust(s);
    mac := Xor(Xor(Xor(s.v0, s.v1), s.v2), s.v3);
  }

  lemma BlockAt(msg: bytes, i: nat)
    requires i < |msg| / 8
    ensures Blocks(msg)[i] == Word(msg[i * 8..i * 8 + 8])
  {
  }

  lemma AbsorbOneMore(s: State, ms: seq<word>, i: nat)
    requires i < |ms|
    ensures Absorb(s, ms[..i + 1]) == Compress(Absorb(s, ms[..i]), ms[i])
  {
    hide Compress;
    assert ms[..i + 1][..i] == ms[..i];
  }

  /** The code's shape: absorb the whole words, then the tail word, then finish. */
  lemma MacByBlocks(key: bytes, msg: bytes)
    requires |key| == 16
    ensures Mac(key, msg)
         == Finish(Compress(Absorb(Start(key), Blocks(msg)), TailWord(|msg| % 256, msg[|msg| / 8 * 8..])))
  {
    hide Compress, Finish, TailWord, Word, Blocks, Start, Padded, LastBlock, Absorb;
    var len, tail := |msg| % 256, msg[|msg| / 8 * 8..];
    PaddedBlocks(msg);
    LastWord(len, tail);
    var ms := Blocks(msg) + [TailWord(len, tail)];
    assert Blocks(Padded(msg)) == ms;
    AbsorbOneMore(Start(key), ms, |ms| - 1);
    assert ms[..|ms| - 1 + 1] == ms && ms[..|ms| - 1] == Blocks(msg);
  }

  // ----- the firmware: siphash.h -----

  /** load_u64_le: shift and or, last byte first. */
  method LoadU64Le(p: bytes) returns (r: word)
    requires |p| >= 8
    ensures r == Word(p[..8])
  {
    hide Or, Bits, Wide;
    r := 0;
    var i := 8;
    while i > 0
      invariant 0 <= i <= 8
      invariant r == Word(p[i..8])
    {
      i := i - 1;
      OrLaws(UpEight(r), Wide(Bits(p[i])), 0);
      assert p[i..8][1..] == p[i + 1..8];
      r := Or(UpEight(r), Wide(Bits(p[i])));
    }
    assert p[0..8] == p[..8];
  }

  /** The R503_SIPROUND macro, on shifts. */
  method SipRoundFirmware(s: State) returns (t: State)
    ensures t == Round(s)
  {
    hide Rotl, Add, Xor;
    var v0, v1, v2, v3 := s.v0, s.v1, s.v2, s.v3;
    v0 := Add(v0, v1);
    v1 := Rotl(v1, 13);
    v1 := Xor(v1, v0);
    v0 := Rotl(v0, 32);
    v2 := Add(v2, v3);
    v3 := Rotl(v3, 16);
    v3 := Xor(v3, v2);
    v0 := Add(v0, v3);
    v3 := Rotl(v3, 21);
    v3 := Xor(v3, v0);
    v2 := Add(v2, v1);
    v1 := Rotl(v1, 17);
    v1 := Xor(v1, v2);
    v2 := Rotl(v2, 32);
    t := State(v0, v1, v2, v3);
  }

  /** The length byte or-ed with the tail bytes from place `k` up. */
  function TailFrom(len: byte, tail: bytes, k: nat): word
    requires |tail| < 8 && k <= 7
  {
    Or(Placed(Bits(len), 7), if k < |tail| then Spread(tail[k..], k) else 0)
  }

  lemma TailFromStep(len: byte, tail: bytes, k: nat)
    requires |tail| < 8 && k < 7
    ensures TailFrom(len, tail, k)
         == if k < |tail| then Or(TailFrom(len, tail, k + 1), Placed(Bits(tail[k]), k)) else TailFrom(len, tail, k + 1)
  {
    hide Or, Placed, Bits;
    if k < |tail| {
      var top, here := Placed(Bits(len), 7), Placed(Bits(tail[k]), k);
      var above := Spread(tail[k + 1..], k + 1);
      assert tail[k..][1..] == tail[k + 1..];
      OrLaws(here, above, 0);
      OrLaws(top, above, here);
    }
  }

  lemma TailFromEnds(len: byte, tail: bytes)
    requires |tail| < 8
    ensures TailFrom(len, tail, 0) == TailWord(len, tail)
    ensures TailFrom(len, tail, 7) == Placed(Bits(len), 7)
  {
    hide Or, Placed, Bits, TailWord;
    TailSpreads(len, tail);
    assert tail[0..] == tail;
    OrLaws(Placed(Bits(len), 7), Spread(tail, 0), 0);
  }

  /** The fall-through ladder of the final block. */
  method TailLadder(len: byte, tail: bytes) returns (b: word)
    requires |tail| < 8
    ensures b == TailWord(len, tail)
  {
    hide Or, Bits, Wide, Placed, TailWord, TailFrom, Shift;
    var left := |tail|;
    TailFromEnds(len, tail);
    PlacedAt(Bits(len));
    b := Shift(Wide(Bits(len)), 56);
    TailFromStep(len, tail, 6);
    if left >= 7 {
      PlacedAt(Bits(tail[6]));
      b := Or(b, Shift(Wide(Bits(tail[6])), 48));
    }
    TailFromStep(len, tail, 5);
    if left >= 6 {
      PlacedAt(Bits(tail[5]));
      b := Or(b, Shift(Wide(Bits(tail[5])), 40));
    }
    TailFromStep(len, tail, 4);
    if left >= 5 {
      PlacedAt(Bits(tail[4]));
      b := Or(b, Shift(Wide(Bits(tail[4])), 32));
    }
    TailFromStep(len, tail, 3);
    if left >= 4 {
      PlacedAt(Bits(tail[3]));
      b := Or(b, Shift(Wide(Bits(tail[3])), 24));
    }
    TailFromStep(len, tail, 2);
    if left >= 3 {
      PlacedAt(Bits(tail[2]));
      b := Or(b, Shift(Wide(Bits(tail[2])), 16));
    }
    TailFromStep(len, tail, 1);
    if left >= 2 {
      PlacedAt(Bits(tail[1]));
      b := Or(b, Shift(Wide(Bits(tail[1])), 8));
    }
    TailFromStep(len, tail, 0);
    if left >= 1 {
      PlacedAt(Bits(tail[0]));
      b := Or(b, Wide(Bits(tail[0])));
    }
  }

  method SipHash24Firmware(key: bytes, msg: bytes, len: nat) returns (mac: word)
    requires |key| == 16 && len <= |msg|
    ensures mac == Mac(key, msg[..len])
  {
    hide Word, Round, Init, Xor, Or, Placed, Bits, Blocks, TailWord;
    ghost var text := msg[..len];
    var k0 := LoadU64Le(key);
    var k1 := LoadU64Le(key[8..]);
    assert key[8..][..8] == key[8..];
    var s := Init(k0, k1);
    var blocks := len / 8;
    for i := 0 to blocks
      invariant s == Absorb(Start(key), Blocks(text)[..i])
    {
      assert msg[i * 8..][..8] == text[i * 8..i * 8 + 8];
      var m := LoadU64Le(msg[i * 8..]);
      BlockAt(text, i);
      s := s.(v3 := Xor(s.v3, m));
      s := SipRoundFirmware(s);
      s := SipRoundFirmware(s);
      s := s.(v0 := Xor(s.v0, m));
      AbsorbOneMore(Start(key), Blocks(text), i);
    }
    assert Blocks(text)[..blocks] == Blocks(text);
    var tail := msg[blocks * 8..len];
    assert tail == text[blocks * 8..];
    var b := TailLadder(len % 256, tail);
    s := s.(v3 := Xor(s.v3, b));
    s := SipRoundFirmware(s);
    s := SipRoundFirmware(s);
    s := s.(v0 := Xor(s.v0, b));
    MacByBlocks(key, text);
    s := s.(v2 := Xor(s.v2, 0xFF));
    s := SipRoundFirmware(s);
    s := SipRoundFirmware(s);
    s := SipRoundFirmware(s);
    s := SipRoundFirmware(s);
    mac := Xor(Xor(Xor(s.v0, s.v1), s.v2), s.v3);
  }
}

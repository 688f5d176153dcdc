/** Known answers: SipHash-2-4 evaluated round by round on the four vectors the firmware
    checks itself against at boot, and that check. */
module SipHashVectors {
  import opened Bytes
  import opened SipHash
  import opened MacWire
  import FirmwareFraming

  // ----- evaluating the definition -----

  function Turn13(x: word): word { (x << 13) | (x >> 51) }
  function Turn16(x: word): word { (x << 16) | (x >> 48) }
  function Turn17(x: word): word { (x << 17) | (x >> 47) }
  function Turn21(x: word): word { (x << 21) | (x >> 43) }
  function Turn32(x: word): word { (x << 32) | (x >> 32) }

  lemma {:induction false} RotlTurns(x: word)
    ensures Rotl(x, 13) == Turn13(x) && Rotl(x, 16) == Turn16(x) && Rotl(x, 17) == Turn17(x)
    ensures Rotl(x, 21) == Turn21(x) && Rotl(x, 32) == Turn32(x)
  {
  }

  lemma {:induction false} RoundIs(s: State, t: State)
    requires var a0, a2 := Add(s.v0, s.v1), Add(s.v2, s.v3);
             var a1, a3 := Xor(Turn13(s.v1), a0), Xor(Turn16(s.v3), a2);
             var b0, b2 := Add(Turn32(a0), a3), Add(a2, a1);
             t == State(b0, Xor(Turn17(a1), b2), Turn32(b2), Xor(Turn21(a3), b0))
    ensures Round(s) == t
  {
    hide Rotl, Add, Xor, Turn13, Turn16, Turn17, Turn21, Turn32;
    var a0, a2 := Add(s.v0, s.v1), Add(s.v2, s.v3);
    var a1, a3 := Xor(Turn13(s.v1), a0), Xor(Turn16(s.v3), a2);
    RotlTurns(s.v1);
    RotlTurns(s.v3);
    RotlTurns(a0);
    RotlTurns(a1);
    RotlTurns(a3);
    RotlTurns(Add(a2, a1));
  }

  lemma WordAt(s: bytes, i: nat, b: bv8)
    requires i < |s| && b as int == s[i]
    ensures Word(s[i..]) == Or(Wide(b), UpEight(Word(s[i + 1..])))
  {
    hide Or, Wide, UpEight;
    SameValueSameBits(Bits(s[i]), b);
    hide Bits;
    assert s[i..][1..] == s[i + 1..];
  }

  lemma WordOfNone()
    ensures Word([]) == 0
  {
  }

  /** Eight bytes, first byte lowest. */
  lemma {:induction false} WordIs(s: bytes, b: seq<bv8>, w: word)
    requires |s| == 8 == |b| && forall i :: 0 <= i < 8 ==> b[i] as int == s[i]
    requires w == Or(Wide(b[0]), UpEight(Or(Wide(b[1]), UpEight(Or(Wide(b[2]), UpEight(Or(Wide(b[3]), UpEight(
                  Or(Wide(b[4]), UpEight(Or(Wide(b[5]), UpEight(Or(Wide(b[6]), UpEight(Or(Wide(b[7]), 0)))))))))))))))
    ensures Word(s) == w
  {
    hide Or, Wide, UpEight, Word;
    UpOfZero();
    WordAt(s, 0, b[0]);
    WordAt(s, 1, b[1]);
    WordAt(s, 2, b[2]);
    WordAt(s, 3, b[3]);
    WordAt(s, 4, b[4]);
    WordAt(s, 5, b[5]);
    WordAt(s, 6, b[6]);
    WordAt(s, 7, b[7]);
    assert s[0..] == s && s[8..] == [];
    WordOfNone();
  }

  // ----- the key and the messages -----

  /** 0, 1, 2, ... */
  function Counting(n: nat): (s: bytes)
    requires n <= 256
    ensures |s| == n
  {
    seq(n, i requires 0 <= i < n => i)
  }

  /** The state once the key 0..15 is in. */
  const KEYED: State := State(0x7469686173716475, 0x6b617f6d656e6665, 0x6b7f62616d677361, 0x7b6b696e727e6c7b)

  /** The state once the bytes 0..7 are in as well. */
  const ONE_BLOCK: State := State(0x4a017198de0a59e0, 0x0d52f6f62a4f59a4, 0x634cb3577b01fd3d, 0xa5224d6f55c7d9c8)

  lemma LowWord(s: bytes)
    requires s == [0, 1, 2, 3, 4, 5, 6, 7]
    ensures Word(s) == 0x0706050403020100
  {
    hide Word;
    WordIs(s, [0, 1, 2, 3, 4, 5, 6, 7], 0x0706050403020100);
  }

  lemma HighWord(s: bytes)
    requires s == [8, 9, 10, 11, 12, 13, 14, 15]
    ensures Word(s) == 0x0f0e0d0c0b0a0908
  {
    hide Word;
    WordIs(s, [8, 9, 10, 11, 12, 13, 14, 15], 0x0f0e0d0c0b0a0908);
  }

  lemma {:induction false} KeyedIs()
    ensures Init(0x0706050403020100, 0x0f0e0d0c0b0a0908) == KEYED
  {
  }

  lemma NoBlocks(msg: bytes)
    requires |msg| < 8
    ensures Absorb(KEYED, Blocks(msg)) == KEYED
  {
  }

  lemma StartIs()
    ensures Start(Counting(16)) == KEYED
  {
    hide Word, Init;
    LowWord(Counting(16)[..8]);
    HighWord(Counting(16)[8..]);
    KeyedIs();
  }

  lemma {:induction false} FirstBlock()
    ensures Compress(KEYED, 0x0706050403020100)
         == State(0x4a017198de0a59e0, 0x0d52f6f62a4f59a4, 0x634cb3577b01fd3d, 0xa5224d6f55c7d9c8)
  {
    hide Round;
    var s0 := State(0x7469686173716475, 0x6b617f6d656e6665, 0x6b7f62616d677361, 0x7c6d6c6a717c6d7b);
    var s1 := State(0x64668a929363847f, 0x4ed232083d9aa8dc, 0xf2f74892d8141a2e, 0x9290f9810552f4a8);
    RoundIs(s0, s1);
    RoundIs(s1, State(0x4d07749cdd0858e0, 0x0d52f6f62a4f59a4, 0x634cb3577b01fd3d, 0xa5224d6f55c7d9c8));
  }

  lemma {:induction false} Tail0()
    ensures Compress(KEYED, 0x0000000000000000)
         == State(0x75126fd44af190b6, 0x084235164f06142b, 0x37b04f9f8026831d, 0x1b4678cde8253231)
  {
    hide Round;
    var s0 := State(0x7469686173716475, 0x6b617f6d656e6665, 0x6b7f62616d677361, 0x7b6b696e727e6c7b);
    var s1 := State(0x6864848c93698c85, 0x41d43f143c94a7dc, 0xf3f94792d7121732, 0x5e52f75805987c12);
    RoundIs(s0, s1);
    RoundIs(s1, State(0x75126fd44af190b6, 0x084235164f06142b, 0x37b04f9f8026831d, 0x1b4678cde8253231));
  }

  lemma {:induction false} Finish0()
    ensures Finish(State(0x75126fd44af190b6, 0x084235164f06142b, 0x37b04f9f8026831d, 0x1b4678cde8253231))
         == 0x726fdb47dd0e0e31
  {
    hide Round;
    var s0 := State(0x75126fd44af190b6, 0x084235164f06142b, 0x37b04f9f802683e2, 0x1b4678cde8253231);
    var s1 := State(0xc432c529d7cf523f, 0x54f98392486c0c10, 0xc3be7bfc8eed3577, 0xcd398a7c7d6a155b);
    var s2 := State(0x3abfd9623238d0a7, 0xb9354b5807b0cd1e, 0xae109fa2ba56082a, 0x58dcf8f2cf5b8028);
    var s3 := State(0x3808f593fd8ef548, 0x2913fc753c3d6609, 0xa9fbd335618bbce1, 0xc1c9c6a9ec5136a2);
    RoundIs(s0, s1);
    RoundIs(s1, s2);
    RoundIs(s2, s3);
    RoundIs(s3, State(0xe738d0dfdc9b2453, 0x214ac5771e0c4cd2, 0xe2ea71f68a57ef6d, 0x56f7bf1995ce89dd));
  }

  lemma LastWord0(tail: bytes)
    requires tail == Counting(0)[0..]
    ensures TailWord(0, tail) == 0x0000000000000000
  {
    hide Word, TailWord;
    LastWord(0, tail);
    var last := LastBlock(0, tail);
    assert last == [0, 0, 0, 0, 0, 0, 0, 0];
    WordIs(last, [0, 0, 0, 0, 0, 0, 0, 0], 0x0000000000000000);
  }

  lemma Wire0(wire: bytes)
    requires wire == [0x31, 0x0E, 0x0E, 0xDD, 0x47, 0xDB, 0x6F, 0x72]
    ensures MacBytes(0x726fdb47dd0e0e31) == wire
  {
    hide Word, MacBytes;
    WordIs(wire, [0x31, 0x0E, 0x0E, 0xDD, 0x47, 0xDB, 0x6F, 0x72], 0x726fdb47dd0e0e31);
    MacBytesRoundTrip(0x726fdb47dd0e0e31, wire);
  }

  lemma Answer0()
    ensures MacBytes(Mac(Counting(16), Counting(0))) == [0x31, 0x0E, 0x0E, 0xDD, 0x47, 0xDB, 0x6F, 0x72]
  {
    hide Word, Compress, Finish, TailWord, MacBytes, Absorb, Start;
    var msg := Counting(0);
    MacByBlocks(Counting(16), msg);
    StartIs();
    NoBlocks(msg);
    LastWord0(msg[0..]);
    Tail0();
    Finish0();
    Wire0([0x31, 0x0E, 0x0E, 0xDD, 0x47, 0xDB, 0x6F, 0x72]);
  }

  lemma {:induction false} Tail1()
    ensures Compress(KEYED, 0x0100000000000000)
         == State(0x811250d48cf12ab6, 0xe14235162c59b20b, 0x56aff1bf6926831d, 0xee4e87d86e272835)
  {
    hide Round;
    var s0 := State(0x7469686173716475, 0x6b617f6d656e6665, 0x6b7f62616d677361, 0x7a6b696e727e6c7b);
    var s1 := State(0x6564848c93698d85, 0x40d43f143c94a7dc, 0xf3f94792d6121732, 0x5352f75825981d12);
    RoundIs(s0, s1);
    RoundIs(s1, State(0x801250d48cf12ab6, 0xe14235162c59b20b, 0x56aff1bf6926831d, 0xee4e87d86e272835));
  }

  lemma {:induction false} Finish1()
    ensures Finish(State(0x811250d48cf12ab6, 0xe14235162c59b20b, 0x56aff1bf6926831d, 0xee4e87d86e272835))
         == 0x74f839c593dc67fd
  {
    hide Round;
    var s0 := State(0x811250d48cf12ab6, 0xe14235162c59b20b, 0x56aff1bf692683e2, 0xee4e87d86e272835);
    var s1 := State(0x7c70f47261ccc843, 0xe937a7ee278b04ec, 0x66594d0069f4b9f9, 0x8a6f1b7a2af4ac81);
    var s2 := State(0x750a0fbd9e118875, 0x333e1298dea09429, 0x7eb3b683821dc10c, 0x24cd02a01cacfe3d);
    var s3 := State(0x1dd2c22e093fbdda, 0x7e9f2ec878f32e74, 0x0d01fa420d9bf2a6, 0xac3edcdd79ab99ce);
    RoundIs(s0, s1);
    RoundIs(s1, s2);
    RoundIs(s2, s3);
    RoundIs(s3, State(0xe7d09b02bafb1140, 0xcd3818f0a8790340, 0x6f43f01132e9d708, 0x31534a26b3b7a2f5));
  }

  lemma LastWord1(tail: bytes)
    requires tail == Counting(1)[0..]
    ensures TailWord(1, tail) == 0x0100000000000000
  {
    hide Word, TailWord;
    LastWord(1, tail);
    var last := LastBlock(1, tail);
    assert last == [0, 0, 0, 0, 0, 0, 0, 1];
    WordIs(last, [0, 0, 0, 0, 0, 0, 0, 1], 0x0100000000000000);
  }

  lemma Wire1(wire: bytes)
    requires wire == [0xFD, 0x67, 0xDC, 0x93, 0xC5, 0x39, 0xF8, 0x74]
    ensures MacBytes(0x74f839c593dc67fd) == wire
  {
    hide Word, MacBytes;
    WordIs(wire, [0xFD, 0x67, 0xDC, 0x93, 0xC5, 0x39, 0xF8, 0x74], 0x74f839c593dc67fd);
    MacBytesRoundTrip(0x74f839c593dc67fd, wire);
  }

  lemma Answer1()
    ensures MacBytes(Mac(Counting(16), Counting(1))) == [0xFD, 0x67, 0xDC, 0x93, 0xC5, 0x39, 0xF8, 0x74]
  {
    hide Word, Compress, Finish, TailWord, MacBytes, Absorb, Start;
    var msg := Counting(1);
    MacByBlocks(Counting(16), msg);
    StartIs();
    NoBlocks(msg);
    LastWord1(msg[0..]);
    Tail1();
    Finish1();
    Wire1([0xFD, 0x67, 0xDC, 0x93, 0xC5, 0x39, 0xF8, 0x74]);
  }

  lemma FirstBlockIs(msg: bytes)
    requires 8 <= |msg| < 16 && msg[..8] == [0, 1, 2, 3, 4, 5, 6, 7]
    ensures Absorb(KEYED, Blocks(msg)) == ONE_BLOCK
  {
    hide Word, Compress;
    LowWord(msg[..8]);
    assert Blocks(msg) == [Word(msg[..8])];
    AbsorbOneMore(KEYED, Blocks(msg), 0);
    assert Blocks(msg)[..1] == Blocks(msg) && Blocks(msg)[..0] == [];
    FirstBlock();
  }

  lemma {:induction false} Tail8()
    ensures Compress(ONE_BLOCK, 0x0800000000000000)
         == State(0x89d9124023d9a50f, 0xb1d61ba5fb187052, 0x923c25dba476bcad, 0x2db69326a593860d)
  {
    hide Round;
    var s0 := State(0x4a017198de0a59e0, 0x0d52f6f62a4f59a4, 0x634cb3577b01fd3d, 0xad224d6f55c7d9c8);
    var s1 := State(0x655a08856055e2b6, 0x42746857d06b1a26, 0xb437093319f9ae8d, 0xc57b28aa24be42bc);
    RoundIs(s0, s1);
    RoundIs(s1, State(0x81d9124023d9a50f, 0xb1d61ba5fb187052, 0x923c25dba476bcad, 0x2db69326a593860d));
  }

  lemma {:induction false} Finish8()
    ensures Finish(State(0x89d9124023d9a50f, 0xb1d61ba5fb187052, 0x923c25dba476bcad, 0x2db69326a593860d))
         == 0x93f5f5799a932462
  {
    hide Round;
    var s0 := State(0x89d9124023d9a50f, 0xb1d61ba5fb187052, 0x923c25dba476bc52, 0x2db69326a593860d);
    var s1 := State(0x4bc631f307b69dcf, 0x9dc46a77ddb5740d, 0x5b0285bab8ce4b87, 0xd9ffb11efa93074c);
    var s2 := State(0x6988de279db82796, 0x567e096ebb863cbf, 0xff4ef53799c69eb5, 0xe0de5b96f828a40f);
    var s3 := State(0x14fa0d3bf5e789b0, 0x8095bce62dacd308, 0x3098d15ee15881b5, 0x083cb12fb6b0fec5);
    RoundIs(s0, s1);
    RoundIs(s1, s2);
    RoundIs(s2, s3);
    RoundIs(s3, State(0xad8e90f6fc5c5268, 0x45c7e1ccc8aa8902, 0x51fecd245ae89226, 0x2a424967f48d6d2e));
  }

  lemma LastWord8(tail: bytes)
    requires tail == Counting(8)[8..]
    ensures TailWord(8, tail) == 0x0800000000000000
  {
    hide Word, TailWord;
    LastWord(8, tail);
    var last := LastBlock(8, tail);
    assert last == [0, 0, 0, 0, 0, 0, 0, 8];
    WordIs(last, [0, 0, 0, 0, 0, 0, 0, 8], 0x0800000000000000);
  }

  lemma Wire8(wire: bytes)
    requires wire == [0x62, 0x24, 0x93, 0x9A, 0x79, 0xF5, 0xF5, 0x93]
    ensures MacBytes(0x93f5f5799a932462) == wire
  {
    hide Word, MacBytes;
    WordIs(wire, [0x62, 0x24, 0x93, 0x9A, 0x79, 0xF5, 0xF5, 0x93], 0x93f5f5799a932462);
    MacBytesRoundTrip(0x93f5f5799a932462, wire);
  }

  lemma Answer8()
    ensures MacBytes(Mac(Counting(16), Counting(8))) == [0x62, 0x24, 0x93, 0x9A, 0x79, 0xF5, 0xF5, 0x93]
  {
    hide Word, Compress, Finish, TailWord, MacBytes, Absorb, Start;
    var msg := Counting(8);
    MacByBlocks(Counting(16), msg);
    StartIs();
    FirstBlockIs(msg);
    LastWord8(msg[8..]);
    Tail8();
    Finish8();
    Wire8([0x62, 0x24, 0x93, 0x9A, 0x79, 0xF5, 0xF5, 0x93]);
  }

  lemma {:induction false} Tail15()
    ensures Compress(ONE_BLOCK, 0x0f0e0d0c0b0a0908)
         == State(0x3c85b3ab6f55be51, 0x414fc3fb98efe374, 0xccf13ea527b9f4bd, 0x5293f5da84008f82)
  {
    hide Round;
    var s0 := State(0x4a017198de0a59e0, 0x0d52f6f62a4f59a4, 0x634cb3577b01fd3d, 0xaa2c40635ecdd0c0);
    var s1 := State(0x557560fb6063d060, 0x4c8e675bd961133e, 0xbd3d002b1703a181, 0xfb9441179a4a7315);
    RoundIs(s0, s1);
    RoundIs(s1, State(0x338bbea7645fb759, 0x414fc3fb98efe374, 0xccf13ea527b9f4bd, 0x5293f5da84008f82));
  }

  lemma {:induction false} Finish15()
    ensures Finish(State(0x3c85b3ab6f55be51, 0x414fc3fb98efe374, 0xccf13ea527b9f4bd, 0x5293f5da84008f82))
         == 0xa129ca6149be45e5
  {
    hide Round;
    var s0 := State(0x3c85b3ab6f55be51, 0x414fc3fb98efe374, 0xccf13ea527b9f442, 0x5293f5da84008f82);
    var s1 := State(0xf2a55244a20e48fe, 0xac5ad16ccc3ca6e4, 0x9fe5adb0a52f393a, 0xfd41d55e88f30308);
    var s2 := State(0xb6c3fbdecc2ae4b4, 0x1638c86adc6b3cf0, 0x28b8b6ab62553d46, 0xc9465e86ec43eb95);
    var s3 := State(0x58101b167209a5e6, 0xf8792ae75b66e7dd, 0x1da14c3ec7f0b4f7, 0x7624ba8a41bc4ad9);
    RoundIs(s0, s1);
    RoundIs(s1, s2);
    RoundIs(s2, s3);
    RoundIs(s3, State(0xf6bcd53893fecff1, 0x54b9964c7ea0d937, 0x1b38329c099bb55a, 0x1814bb89ad7be679));
  }

  lemma LastWord15(tail: bytes)
    requires tail == Counting(15)[8..]
    ensures TailWord(15, tail) == 0x0f0e0d0c0b0a0908
  {
    hide Word, TailWord;
    LastWord(15, tail);
    var last := LastBlock(15, tail);
    assert last == [8, 9, 10, 11, 12, 13, 14, 15];
    HighWord(last);
  }

  lemma Wire15(wire: bytes)
    requires wire == [0xE5, 0x45, 0xBE, 0x49, 0x61, 0xCA, 0x29, 0xA1]
    ensures MacBytes(0xa129ca6149be45e5) == wire
  {
    hide Word, MacBytes;
    WordIs(wire, [0xE5, 0x45, 0xBE, 0x49, 0x61, 0xCA, 0x29, 0xA1], 0xa129ca6149be45e5);
    MacBytesRoundTrip(0xa129ca6149be45e5, wire);
  }

  lemma Answer15()
    ensures MacBytes(Mac(Counting(16), Counting(15))) == [0xE5, 0x45, 0xBE, 0x49, 0x61, 0xCA, 0x29, 0xA1]
  {
    hide Word, Compress, Finish, TailWord, MacBytes, Absorb, Start;
    var msg := Counting(15);
    MacByBlocks(Counting(16), msg);
    StartIs();
    FirstBlockIs(msg);
    LastWord15(msg[8..]);
    Tail15();
    Finish15();
    Wire15([0xE5, 0x45, 0xBE, 0x49, 0x61, 0xCA, 0x29, 0xA1]);
  }

  // ----- the boot check -----

  /** One vector: the length of the message 0, 1, 2, ... and its tag on the wire. */
  datatype Vector = Vector(len: nat, want: bytes)

  const VECTORS: seq<Vector> := [
    Vector(0, [0x31, 0x0E, 0x0E, 0xDD, 0x47, 0xDB, 0x6F, 0x72]),
    Vector(1, [0xFD, 0x67, 0xDC, 0x93, 0xC5, 0x39, 0xF8, 0x74]),
    Vector(8, [0x62, 0x24, 0x93, 0x9A, 0x79, 0xF5, 0xF5, 0x93]),
    Vector(15, [0xE5, 0x45, 0xBE, 0x49, 0x61, 0xCA, 0x29, 0xA1])]

  /** The definition gives the canonical tags. */
  lemma KnownAnswers(v: nat)
    requires v < |VECTORS|
    ensures MacBytes(Mac(Counting(16), Counting(VECTORS[v].len))) == VECTORS[v].want
  {
    hide MacBytes, Mac, Counting;
    Answer0();
    Answer1();
    Answer8();
    Answer15();
  }

  /** siphash_kat_ok: the firmware's check passes, so the device enters its main loop. */
  method SiphashKatOk() returns (ok: bool)
    ensures ok
  {
    hide MacBytes, Mac;
    var msg := Counting(16);
    for v := 0 to |VECTORS|
    {
      var mac := SipHash24Firmware(Counting(16), msg, VECTORS[v].len);
      assert msg[..VECTORS[v].len] == Counting(VECTORS[v].len);
      KnownAnswers(v);
      var out := FirmwareFraming.SiphashToLeBytes(mac);
      for b := 0 to 8
      {
        if out[b] != VECTORS[v].want[b] {
          assert false;
          return false;
        }
      }
    }
    return true;
  }
}

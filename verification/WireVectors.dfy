/** Known frames: a command and a reply under the test key 0..15, computed to the last digit
    of their tags. */
module WireVectors {
  import opened Bytes
  import opened Outcomes
  import opened SipHash
  import opened SipHashVectors
  import opened MacWire
  import opened Decimal
  import opened Framing
  import opened FirmwareFraming

  lemma NothingAbsorbed()
    ensures Absorb(KEYED, []) == KEYED
  {
  }

  // ----- the command -----

  const CMD_1: State := State(0x27f48d747910816f, 0xee634cb5211e6245, 0x65d09f425e7c3dce, 0x621f6abe4a421ec8)

  lemma {:induction false} CmdBlock1()
    ensures Compress(KEYED, 0x7620323420444d43)
         == CMD_1
  {
    hide Round;
    var s0 := State(0x7469686173716475, 0x6b617f6d656e6665, 0x6b7f62616d677361, 0x0d4b5b5a523a2138);
    var s1 := State(0xfc70ba5c7e6481a0, 0xfe3421381cd91c01, 0xd3b4fc4f68f2091e, 0x0c43696f4420f3bd);
    RoundIs(s0, s1);
    RoundIs(s1, State(0x51d4bf405954cc2c, 0xee634cb5211e6245, 0x65d09f425e7c3dce, 0x621f6abe4a421ec8));
  }

  lemma {:induction false} CmdTail()
    ensures Compress(CMD_1, 0x0f30207966697265)
         == State(0x15192026d77d149c, 0x3afcff95b42a08e1, 0xee42bbac30eff68a, 0xf430fa80b9639e15)
  {
    hide Round;
    var s0 := State(0x27f48d747910816f, 0xee634cb5211e6245, 0x65d09f425e7c3dce, 0x6d2f4ac72c2b6cad);
    var s1 := State(0x3267a9d6fc62a17d, 0xaed5c4df5dfef771, 0xe10e08f352c16813, 0xf63b688e16f1a665);
    RoundIs(s0, s1);
    RoundIs(s1, State(0x1a29005fb11466f9, 0x3afcff95b42a08e1, 0xee42bbac30eff68a, 0xf430fa80b9639e15));
  }

  lemma {:induction false} CmdFinish()
    ensures Finish(State(0x15192026d77d149c, 0x3afcff95b42a08e1, 0xee42bbac30eff68a, 0xf430fa80b9639e15))
         == 0xf2b21834009fce14
  {
    hide Round;
    var s0 := State(0x15192026d77d149c, 0x3afcff95b42a08e1, 0xee42bbac30eff675, 0xf430fa80b9639e15);
    var s1 := State(0xa49a2cccc45c8076, 0xe02bca10c14b5165, 0xb50eceacb2585f66, 0x4d74a400d31f9e17);
    var s2 := State(0x2c2b738da026a6e6, 0xdde2beb4aebe9054, 0x75036b5b000b61a2, 0x1a681f9ba1127692);
    var s3 := State(0xdfd5631ee19df49e, 0xa26f0b5367013f0b, 0x3e0d84baed44328c, 0xa34f92e6aa0fea9b);
    RoundIs(s0, s1);
    RoundIs(s1, s2);
    RoundIs(s2, s3);
    RoundIs(s3, State(0xbc5af15800142cda, 0x41afc4c8891aa357, 0x06d2650b448b1a34, 0x099548afcd1a5bad));
  }

  lemma CmdWords(s: bytes)
    requires s == [0x43, 0x4D, 0x44, 0x20, 0x34, 0x32, 0x20, 0x76, 0x65, 0x72, 0x69, 0x66, 0x79, 0x20, 0x30]
    ensures Blocks(s) == [0x7620323420444d43]
  {
    hide Word;
    WordIs(s[0..8], [0x43, 0x4D, 0x44, 0x20, 0x34, 0x32, 0x20, 0x76], 0x7620323420444d43);
    assert |Blocks(s)| == 1;
  }

  lemma CmdLast(s: bytes)
    requires s == [0x43, 0x4D, 0x44, 0x20, 0x34, 0x32, 0x20, 0x76, 0x65, 0x72, 0x69, 0x66, 0x79, 0x20, 0x30]
    ensures TailWord(15, s[8..]) == 0x0f30207966697265
  {
    hide Word, TailWord;
    LastWord(15, s[8..]);
    var last := LastBlock(15, s[8..]);
    assert last == [0x65, 0x72, 0x69, 0x66, 0x79, 0x20, 0x30, 0x0F];
    WordIs(last, [0x65, 0x72, 0x69, 0x66, 0x79, 0x20, 0x30, 0x0F], 0x0f30207966697265);
  }

  lemma CmdAbsorbed()
    ensures Absorb(KEYED, [0x7620323420444d43]) == CMD_1
  {
    hide Compress, Absorb;
    var ms: seq<word> := [0x7620323420444d43];
    NothingAbsorbed();
    assert ms[..0] == [] && ms[..1] == ms;
    AbsorbOneMore(KEYED, ms, 0);
    CmdBlock1();
  }

  lemma CmdWire(wire: bytes)
    requires wire == [0x14, 0xCE, 0x9F, 0x00, 0x34, 0x18, 0xB2, 0xF2]
    ensures MacBytes(0xf2b21834009fce14) == wire
  {
    hide Word, MacBytes;
    WordIs(wire, [0x14, 0xCE, 0x9F, 0x00, 0x34, 0x18, 0xB2, 0xF2], 0xf2b21834009fce14);
    MacBytesRoundTrip(0xf2b21834009fce14, wire);
  }

  lemma CmdMac(s: bytes)
    requires s == [0x43, 0x4D, 0x44, 0x20, 0x34, 0x32, 0x20, 0x76, 0x65, 0x72, 0x69, 0x66, 0x79, 0x20, 0x30]
    ensures MacBytes(Mac(Counting(16), s)) == [0x14, 0xCE, 0x9F, 0x00, 0x34, 0x18, 0xB2, 0xF2]
  {
    hide Word, Compress, Finish, TailWord, MacBytes, Absorb, Start, Blocks;
    MacByBlocks(Counting(16), s);
    StartIs();
    CmdWords(s);
    CmdAbsorbed();
    CmdLast(s);
    CmdTail();
    CmdFinish();
    CmdWire([0x14, 0xCE, 0x9F, 0x00, 0x34, 0x18, 0xB2, 0xF2]);
  }

  // ----- the reply -----

  const RSP_1: State := State(0x12f35e0782b3174a, 0xca8c647ada8f9f4c, 0xe1b97a4b7aeda060, 0x3066ebfeacf7f4ca)

  const RSP_2: State := State(0xf6c8bef9baa48b99, 0xe4d94a5ab4e019c7, 0xe20cbdc00dfb2ab5, 0x39f350296bb9873c)

  const RSP_3: State := State(0x633616246c136d68, 0xf35cd4add42db60a, 0xba8c4b78b4941957, 0x92616fa1ee4cdce6)

  lemma {:induction false} RspBlock1()
    ensures Compress(KEYED, 0x3020323420505352)
         == RSP_1
  {
    hide Round;
    var s0 := State(0x7469686173716475, 0x6b617f6d656e6665, 0x6b7f62616d677361, 0x4b4b5b5a522e3f29);
    var s1 := State(0xc670ba706087e18f, 0x303421381cc4fa0e, 0xd3a91a40a6f2091e, 0x34c0adef58ba5392);
    RoundIs(s0, s1);
    RoundIs(s1, State(0x22d36c33a2e34418, 0xca8c647ada8f9f4c, 0xe1b97a4b7aeda060, 0x3066ebfeacf7f4ca));
  }

  lemma {:induction false} RspBlock2()
    ensures Compress(RSP_1, 0x534552474f525020)
         == RSP_2
  {
    hide Round;
    var s0 := State(0x12f35e0782b3174a, 0xca8c647ada8f9f4c, 0xe1b97a4b7aeda060, 0x6323b9b9e3a5a4ea);
    var s1 := State(0x5aa78e37d7f8e8eb, 0xa56a908f52b0d6f0, 0x0d3e751196cdcdd9, 0xaeb8c1131ac74471);
    RoundIs(s0, s1);
    RoundIs(s1, State(0xa58decbef5f6dbb9, 0xe4d94a5ab4e019c7, 0xe20cbdc00dfb2ab5, 0x39f350296bb9873c));
  }

  lemma {:induction false} RspBlock3()
    ensures Compress(RSP_2, 0x5f6563616c702053)
         == RSP_3
  {
    hide Round;
    var s0 := State(0xf6c8bef9baa48b99, 0xe4d94a5ab4e019c7, 0xe20cbdc00dfb2ab5, 0x6696334807c9a76f);
    var s1 := State(0xeb6f9c228e4dbe06, 0x841c89a83176c9cd, 0x82812c1f3b8c50d0, 0x3359c9541802c358);
    RoundIs(s0, s1);
    RoundIs(s1, State(0x3c53754500634d3b, 0xf35cd4add42db60a, 0xba8c4b78b4941957, 0x92616fa1ee4cdce6));
  }

  lemma {:induction false} RspTail()
    ensures Compress(RSP_3, 0x1e007265676e6966)
         == State(0x6856a8b747679b9c, 0x37e85e537e3294bf, 0xd1a8da16f4263330, 0x5f2c92a17a70c3e1)
  {
    hide Round;
    var s0 := State(0x633616246c136d68, 0xf35cd4add42db60a, 0xba8c4b78b4941957, 0x8c611dc48922b580);
    var s1 := State(0x9b6b0391dec92d88, 0xb25b5495ce04d3fe, 0x34374bf012f4b995, 0x989a0559880248b4);
    RoundIs(s0, s1);
    RoundIs(s1, State(0x7656dad22009f2fa, 0x37e85e537e3294bf, 0xd1a8da16f4263330, 0x5f2c92a17a70c3e1));
  }

  lemma {:induction false} RspFinish()
    ensures Finish(State(0x6856a8b747679b9c, 0x37e85e537e3294bf, 0xd1a8da16f4263330, 0x5f2c92a17a70c3e1))
         == 0x7d3935c49d8a43cf
  {
    hide Round;
    var s0 := State(0x6856a8b747679b9c, 0x37e85e537e3294bf, 0xd1a8da16f42633cf, 0x5f2c92a17a70c3e1);
    var s1 := State(0x680e47244db6afa6, 0x0d53fb9ea8e999bc, 0x05a4ce56dccad585, 0xb11be9d15e22e124);
    var s2 := State(0x55b22f6d512b4a74, 0xef6ddb2791156b52, 0x00857f71c0d25008, 0x94e9564da760a848);
    var s3 := State(0xa56428a6059a774d, 0x62df5020670a1cf2, 0xb75de07b93b3ce75, 0xfe9c27eb92a21323);
    RoundIs(s0, s1);
    RoundIs(s1, s2);
    RoundIs(s2, s3);
    RoundIs(s3, State(0xfeb62f043db997ca, 0x700f22fbe5597d72, 0x5590b9fc98417c8e, 0xa61081c7dd2bd5f9));
  }

  lemma RspWords(s: bytes)
    requires s == [0x52, 0x53, 0x50, 0x20, 0x34, 0x32, 0x20, 0x30, 0x20, 0x50, 0x52, 0x4F, 0x47, 0x52, 0x45, 0x53, 0x53, 0x20, 0x70, 0x6C, 0x61, 0x63, 0x65, 0x5F, 0x66, 0x69, 0x6E, 0x67, 0x65, 0x72]
    ensures Blocks(s) == [0x3020323420505352, 0x534552474f525020, 0x5f6563616c702053]
  {
    hide Word;
    WordIs(s[0..8], [0x52, 0x53, 0x50, 0x20, 0x34, 0x32, 0x20, 0x30], 0x3020323420505352);
    WordIs(s[8..16], [0x20, 0x50, 0x52, 0x4F, 0x47, 0x52, 0x45, 0x53], 0x534552474f525020);
    WordIs(s[16..24], [0x53, 0x20, 0x70, 0x6C, 0x61, 0x63, 0x65, 0x5F], 0x5f6563616c702053);
    assert |Blocks(s)| == 3;
  }

  lemma RspLast(s: bytes)
    requires s == [0x52, 0x53, 0x50, 0x20, 0x34, 0x32, 0x20, 0x30, 0x20, 0x50, 0x52, 0x4F, 0x47, 0x52, 0x45, 0x53, 0x53, 0x20, 0x70, 0x6C, 0x61, 0x63, 0x65, 0x5F, 0x66, 0x69, 0x6E, 0x67, 0x65, 0x72]
    ensures TailWord(30, s[24..]) == 0x1e007265676e6966
  {
    hide Word, TailWord;
    LastWord(30, s[24..]);
    var last := LastBlock(30, s[24..]);
    assert last == [0x66, 0x69, 0x6E, 0x67, 0x65, 0x72, 0x00, 0x1E];
    WordIs(last, [0x66, 0x69, 0x6E, 0x67, 0x65, 0x72, 0x00, 0x1E], 0x1e007265676e6966);
  }

  lemma RspAbsorbed()
    ensures Absorb(KEYED, [0x3020323420505352, 0x534552474f525020, 0x5f6563616c702053]) == RSP_3
  {
    hide Compress, Absorb;
    var ms: seq<word> := [0x3020323420505352, 0x534552474f525020, 0x5f6563616c702053];
    NothingAbsorbed();
    assert ms[..0] == [] && ms[..3] == ms;
    AbsorbOneMore(KEYED, ms, 0);
    RspBlock1();
    AbsorbOneMore(KEYED, ms, 1);
    RspBlock2();
    AbsorbOneMore(KEYED, ms, 2);
    RspBlock3();
  }

  lemma RspWire(wire: bytes)
    requires wire == [0xCF, 0x43, 0x8A, 0x9D, 0xC4, 0x35, 0x39, 0x7D]
    ensures MacBytes(0x7d3935c49d8a43cf) == wire
  {
    hide Word, MacBytes;
    WordIs(wire, [0xCF, 0x43, 0x8A, 0x9D, 0xC4, 0x35, 0x39, 0x7D], 0x7d3935c49d8a43cf);
    MacBytesRoundTrip(0x7d3935c49d8a43cf, wire);
  }

  lemma RspMac(s: bytes)
    requires s == [0x52, 0x53, 0x50, 0x20, 0x34, 0x32, 0x20, 0x30, 0x20, 0x50, 0x52, 0x4F, 0x47, 0x52, 0x45, 0x53, 0x53, 0x20, 0x70, 0x6C, 0x61, 0x63, 0x65, 0x5F, 0x66, 0x69, 0x6E, 0x67, 0x65, 0x72]
    ensures MacBytes(Mac(Counting(16), s)) == [0xCF, 0x43, 0x8A, 0x9D, 0xC4, 0x35, 0x39, 0x7D]
  {
    hide Word, Compress, Finish, TailWord, MacBytes, Absorb, Start, Blocks;
    MacByBlocks(Counting(16), s);
    StartIs();
    RspWords(s);
    RspAbsorbed();
    RspLast(s);
    RspTail();
    RspFinish();
    RspWire([0xCF, 0x43, 0x8A, 0x9D, 0xC4, 0x35, 0x39, 0x7D]);
  }

  // ----- the frames -----

  lemma FortyTwo()
    ensures Dec(42) == Ascii("42") && Dec(0) == Ascii("0")
  {
    assert Dec(4) == [0x34];
  }

  lemma HexOfEight(s: bytes)
    requires |s| == 8
    ensures Hex(s) == HexByte(s[0]) + HexByte(s[1]) + HexByte(s[2]) + HexByte(s[3])
                      + HexByte(s[4]) + HexByte(s[5]) + HexByte(s[6]) + HexByte(s[7])
  {
    hide HexByte, Hex;
    HexAt(s, 0);
    HexAt(s, 1);
    HexAt(s, 2);
    HexAt(s, 3);
    HexAt(s, 4);
    HexAt(s, 5);
    HexAt(s, 6);
    HexAt(s, 7);
    assert s[0..] == s && s[8..] == [];
    HexOfNone();
  }

  lemma HexAt(s: bytes, i: nat)
    requires i < |s|
    ensures Hex(s[i..]) == HexByte(s[i]) + Hex(s[i + 1..])
  {
    hide HexByte;
    assert s[i..][1..] == s[i + 1..];
  }

  lemma HexOfNone()
    ensures Hex([]) == []
  {
  }

  lemma CmdText(tag: bytes)
    requires tag == [0x14, 0xCE, 0x9F, 0x00, 0x34, 0x18, 0xB2, 0xF2]
    ensures Hex(tag) == Ascii("14ce9f003418b2f2")
  {
    HexOfEight(tag);
    hide Hex;
    assert Ascii("14ce9f003418b2f2") == [0x31, 0x34, 0x63, 0x65, 0x39, 0x66, 0x30, 0x30, 0x33, 0x34, 0x31, 0x38, 0x62, 0x32, 0x66, 0x32];
  }

  lemma RspText(tag: bytes)
    requires tag == [0xCF, 0x43, 0x8A, 0x9D, 0xC4, 0x35, 0x39, 0x7D]
    ensures Hex(tag) == Ascii("cf438a9dc435397d")
  {
    HexOfEight(tag);
    hide Hex;
    assert Ascii("cf438a9dc435397d") == [0x63, 0x66, 0x34, 0x33, 0x38, 0x61, 0x39, 0x64, 0x63, 0x34, 0x33, 0x35, 0x33, 0x39, 0x37, 0x64];
  }

  lemma CmdHead()
    ensures CMD_TAG + Ascii("42") + [SPACE] + Ascii("verify 0") == [0x43, 0x4D, 0x44, 0x20, 0x34, 0x32, 0x20, 0x76, 0x65, 0x72, 0x69, 0x66, 0x79, 0x20, 0x30]
    ensures C_LEADER + (Ascii("42") + [SPACE] + Ascii("verify 0")) + M_MARK == Ascii("C 42 verify 0 M ")
  {
  }

  lemma RspHead(body: bytes)
    requires body == Ascii("PROGRESS place_finger")
    ensures RSP_TAG + Ascii("42") + [SPACE] + Ascii("0") + [SPACE] + body == [0x52, 0x53, 0x50, 0x20, 0x34, 0x32, 0x20, 0x30, 0x20, 0x50, 0x52, 0x4F, 0x47, 0x52, 0x45, 0x53, 0x53, 0x20, 0x70, 0x6C, 0x61, 0x63, 0x65, 0x5F, 0x66, 0x69, 0x6E, 0x67, 0x65, 0x72]
    ensures R_LEADER + (Ascii("42") + [SPACE] + Ascii("0") + [SPACE] + body) + M_MARK == Ascii("R 42 0 ") + body + Ascii(" M ")
  {
  }

  /** The daemon's frame for "verify 0" under counter 42. */
  lemma KnownCommand()
    ensures EncodeCommand(Counting(16), Command(42, Ascii("verify 0"))) == Ascii("C 42 verify 0 M ") + Ascii("14ce9f003418b2f2")
  {
    hide Mac, MacBytes, Dec, Hex, Ascii;
    FortyTwo();
    CmdHead();
    var input := CommandInput(Command(42, Ascii("verify 0")));
    CmdMac(input);
    var tag: bytes := [0x14, 0xCE, 0x9F, 0x00, 0x34, 0x18, 0xB2, 0xF2];
    CmdText(tag);
    var head := Ascii("42") + [SPACE] + Ascii("verify 0");
    assert C_LEADER + head + (M_MARK + Hex(tag)) == (C_LEADER + head + M_MARK) + Hex(tag);
  }

  /** The Nano's first frame in answer. */
  lemma KnownReply()
    ensures var body := Ascii("PROGRESS place_finger");
            EncodeResponse(Counting(16), Response(42, 0, body)) == Ascii("R 42 0 ") + body + Ascii(" M ") + Ascii("cf438a9dc435397d")
  {
    hide Mac, MacBytes, Dec, Hex, Ascii;
    FortyTwo();
    var body := Ascii("PROGRESS place_finger");
    RspHead(body);
    var input := ResponseInput(Response(42, 0, body));
    RspMac(input);
    var tag: bytes := [0xCF, 0x43, 0x8A, 0x9D, 0xC4, 0x35, 0x39, 0x7D];
    RspText(tag);
    var head := Ascii("42") + [SPACE] + Ascii("0") + [SPACE] + body;
    assert R_LEADER + head + (M_MARK + Hex(tag)) == (R_LEADER + head + M_MARK) + Hex(tag);
  }
}

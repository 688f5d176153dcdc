/** A pairing's life, as whole commands: the pair line, the verbs of a paired Nano, and the
    unpair that ends it. */
module Onboarding {
  import opened Bytes
  import opened Outcomes
  import opened Decimal
  import opened MacWire
  import opened Framing
  import opened FirmwareFraming
  import opened Eeprom
  import opened EepromRing
  import opened Nano
  import opened NanoBuffers
  import ChannelAgreement
  import ChannelLimits
  import SipHash

  // ----- pair -----

  lemma PairLine(t: bytes)
    ensures var line := Ascii("pair ") + t;
            && line != Ascii("ping") && line != Ascii("status") && line != Ascii("unpair") && line != Ascii("led off")
            && !IsSensorVerb(line) && StartsWith(line, Ascii("pair ")) && line[5..] == t
            && |line| >= 2 && line[0] != 0x43
  {
    var line := Ascii("pair ") + t;
    assert line[..5] == Ascii("pair ");
    assert line[0] == 0x70 && line[1] == 0x61;
  }

  lemma HexHalves(t: bytes, key: Key)
    requires Lowered(t) == Hex(key)
    ensures |t| == 32 && UnHex(t) == Some(key)
  {
    UnHexExact(t, key);
  }

  lemma NoHex(t: bytes)
    requires |t| == 32 && forall key: Key :: Lowered(t) != Hex(key)
    ensures UnHex(t) == None
  {
    if UnHex(t).Some? {
      UnHexLength(t);
      UnHexExact(t, UnHex(t).value);
    }
  }

  /** An unpaired Nano that is sent "pair" and a key in hex, of either case, is paired with
      exactly that key, with no counter stored, and says so. */
  lemma PairStoresKey(img: Image, key: Key, t: bytes, script: bytes, saveCut: nat, bulkCut: nat)
    requires !IsPaired(img) && Lowered(t) == Hex(key) && bulkCut >= PAIRING_LEN
    ensures var out := Process(img, Ascii("pair ") + t, script, saveCut, bulkCut);
            && IsPaired(out.img) && KeyOf(out.img) == key && Load(out.img) == 0 && out.dispatched == None
            && out.tx == Ascii("OK paired") + CRLF && out.img == PairedImage(img, key)
  {
    hide IsPaired, KeyOf, Load, UnHex, PairedImage, Ascii, IsSensorVerb, StartsWith;
    PairLine(t);
    HexHalves(t, key);
    PairedRecord(img, key);
    FreshRing(img, key);
  }

  /** Anything else after "pair" changes nothing, and neither does a plain pair line to a Nano
      that is paired. */
  lemma PairRefusedOtherwise(img: Image, t: bytes, script: bytes, saveCut: nat, bulkCut: nat)
    requires IsPaired(img) || forall key: Key :: Lowered(t) != Hex(key)
    ensures Process(img, Ascii("pair ") + t, script, saveCut, bulkCut)
         == Outcome(img, (if IsPaired(img) then Ascii("ERR mac_required")
                          else if |t| != 32 then Ascii("ERR bad_args bad_key_len")
                          else Ascii("ERR bad_args bad_key_hex")) + CRLF, None, [])
  {
    hide IsPaired, UnHex, Ascii, IsSensorVerb, StartsWith, Lowered, Hex;
    PairLine(t);
    if !IsPaired(img) && |t| == 32 {
      NoHex(t);
    }
  }

  /** Inside a frame a paired Nano refuses to pair, and an unpaired one refuses to unpair. */
  lemma RefusedInside(img: Image, t: bytes, script: bytes, bulkCut: nat)
    ensures IsPaired(img) ==>
              Nano.Dispatch(img, Ascii("pair ") + t, script, bulkCut) == Dispatched(img, Ascii("ERR already_paired") + CRLF)
    ensures !IsPaired(img) ==>
              Nano.Dispatch(img, Ascii("unpair"), script, bulkCut) == Dispatched(img, Ascii("ERR not_paired") + CRLF)
  {
    hide IsPaired, UnHex, Ascii, IsSensorVerb, StartsWith;
    PairLine(t);
    UnpairIsNoVerb();
  }

  lemma UnpairIsNoVerb()
    ensures var t := Ascii("unpair");
            !IsSensorVerb(t) && t != Ascii("status") && !StartsWith(t, Ascii("pair "))
  {
    var t := Ascii("unpair");
    assert |t| == 6 && t[0] == 0x75;
  }

  /** What a pairing leaves, byte by byte. */
  lemma PairedLayout(img: Image, key: Key)
    ensures var p := PairedImage(img, key);
            && p[..8] == Ascii("R503FPv2") && p[8] == 2 && p[9..25] == key && p[25..32] == img[25..32]
            && (forall i :: 32 <= i < 192 ==> p[i] == 0xFF) && p[192..] == img[192..]
  {
    assert Ascii("R503FPv2") == MAGIC;
    hide Ascii;
    var p := PairedImage(img, key);
    assert p[..8] == MAGIC;
    assert p[9..25] == key;
  }

  // ----- the verbs -----

  /** What the daemon asks the sensor for. */
  datatype Request = Info | Enroll(slot: byte) | Verify | Identify | Delete(slot: byte) | Clear | Wake | Ping | LedOff

  /** The command text it sends for that. */
  function RequestText(q: Request): bytes {
    match q
    case Info => Ascii("info")
    case Enroll(slot) => Ascii("enroll ") + Dec(slot)
    case Verify => Ascii("verify")
    case Identify => Ascii("identify")
    case Delete(slot) => Ascii("delete ") + Dec(slot)
    case Clear => Ascii("clear confirm")
    case Wake => Ascii("wake")
    case Ping => Ascii("ping")
    case LedOff => Ascii("led off")
  }

  /** The texts that reach a handler which prints what its hardware tells it. */
  lemma HandlersReached(img: Image, t: bytes, script: bytes, bulkCut: nat)
    requires || t == Ascii("info") || t == Ascii("count") || t == Ascii("verify") || t == Ascii("identify")
             || t == Ascii("clear") || t == Ascii("clear confirm") || t == Ascii("wake")
             || StartsWith(t, Ascii("enroll ")) || StartsWith(t, Ascii("delete "))
    ensures Nano.Dispatch(img, t, script, bulkCut) == Dispatched(img, script)
  {
    hide StartsWith, Ascii;
  }

  /** Every other text that is no pair, unpair or status: two fixed answers, or the refusal
      that echoes at most forty bytes of it. */
  lemma OthersAnswered(img: Image, t: bytes, script: bytes, bulkCut: nat)
    requires t != Ascii("info") && t != Ascii("count") && t != Ascii("verify") && t != Ascii("identify")
    requires t != Ascii("clear") && t != Ascii("clear confirm") && t != Ascii("wake")
    requires !StartsWith(t, Ascii("enroll ")) && !StartsWith(t, Ascii("delete "))
    requires t != Ascii("status") && t != Ascii("unpair") && !StartsWith(t, Ascii("pair "))
    ensures Nano.Dispatch(img, t, script, bulkCut)
         == Dispatched(img, (if t == Ascii("ping") then Ascii("OK pong")
                             else if t == Ascii("led off") then Ascii("OK")
                             else Ascii("ERR unknown_command ") + t[..if |t| <= 40 then |t| else 40]) + CRLF)
  {
    hide StartsWith, Ascii;
    assert t[..|t|] == t;
  }

  /** The Nano can tell any two requests apart. */
  lemma RequestTextsDiffer(q: Request, r: Request)
    requires RequestText(q) == RequestText(r)
    ensures q == r
  {
    if q.Enroll? || q.Delete? || r.Enroll? || r.Delete? {
      SlotTexts(q, r);
    } else {
      PlainTexts(q, r);
    }
  }

  lemma SlotTexts(q: Request, r: Request)
    requires RequestText(q) == RequestText(r) && (q.Enroll? || q.Delete? || r.Enroll? || r.Delete?)
    ensures q == r
  {
    hide Dec;
    assert RequestText(q)[0] == RequestText(r)[0] && |RequestText(q)| == |RequestText(r)|;
    assert q.Enroll? <==> r.Enroll?;
    assert q.Delete? <==> r.Delete?;
    assert RequestText(q)[7..] == Dec(q.slot) && RequestText(r)[7..] == Dec(r.slot);
    DecIsCanonical(q.slot);
    DecIsCanonical(r.slot);
  }

  lemma PlainTexts(q: Request, r: Request)
    requires RequestText(q) == RequestText(r) && !q.Enroll? && !q.Delete? && !r.Enroll? && !r.Delete?
    ensures q == r
  {
    assert RequestText(q)[0] == RequestText(r)[0] && RequestText(q)[1] == RequestText(r)[1];
    assert |RequestText(q)| == |RequestText(r)|;
  }

  lemma RequestTextFits(q: Request)
    ensures 2 <= |RequestText(q)| <= 80 && 0 !in RequestText(q)
  {
    if q.Enroll? || q.Delete? {
      DecWidths(q.slot);
      assert forall b :: b in Dec(q.slot) ==> IsDigit(b);
    }
  }

  /** What the Nano does with it, once admitted. */
  lemma RequestDispatched(img: Image, q: Request, script: bytes, bulkCut: nat)
    ensures Nano.Dispatch(img, RequestText(q), script, bulkCut)
         == Dispatched(img, if q.Ping? then Ascii("OK pong") + CRLF else if q.LedOff? then Ascii("OK") + CRLF else script)
  {
    var t := RequestText(q);
    if q.Ping? || q.LedOff? {
      FixedAnswer(img, t, script, bulkCut);
    } else {
      if q.Enroll? {
        Prefixes(Ascii("enroll "), Dec(q.slot));
      } else if q.Delete? {
        Prefixes(Ascii("delete "), Dec(q.slot));
      }
      hide Ascii, StartsWith;
      HandlersReached(img, t, script, bulkCut);
    }
  }

  lemma Prefixes(p: bytes, rest: bytes)
    ensures StartsWith(p + rest, p)
  {
    assert (p + rest)[..|p|] == p;
  }

  lemma FixedAnswer(img: Image, t: bytes, script: bytes, bulkCut: nat)
    requires t == Ascii("ping") || t == Ascii("led off")
    ensures Nano.Dispatch(img, t, script, bulkCut)
         == Dispatched(img, (if t == Ascii("ping") then Ascii("OK pong") else Ascii("OK")) + CRLF)
  {
    assert |Ascii("ping")| != |Ascii("led off")|;
    assert t[0] == 0x70 || t[0] == 0x6C;
    assert t[1] == 0x69 || t[1] == 0x65;
    OthersAnswered(img, t, script, bulkCut);
  }

  lemma Executed(saved: Image, cmd: Command, script: bytes, bulkCut: nat)
    requires |cmd.text| <= 80 && 0 !in cmd.text
    ensures var d := Nano.Dispatch(saved, cmd.text, script, bulkCut);
            var bodies := PrintedBodies(d.printed);
            Nano.Execute(saved, cmd, script, bulkCut)
            == Outcome(d.img, FrameStream(KeyOf(saved), cmd.counter, bodies), Some(cmd), bodies)
  {
    hide Nano.Dispatch, PrintedBodies, FrameStream, KeyOf;
  }

  /** Whatever the daemon asks for, under a counter the Nano can take: it is saved, its own
      handler is run, and what that prints goes out in frames. */
  lemma RequestsAreServed(img: Image, key: Key, counter: u64, q: Request, script: bytes, saveCut: nat, bulkCut: nat)
    requires IsPaired(img) && KeyOf(img) == key && Load(img) < counter < COUNTER_CEILING && saveCut >= CELL_SIZE
    ensures var cmd := Command(counter, RequestText(q));
            var out := Process(img, EncodeCommand(key, cmd), script, saveCut, bulkCut);
            && IsPaired(out.img) && KeyOf(out.img) == key && Load(out.img) == counter && out.dispatched == Some(cmd)
            && out.bodies == (if q.Ping? then [Ascii("OK pong")] else if q.LedOff? then [Ascii("OK")] else PrintedBodies(script))
            && out.tx == FrameStream(key, counter, out.bodies)
  {
    hide IsPaired, KeyOf, Load, Process, EncodeCommand, Nano.Dispatch, Nano.Execute, PrintedBodies, FrameStream,
         SavedPrefix, RequestText, Ascii;
    var cmd := Command(counter, RequestText(q));
    RequestTextFits(q);
    ChannelLimits.ShortFrame(key, cmd);
    ChannelAgreement.ReachesGate(key, img, cmd, script, saveCut, bulkCut);
    PairingSurvivesPrefix(img, counter, CELL_SIZE);
    CompletedSaveLoads(img, counter);
    Executed(Saved(img, counter), cmd, script, bulkCut);
    RequestDispatched(Saved(img, counter), q, script, bulkCut);
    FixedBodies();
  }

  lemma FixedBodies()
    ensures PrintedBodies(Ascii("OK pong") + CRLF) == [Ascii("OK pong")]
    ensures PrintedBodies(Ascii("OK") + CRLF) == [Ascii("OK")]
    ensures PrintedBodies(Ascii("OK unpaired") + CRLF) == [Ascii("OK unpaired")]
  {
    hide PrintedBodies;
    PrintlnIsOneBody(Ascii("OK pong"));
    PrintlnIsOneBody(Ascii("OK"));
    PrintlnIsOneBody(Ascii("OK unpaired"));
  }

  // ----- unpair -----

  lemma UnpairDispatched(img: Image, script: bytes, bulkCut: nat)
    requires IsPaired(img) && bulkCut >= END_ADDR
    ensures Nano.Dispatch(img, Ascii("unpair"), script, bulkCut) == Dispatched(WipedPrefix(img, END_ADDR), Ascii("OK unpaired") + CRLF)
  {
    var t := Ascii("unpair");
    assert t[0] == 0x75;
    hide IsPaired, WipedPrefix, Ascii;
  }

  lemma WipedBytes(img: Image)
    ensures var w := WipedPrefix(img, END_ADDR);
            && !IsPaired(w) && (forall i :: 0 <= i < 192 ==> w[i] == 0xFF) && w[192..] == img[192..]
  {
    var w := WipedPrefix(img, END_ADDR);
    assert w[..MAGIC_LEN][0] == 0xFF;
  }

  /** The framed unpair: the whole region the firmware manages is erased, key and counters
      included, nothing else is touched, and one authenticated reply says so. */
  lemma UnpairErases(img: Image, key: Key, counter: u64, script: bytes, saveCut: nat, bulkCut: nat)
    requires IsPaired(img) && KeyOf(img) == key && Load(img) < counter < COUNTER_CEILING
    requires saveCut >= CELL_SIZE && bulkCut >= END_ADDR
    ensures var cmd := Command(counter, Ascii("unpair"));
            var out := Process(img, EncodeCommand(key, cmd), script, saveCut, bulkCut);
            && !IsPaired(out.img) && (forall i :: 0 <= i < 192 ==> out.img[i] == 0xFF) && out.img[192..] == img[192..]
            && out.dispatched == Some(cmd) && out.bodies == [Ascii("OK unpaired")]
            && out.tx == EncodeResponse(key, Response(counter, 0, Ascii("OK unpaired"))) + CRLF
  {
    hide IsPaired, KeyOf, Load, Process, EncodeCommand, EncodeResponse, Nano.Dispatch, Nano.Execute, PrintedBodies,
         FrameStream, FrameLine, SavedPrefix, WipedPrefix, Ascii;
    var cmd := Command(counter, Ascii("unpair"));
    UnpairText();
    ChannelLimits.ShortFrame(key, cmd);
    ChannelAgreement.ReachesGate(key, img, cmd, script, saveCut, bulkCut);
    var saved := Saved(img, counter);
    PairingSurvivesPrefix(img, counter, CELL_SIZE);
    Executed(saved, cmd, script, bulkCut);
    UnpairDispatched(saved, script, bulkCut);
    WipedBytes(saved);
    SavedTail(img, counter);
    FixedBodies();
    OneFrame(key, counter, Ascii("OK unpaired"));
  }

  lemma UnpairText()
    ensures |Ascii("unpair")| == 6 && 0 !in Ascii("unpair")
    ensures |Ascii("OK unpaired")| == 11 && 0 !in Ascii("OK unpaired")
  {
  }

  lemma SavedTail(img: Image, counter: u64)
    ensures Saved(img, counter)[192..] == img[192..]
  {
    hide NextCell, EncodeCell;
  }

  lemma OneFrame(key: Key, counter: u64, body: bytes)
    requires body == Ascii("OK unpaired")
    ensures FrameStream(key, counter, [body]) == EncodeResponse(key, Response(counter, 0, body)) + CRLF
  {
    hide EncodeResponse, FrameLine, FrameFits, Ascii;
    UnpairText();
    ShortBodiesFit(key, Response(counter, 0, body));
    FrameLineIs(key, counter, 0, body);
    assert [body][..0] == [];
    assert [] + FrameLine(key, counter, SeqOf(0), body) == FrameLine(key, counter, 0, body);
  }

  /** After that a new pair line starts afresh, under the new key alone. */
  lemma PairedAgain(img: Image, key: Key, counter: u64, newKey: Key, t: bytes, script: bytes, saveCut: nat, bulkCut: nat)
    requires IsPaired(img) && KeyOf(img) == key && Load(img) < counter < COUNTER_CEILING
    requires saveCut >= CELL_SIZE && bulkCut >= END_ADDR && Lowered(t) == Hex(newKey)
    ensures var unpaired := Process(img, EncodeCommand(key, Command(counter, Ascii("unpair"))), script, saveCut, bulkCut).img;
            var out := Process(unpaired, Ascii("pair ") + t, script, saveCut, bulkCut);
            IsPaired(out.img) && KeyOf(out.img) == newKey && Load(out.img) == 0
  {
    hide Process, IsPaired, KeyOf, Load, EncodeCommand, EncodeResponse, Ascii;
    UnpairErases(img, key, counter, script, saveCut, bulkCut);
    var unpaired := Process(img, EncodeCommand(key, Command(counter, Ascii("unpair"))), script, saveCut, bulkCut).img;
    PairStoresKey(unpaired, newKey, t, script, saveCut, bulkCut);
  }
}

/** What a paired Nano answers to every line that it does not run, told by the line's bytes. */
module Gate {
  import opened Bytes
  import opened Outcomes
  import opened Decimal
  import opened MacWire
  import opened SipHash
  import opened Framing
  import opened FirmwareFraming
  import opened Eeprom
  import opened EepromRing
  import opened Nano

  /** The whole outcome of a refusal. */
  ghost predicate Refused(img: Image, line: bytes, text: bytes) {
    forall script: bytes, saveCut: nat, bulkCut: nat ::
      Process(img, line, script, saveCut, bulkCut) == Outcome(img, text + Ascii("\r\n"), None, [])
  }

  lemma LineEnd()
    ensures CRLF == Ascii("\r\n")
    ensures C_LEADER == Ascii("C ") && M_MARK == Ascii(" M ") && CMD_TAG == Ascii("CMD ") && [SPACE] == Ascii(" ")
  {
  }

  lemma Leads(line: bytes)
    requires line != Ascii("ping") && line != Ascii("status")
    ensures StartsWith(line, Ascii("C ")) <==> |line| >= 2 && line[0] == 0x43 && line[1] == SPACE
  {
    assert Ascii("C ") == [0x43, 0x20];
    hide Ascii;
    if |line| >= 2 {
      assert line[..2] == [line[0], line[1]];
    }
  }

  /** The two lines every Nano answers outside any frame, paired or not. */
  lemma AlwaysAnswered(img: Image, script: bytes, saveCut: nat, bulkCut: nat)
    ensures Process(img, Ascii("ping"), script, saveCut, bulkCut) == Outcome(img, Ascii("OK pong") + Ascii("\r\n"), None, [])
    ensures Process(img, Ascii("status"), script, saveCut, bulkCut)
         == Outcome(img, StatusText(img) + Ascii("\r\n"), None, [])
  {
    StatusIsItself();
    LineEnd();
    hide Ascii, StatusText, IsPaired, StartsWith, IsSensorVerb;
  }

  lemma StatusIsItself()
    ensures Ascii("status") != Ascii("ping") && !IsSensorVerb(Ascii("status"))
  {
    var t := Ascii("status");
    assert |t| == 6 && t[0] == 0x73;
  }

  lemma ProcessIs(img: Image, line: bytes)
    requires IsPaired(img) && line != Ascii("ping") && line != Ascii("status") && StartsWith(line, Ascii("C "))
    ensures VerifyFrame(KeyOf(img), line).Err? ==>
              Refused(img, line, Ascii("ERR ") + StatusName(VerifyFrame(KeyOf(img), line).error))
    ensures VerifyFrame(KeyOf(img), line).Ok? ==>
              forall script: bytes, saveCut: nat, bulkCut: nat ::
                Process(img, line, script, saveCut, bulkCut)
                == Admit(img, VerifyFrame(KeyOf(img), line).value, script, saveCut, bulkCut)
  {
    hide Ascii, StartsWith, IsPaired, Dispatch, VerifyFrame, KeyOf, StatusName, Admit;
    LineEnd();
    Leads(line);
  }

  /** Without the leader, or too short. */
  lemma NoFrame(img: Image, line: bytes)
    requires IsPaired(img) && line != Ascii("ping") && line != Ascii("status")
    ensures !StartsWith(line, Ascii("C ")) ==> Refused(img, line, Ascii("ERR mac_required"))
    ensures StartsWith(line, Ascii("C ")) && |line| < 24 ==> Refused(img, line, Ascii("ERR frame_too_short"))
  {
    hide Ascii, StartsWith, IsPaired, Dispatch, KeyOf, StatusName, UnHex, Mac, MacBytes, Admit;
    LineEnd();
    Leads(line);
    ErrorTexts();
    if StartsWith(line, Ascii("C ")) && |line| < 24 {
      ProcessIs(img, line);
    }
  }

  lemma ErrorTexts()
    ensures Ascii("ERR ") + StatusName(TooShortFrame) == Ascii("ERR frame_too_short")
    ensures Ascii("ERR ") + StatusName(BadSuffix) == Ascii("ERR bad_frame_suffix")
    ensures Ascii("ERR ") + StatusName(BadMacHex) == Ascii("ERR bad_mac_hex")
    ensures Ascii("ERR ") + StatusName(BadCounter) == Ascii("ERR bad_counter")
    ensures Ascii("ERR ") + StatusName(MacWrong) == Ascii("ERR mac_invalid")
  {
    hide Ascii;
    AsciiJoins("ERR ", "frame_too_short");
    assert "ERR " + "frame_too_short" == "ERR frame_too_short";
    AsciiJoins("ERR ", "bad_frame_suffix");
    assert "ERR " + "bad_frame_suffix" == "ERR bad_frame_suffix";
    AsciiJoins("ERR ", "bad_mac_hex");
    assert "ERR " + "bad_mac_hex" == "ERR bad_mac_hex";
    AsciiJoins("ERR ", "bad_counter");
    assert "ERR " + "bad_counter" == "ERR bad_counter";
    AsciiJoins("ERR ", "mac_invalid");
    assert "ERR " + "mac_invalid" == "ERR mac_invalid";
  }

  lemma AsciiJoins(s: string, t: string)
    ensures Ascii(s + t) == Ascii(s) + Ascii(t)
  {
  }

  lemma TailSplit(line: bytes, front: bytes, tag: bytes)
    requires line == front + Ascii(" M ") + tag && |tag| == 16
    ensures var n := |line|;
            && n >= 19 && line[..n - 19] == front && line[n - 19..][..3] == M_MARK && line[n - 19..][3..] == tag
  {
    LineEnd();
    hide Ascii;
    assert line[|line| - 19..] == M_MARK + tag;
  }

  /** No tag mark nineteen bytes before the end, or no hex after it. */
  lemma NoTag(img: Image, line: bytes)
    requires IsPaired(img) && line != Ascii("ping") && line != Ascii("status")
    requires StartsWith(line, Ascii("C ")) && |line| >= 24
    ensures line[|line| - 19..|line| - 16] != Ascii(" M ") ==> Refused(img, line, Ascii("ERR bad_frame_suffix"))
    ensures line[|line| - 19..|line| - 16] == Ascii(" M ")
            && (forall tag: bytes :: |tag| == 8 ==> Lowered(line[|line| - 16..]) != Hex(tag)) ==>
              Refused(img, line, Ascii("ERR bad_mac_hex"))
  {
    hide Ascii, StartsWith, IsPaired, KeyOf, StatusName, UnHex, Refused, Hex, Lowered, Mac, MacBytes, SplitFrameBody;
    LineEnd();
    Leads(line);
    ErrorTexts();
    ProcessIs(img, line);
    var n := |line|;
    assert line[n - 19..][..3] == line[n - 19..n - 16] && line[n - 19..][3..] == line[n - 16..];
    if UnHex(line[n - 16..]).Some? {
      UnHexLength(line[n - 16..]);
      UnHexExact(line[n - 16..], UnHex(line[n - 16..]).value);
    }
  }

  /** A frame with a tag in hex around `token`, a space and `text`. */
  predicate Shaped(line: bytes, token: bytes, text: bytes, tag: bytes) {
    && line == Ascii("C ") + token + Ascii(" ") + text + Ascii(" M ") + tag
    && |tag| == 16 && SPACE !in token && 24 <= |line| <= 145
  }

  lemma ShapedParts(line: bytes, token: bytes, text: bytes, tag: bytes)
    requires Shaped(line, token, text, tag)
    ensures var n := |line|;
            && line[0] == 0x43 && line[1] == SPACE && line[2..n - 19] == token + [SPACE] + text
            && line[n - 19..][..3] == M_MARK && line[n - 19..][3..] == tag
            && IndexOf(line[2..n - 19], SPACE) == |token|
  {
    LineEnd();
    var front := C_LEADER + token + [SPACE] + text;
    hide Ascii;
    assert line == front + Ascii(" M ") + tag;
    TailSplit(line, front, tag);
    var body := token + [SPACE] + text;
    assert line[2..|line| - 19] == front[2..] == body;
    assert line[0] == front[0] && line[1] == front[1];
    forall j | 0 <= j < |token| ensures body[j] != SPACE {
      assert body[j] == token[j] && token[j] in token;
    }
    IndexOfIs(body, SPACE, |token|);
  }

  lemma ShapedIsNoShortcut(line: bytes, token: bytes, text: bytes, tag: bytes)
    requires Shaped(line, token, text, tag)
    ensures line != Ascii("ping") && line != Ascii("status") && StartsWith(line, Ascii("C "))
  {
    assert |Ascii("ping")| == 4 && |Ascii("status")| == 6;
    hide Ascii;
    assert line[..2] == Ascii("C ");
  }

  lemma ShapedFrame(key: Key, line: bytes, token: bytes, text: bytes, tag: bytes)
    requires Shaped(line, token, text, tag) && UnHex(tag).Some?
    ensures token == [] ==> VerifyFrame(key, line) == Err(TooShortFrame)
    ensures token != [] && ParseStrictU64(token).None? ==> VerifyFrame(key, line) == Err(BadCounter)
    ensures token != [] && ParseStrictU64(token).Some? ==>
              var c := Command(ParseStrictU64(token).value, text);
              VerifyFrame(key, line) == if |CommandInput(c)| > MAC_BUFFER then Err(TooShortFrame)
                                        else if MacBytes(Mac(key, CommandInput(c))) != UnHex(tag).value then Err(MacWrong)
                                        else Ok(c)
  {
    hide Mac, MacBytes, UnHex, ParseStrictU64, CommandInput, Shaped;
    ShapedLength(line, token, text, tag);
    ShapedParts(line, token, text, tag);
    var body := token + [SPACE] + text;
    assert body[..|token|] == token && body[|token| + 1..] == text;
  }

  lemma ShapedLength(line: bytes, token: bytes, text: bytes, tag: bytes)
    requires Shaped(line, token, text, tag)
    ensures 24 <= |line| <= 145 && |line| == 22 + |token| + |text| && |tag| == 16
  {
  }

  /** A frame whose counter is not the printed form of a number. */
  lemma NoCounter(img: Image, line: bytes, token: bytes, text: bytes, tag: bytes)
    requires IsPaired(img) && Shaped(line, token, text, tag) && UnHex(tag).Some?
    ensures token == [] ==> Refused(img, line, Ascii("ERR frame_too_short"))
    ensures token != [] && (forall c: u64 :: token != Dec(c)) ==> Refused(img, line, Ascii("ERR bad_counter"))
  {
    hide Ascii, StartsWith, IsPaired, KeyOf, StatusName, UnHex, Refused, VerifyFrame, Shaped, ParseStrictU64, Dec;
    ErrorTexts();
    ShapedIsNoShortcut(line, token, text, tag);
    ProcessIs(img, line);
    ShapedFrame(KeyOf(img), line, token, text, tag);
    if ParseStrictU64(token).Some? {
      ParseStrictU64Exact(token, ParseStrictU64(token).value);
    }
  }

  /** The whole outcome for a frame with a proper counter: a wrong tag, an old counter and a
      reserved one change nothing; a command of 96 bytes or more is refused with its counter
      already spent; a save cut short says nothing; and only what is left is executed. */
  lemma FramesExactly(img: Image, line: bytes, counter: u64, text: bytes, tag: bytes, script: bytes, saveCut: nat, bulkCut: nat)
    requires IsPaired(img) && Shaped(line, Dec(counter), text, tag) && UnHex(tag).Some? && |line| <= 127
    ensures var out := Process(img, line, script, saveCut, bulkCut);
            var input := Ascii("CMD ") + Dec(counter) + Ascii(" ") + text;
            if Lowered(tag) != Hex(MacBytes(Mac(KeyOf(img), input))) then Refused(img, line, Ascii("ERR mac_invalid"))
            else if counter <= Load(img) then Refused(img, line, Ascii("ERR replay"))
            else if counter >= 0xFFFF_FFFF_FFFF_0000 then Refused(img, line, Ascii("ERR counter_ceiling"))
            else if saveCut < 10 then out == Outcome(SavedPrefix(img, counter, saveCut), [], None, [])
            else if |text| >= 96 then out == Outcome(Saved(img, counter), Ascii("ERR frame_body_too_long") + Ascii("\r\n"), None, [])
            else out == Nano.Execute(Saved(img, counter), Command(counter, text), script, bulkCut)
                 && out.dispatched == Some(Command(counter, text))
  {
    hide Ascii, StartsWith, IsPaired, KeyOf, StatusName, UnHex, VerifyFrame, Shaped, ParseStrictU64, Dec, Mac, MacBytes,
         Hex, Lowered, Load, SavedPrefix, Dispatch, PrintedBodies, FrameStream;
    ErrorTexts();
    LineEnd();
    DecIsCanonical(counter);
    ParseStrictU64Exact(Dec(counter), counter);
    ShapedIsNoShortcut(line, Dec(counter), text, tag);
    ShapedLength(line, Dec(counter), text, tag);
    ProcessIs(img, line);
    ShapedFrame(KeyOf(img), line, Dec(counter), text, tag);
    UnHexExact(tag, MacBytes(Mac(KeyOf(img), CommandInput(Command(counter, text)))));
  }
}

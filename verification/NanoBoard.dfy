/** The firmware as it runs: global buffers updated in place, proved against `Nano`. */
module NanoBoard {
  import opened Bytes
  import opened Outcomes
  import opened Decimal
  import opened MacWire
  import opened SipHash
  import opened Framing
  import opened FirmwareFraming
  import opened Eeprom
  import opened Nano
  import EepromRing

  lemma {:induction false} CStringStops(s: bytes, n: nat)
    requires n < |s| && s[n] == 0
    ensures CString(s) == CString(s[..n])
  {
    if n > 0 && s[0] != 0 {
      assert s[..n][0] == s[0];
      assert s[1..][..n - 1] == s[..n][1..];
      CStringStops(s[1..], n - 1);
    }
  }

  function StatusPieces(yesNo: bytes, digits: bytes): bytes {
    Ascii("OK paired=") + yesNo + Ascii(" counter=") + digits + Ascii(" fmt=") + Ascii("2") + Ascii(" fw=1.1")
  }

  lemma StatusRegroup(head: bytes, yesNo: bytes, digits: bytes)
    requires head == Ascii("OK paired=") + yesNo + Ascii(" counter=")
    ensures head + digits + Ascii(" fmt=") + Ascii("2") + (Ascii(" fw=1.1") + CRLF) == StatusPieces(yesNo, digits) + CRLF
  {
  }

  lemma StatusTextIs(img: Image)
    ensures StatusText(img) == StatusPieces(if IsPaired(img) then Ascii("true") else Ascii("false"), Dec(Load(img)))
  {
    assert Dec(FORMAT_VERSION) == Ascii("2");
  }

  class Board {
    const ee: array<byte>
    var serial: bytes          // everything sent to the PC so far
    var framed: bool           // whether g_out points at the framer
    const line: array<byte>    // the framer's line buffer
    var pos: nat
    const sessionKey: array<byte>
    var sessionCounter: u64
    var sessionSeq: u32
    var inbuf: bytes
    ghost var key: Framing.Key // the session key, as a value
    ghost var base: bytes      // what had been sent when the session started
    ghost var framer: Framer   // the line buffer and the bodies framed so far

    ghost predicate Valid()
      reads this
    {
      && ee.Length == SIZE && line.Length == LINE_BUFFER && sessionKey.Length == KEY_LEN
      && ee != line && ee != sessionKey && line != sessionKey
    }

    /** A framed session under way: what has been sent is exactly the frames of its bodies. */
    ghost predicate InSession()
      reads this, line, sessionKey
    {
      && Valid() && pos < LINE_BUFFER
      && line[..pos] == framer.cur
      && sessionSeq == SeqOf(|framer.done|)
      && sessionKey[..] == key
      && serial == base + FrameStream(key, sessionCounter, framer.done)
    }

    /** Power-on over an EEPROM holding `img`. */
    constructor (img: Image)
      ensures Valid() && ee[..] == img && serial == [] && !framed && inbuf == []
      ensures fresh(ee) && fresh(line) && fresh(sessionKey)
    {
      ee := new byte[|img|](i requires 0 <= i < |img| => img[i]);
      line := new byte[128];
      sessionKey := new byte[16];
      serial, framed, pos, sessionCounter, sessionSeq, inbuf := [], false, 0, 0, 0, [];
      base, framer, key := [], Framer([], []), seq(16, _ => 0);
    }

    method Println(text: bytes)
      modifies this`serial
      ensures serial == old(serial) + text + CRLF
    {
      serial := serial + text + CRLF;
    }

    /** The frame for the buffered line, or the overflow warning in its place. */
    method EmitFrame()
      requires InSession()
      modifies this`serial
      ensures serial == old(serial) + FrameLine(key, sessionCounter, sessionSeq, framer.cur)
    {
      hide EncodeResponse, Spliced, FrameStream;
      var out := new byte[160];
      var n := EncodeResponseFrame(sessionKey[..], sessionCounter, sessionSeq, line[..pos], out);
      if n > 0 {
        assert out[..][..n] == out[..n];
        CStringStops(out[..], n);
        Println(CString(out[..]));
      } else {
        Println(Ascii("ERR encode_overflow"));
      }
    }

    method FlushLine()
      requires InSession()
      modifies this`serial, this`pos, this`sessionSeq, this`framer, line
      ensures InSession() && framer == Flush(old(framer))
    {
      hide FrameLine, FrameStream, SeqOf;
      if pos == 0 {
        return;
      }
      EmitFrame();
      StreamOneMore(key, sessionCounter, framer.done, framer.cur);
      NextSeqOf(|framer.done|);
      framer := Flush(framer);
      sessionSeq := (sessionSeq + 1) % 0x1_0000_0000;
      line[pos] := 0;
      pos := 0;
    }

    method WriteByte(c: byte)
      requires InSession()
      modifies this`serial, this`pos, this`sessionSeq, this`framer, line
      ensures InSession() && framer == Write(old(framer), c)
    {
      if c == 0x0A {
        FlushLine();
      } else if c == 0x0D {
      } else if pos < line.Length - 1 {
        line[pos] := c;
        pos := pos + 1;
        framer := Write(framer, c);
      }
    }

    /** g_out->print: the framer inside a session, the serial line outside. */
    method Emit(text: bytes)
      requires Valid() && (framed ==> InSession())
      modifies this`serial, this`pos, this`sessionSeq, this`framer, line
      ensures Valid() && (framed ==> InSession() && framer == Print(old(framer), text))
      ensures !framed ==> serial == old(serial) + text
    {
      hide Write, FrameStream, SeqOf;
      if !framed {
        serial := serial + text;
        return;
      }
      ghost var start := framer;
      assert text[..0] == [];
      for i := 0 to |text|
        invariant InSession() && framer == Print(start, text[..i])
      {
        assert text[..i + 1][..i] == text[..i];
        WriteByte(text[i]);
      }
      assert text[..|text|] == text;
    }

    /** Two prints in a row are one. */
    method EmitMore(ghost start: Framer, ghost sent: bytes, ghost before: bytes, text: bytes)
      requires Valid() && (framed ==> InSession() && framer == Print(start, before))
      requires !framed ==> serial == sent + before
      modifies this`serial, this`pos, this`sessionSeq, this`framer, line
      ensures Valid() && (framed ==> InSession() && framer == Print(start, before + text))
      ensures !framed ==> serial == sent + (before + text)
    {
      hide Print, FrameStream, SeqOf;
      Emit(text);
      PrintTwice(start, before, text);
    }

    /** The seven prints of handleStatus. */
    method EmitStatus(yesNo: bytes, digits: bytes)
      requires Valid() && (framed ==> InSession())
      modifies this`serial, this`pos, this`sessionSeq, this`framer, line
      ensures Valid() && (framed ==> InSession() && framer == Print(old(framer), StatusPieces(yesNo, digits) + CRLF))
      ensures !framed ==> serial == old(serial) + (StatusPieces(yesNo, digits) + CRLF)
    {
      ghost var f, was := framer, serial;
      ghost var t := EmitStatusHead(yesNo);
      hide *;
      EmitMore(f, was, t, digits);
      t := t + digits;
      EmitMore(f, was, t, Ascii(" fmt="));
      t := t + Ascii(" fmt=");
      EmitMore(f, was, t, Ascii("2"));
      t := t + Ascii("2");
      EmitMore(f, was, t, Ascii(" fw=1.1") + CRLF);
      StatusRegroup(Ascii("OK paired=") + yesNo + Ascii(" counter="), yesNo, digits);
    }

    method EmitStatusHead(yesNo: bytes) returns (ghost t: bytes)
      requires Valid() && (framed ==> InSession())
      modifies this`serial, this`pos, this`sessionSeq, this`framer, line
      ensures t == Ascii("OK paired=") + yesNo + Ascii(" counter=")
      ensures Valid() && (framed ==> InSession() && framer == Print(old(framer), t))
      ensures !framed ==> serial == old(serial) + t
    {
      hide *;
      ghost var f, was := framer, serial;
      t := Ascii("OK paired=");
      Emit(Ascii("OK paired="));
      EmitMore(f, was, t, yesNo);
      t := t + yesNo;
      EmitMore(f, was, t, Ascii(" counter="));
      t := t + Ascii(" counter=");
    }

    method HandleStatus()
      requires Valid() && (framed ==> InSession())
      modifies this`serial, this`pos, this`sessionSeq, this`framer, line
      ensures Valid() && (framed ==> InSession() && framer == Print(old(framer), StatusText(ee[..]) + CRLF))
      ensures !framed ==> serial == old(serial) + (StatusText(ee[..]) + CRLF)
    {
      hide Print, FrameStream, SeqOf, IsPaired, Load, Dec, Spliced, StatusPieces, StatusText;
      var ctr := EeLoadCounter(ee);
      var ctrBuf := new byte[21];
      var n := FormatU64(ctr, ctrBuf, 0);
      var isPaired := EeIsPaired(ee);
      StatusTextIs(ee[..]);
      EmitStatus(if isPaired then Ascii("true") else Ascii("false"), ctrBuf[..n]);
    }

    method HandlePair(args: bytes, bulkCut: nat)
      requires Valid() && (framed ==> InSession())
      modifies this`serial, this`pos, this`sessionSeq, this`framer, line, ee
      ensures ee[..] == Nano.Pair(old(ee[..]), args, bulkCut).img
      ensures Valid() && (framed ==> InSession() && framer == Print(old(framer), Nano.Pair(old(ee[..]), args, bulkCut).printed))
      ensures !framed ==> serial == old(serial) + Nano.Pair(old(ee[..]), args, bulkCut).printed
    {
      hide FrameStream, SeqOf, IsPaired, UnHex, Overwrite, Write;
      var isPaired := EeIsPaired(ee);
      if isPaired {
        Emit(Ascii("ERR already_paired") + CRLF);
        return;
      }
      if |args| != 32 {
        Emit(Ascii("ERR bad_args bad_key_len") + CRLF);
        return;
      }
      var newKey := new byte[16];
      var ok, keyLen := HexToBytes(args, 32, newKey, 16);
      assert args[..32] == args;
      if !ok || keyLen != 16 {
        Emit(Ascii("ERR bad_args bad_key_hex") + CRLF);
        return;
      }
      EeSavePairing(ee, newKey[..keyLen], bulkCut);
      if bulkCut >= PAIRING_LEN {
        Emit(Ascii("OK paired") + CRLF);
      }
    }

    /** With power lost after `bulkCut` bytes of the wipe, nothing is printed. */
    method HandleUnpair(bulkCut: nat)
      requires Valid() && (framed ==> InSession())
      modifies this`serial, this`pos, this`sessionSeq, this`framer, line, ee
      ensures ee[..] == Nano.Unpair(old(ee[..]), bulkCut).img
      ensures Valid() && (framed ==> InSession() && framer == Print(old(framer), Nano.Unpair(old(ee[..]), bulkCut).printed))
      ensures !framed ==> serial == old(serial) + Nano.Unpair(old(ee[..]), bulkCut).printed
    {
      hide FrameStream, SeqOf, IsPaired, WipedPrefix, Write;
      var isPaired := EeIsPaired(ee);
      if !isPaired {
        Emit(Ascii("ERR not_paired") + CRLF);
        return;
      }
      EeWipe(ee, bulkCut);
      if bulkCut >= END_ADDR {
        Emit(Ascii("OK unpaired") + CRLF);
      }
    }

    method Dispatch(t: bytes, script: bytes, bulkCut: nat)
      requires Valid() && (framed ==> InSession())
      modifies this`serial, this`pos, this`sessionSeq, this`framer, line, ee
      ensures ee[..] == Nano.Dispatch(old(ee[..]), t, script, bulkCut).img
      ensures Valid() && (framed ==> InSession() && framer == Print(old(framer), Nano.Dispatch(old(ee[..]), t, script, bulkCut).printed))
      ensures !framed ==> serial == old(serial) + Nano.Dispatch(old(ee[..]), t, script, bulkCut).printed
    {
      hide Print, FrameStream, SeqOf, StatusText, Nano.Pair, Nano.Unpair, StartsWith, IsSensorVerb;
      if IsSensorVerb(t) {
        Emit(script);
      } else if t == Ascii("status") {
        HandleStatus();
      } else if StartsWith(t, Ascii("pair ")) {
        assert |t| >= 5 by { LongEnough(t, Ascii("pair ")); }
        HandlePair(t[5..], bulkCut);
      } else if t == Ascii("unpair") {
        HandleUnpair(bulkCut);
      } else if t == Ascii("ping") {
        Emit(Ascii("OK pong") + CRLF);
      } else if t == Ascii("led off") {
        Emit(Ascii("OK") + CRLF);
      } else {
        EmitUnknown(t);
      }
    }

    method EmitUnknown(t: bytes)
      requires Valid() && (framed ==> InSession())
      modifies this`serial, this`pos, this`sessionSeq, this`framer, line
      ensures Valid() && (framed ==> InSession() && framer == Print(old(framer), UnknownText(t) + CRLF))
      ensures !framed ==> serial == old(serial) + (UnknownText(t) + CRLF)
    {
      hide Print, FrameStream, SeqOf;
      ghost var f, was := framer, serial;
      var echo := if |t| <= 40 then t else t[..40];
      Emit(Ascii("ERR unknown_command "));
      EmitMore(f, was, Ascii("ERR unknown_command "), echo + CRLF);
      assert Ascii("ERR unknown_command ") + (echo + CRLF) == UnknownText(t) + CRLF;
    }

    // ----- process_line -----

    method SayError(status: FrameStatus)
      modifies this`serial
      ensures serial == old(serial) + (Ascii("ERR ") + StatusName(status) + CRLF)
    {
      hide Ascii;
      serial := serial + Ascii("ERR ");
      match status {
        case BadLeader => Println(Ascii("bad_frame_leader"));
        case TooShortFrame => Println(Ascii("frame_too_short"));
        case BadSuffix => Println(Ascii("bad_frame_suffix"));
        case BadMacHex => Println(Ascii("bad_mac_hex"));
        case BadCounter => Println(Ascii("bad_counter"));
        case BadSeq => Println(Ascii("bad_seq"));
        case MacWrong => Println(Ascii("mac_invalid"));
      }
    }

    /** The end of process_line, once the counter is saved. */
    method Execute(command: Command, script: bytes, bulkCut: nat)
      requires Valid() && !framed && sessionKey[..] == KeyOf(ee[..])
      modifies this`serial, this`pos, this`sessionSeq, this`framer, this`framed, this`sessionCounter,
               this`key, this`base, line, ee
      ensures !framed
      ensures ee[..] == Nano.Execute(old(ee[..]), command, script, bulkCut).img
      ensures serial == old(serial) + Nano.Execute(old(ee[..]), command, script, bulkCut).tx
    {
      hide Print, FrameStream, Nano.Dispatch, KeyOf, CString, FrameLine;
      if |command.text| >= 96 {
        Println(Ascii("ERR frame_body_too_long"));
        return;
      }
      key, base, framer := sessionKey[..], serial, Framer([], []);
      sessionCounter, sessionSeq := command.counter, 0;
      pos := 0;
      framed := true;
      StartStream(key, sessionCounter);
      Dispatch(CString(command.text), script, bulkCut);
      FlushLine();
      framed := false;
    }

    method ProcessLine(t: bytes, script: bytes, saveCut: nat, bulkCut: nat)
      requires Valid() && !framed
      modifies this`serial, this`pos, this`sessionSeq, this`framer, this`framed, this`sessionCounter,
               this`key, this`base, line, ee, sessionKey
      ensures !framed
      ensures ee[..] == Process(old(ee[..]), t, script, saveCut, bulkCut).img
      ensures serial == old(serial) + Process(old(ee[..]), t, script, saveCut, bulkCut).tx
    {
      hide Nano.Dispatch, Admit, VerifyFrame, IsPaired, KeyOf;
      var isPaired := EeIsPaired(ee);
      if t == Ascii("ping") {
        Println(Ascii("OK pong"));
      } else if t == Ascii("status") {
        Dispatch(t, script, bulkCut);
      } else if !isPaired {
        Dispatch(t, script, bulkCut);
      } else if |t| < 2 || t[0] != 0x43 || t[1] != 0x20 {
        Println(Ascii("ERR mac_required"));
      } else {
        ProcessFrame(t, script, saveCut, bulkCut);
      }
    }

    /** The framed part of process_line. */
    method ProcessFrame(t: bytes, script: bytes, saveCut: nat, bulkCut: nat)
      requires Valid() && !framed && IsPaired(ee[..])
      modifies this`serial, this`pos, this`sessionSeq, this`framer, this`framed, this`sessionCounter,
               this`key, this`base, line, ee, sessionKey
      ensures !framed
      ensures match VerifyFrame(KeyOf(old(ee[..])), t)
              case Err(status) =>
                ee[..] == old(ee[..]) && serial == old(serial) + (Ascii("ERR ") + StatusName(status) + CRLF)
              case Ok(command) =>
                && ee[..] == Admit(old(ee[..]), command, script, saveCut, bulkCut).img
                && serial == old(serial) + Admit(old(ee[..]), command, script, saveCut, bulkCut).tx
    {
      hide StatusName, Admit, VerifyFrame, IsPaired, KeyOf;
      var haveKey := EeLoadKey(ee, sessionKey);
      if !haveKey {
        assert false; // "ERR no_key": the pairing record was just checked
      }
      var verdict := VerifyCommandFrame(sessionKey[..], t);
      match verdict {
        case Err(status) => SayError(status);
        case Ok(command) => AdmitCommand(command, script, saveCut, bulkCut);
      }
    }

    /** The counter gate of process_line. */
    method AdmitCommand(command: Command, script: bytes, saveCut: nat, bulkCut: nat)
      requires Valid() && !framed && sessionKey[..] == KeyOf(ee[..])
      modifies this`serial, this`pos, this`sessionSeq, this`framer, this`framed, this`sessionCounter,
               this`key, this`base, line, ee
      ensures !framed
      ensures ee[..] == Admit(old(ee[..]), command, script, saveCut, bulkCut).img
      ensures serial == old(serial) + Admit(old(ee[..]), command, script, saveCut, bulkCut).tx
    {
      hide Nano.Execute, KeyOf, SavedPrefix, Load;
      ghost var img := ee[..];
      var last := EeLoadCounter(ee);
      if command.counter <= last {
        Println(Ascii("ERR replay"));
        return;
      }
      if command.counter >= COUNTER_CEILING {
        Println(Ascii("ERR counter_ceiling"));
        return;
      }
      EeSaveCounter(ee, command.counter, saveCut);
      if saveCut < CELL_SIZE {
        return;
      }
      SavedKeepsKey(img, command.counter);
      Execute(command, script, bulkCut);
    }

    /** One byte through loop(). */
    method ReceiveByte(c: byte, script: bytes, saveCut: nat, bulkCut: nat)
      requires Valid() && !framed && |inbuf| < LINE_BUFFER
      modifies this, line, ee, sessionKey
      ensures !framed && inbuf == Receive(old(inbuf), c).0 && |inbuf| < LINE_BUFFER
      ensures match Receive(old(inbuf), c).1
              case Quiet => ee[..] == old(ee[..]) && serial == old(serial)
              case Overflow => ee[..] == old(ee[..]) && serial == old(serial) + Ascii("ERR bad_args overflow") + CRLF
              case Line(t) =>
                && ee[..] == Process(old(ee[..]), t, script, saveCut, bulkCut).img
                && serial == old(serial) + Process(old(ee[..]), t, script, saveCut, bulkCut).tx
    {
      hide Process;
      if c == 0x0A || c == 0x0D {
        if |inbuf| > 0 {
          ProcessLine(inbuf, script, saveCut, bulkCut);
          inbuf := [];
        }
      } else {
        inbuf := inbuf + [c];
        if |inbuf| >= 128 {
          Println(Ascii("ERR bad_args overflow"));
          inbuf := [];
        }
      }
    }
  }

  lemma SavedKeepsKey(img: Image, n: u64)
    ensures KeyOf(Saved(img, n)) == KeyOf(img)
  {
    EepromRing.PairingSurvivesPrefix(img, n, CELL_SIZE);
  }

  lemma StartStream(key: Framing.Key, c: u64)
    ensures FrameStream(key, c, []) == []
    ensures SeqOf(0) == 0
  {
  }

  lemma LongEnough(s: bytes, p: bytes)
    requires StartsWith(s, p)
    ensures |s| >= |p|
  {
  }
}

/** The pairing tool's reading of an unauthenticated status line, and what resync makes of
    the counter in it. */
module Pairing {
  import opened Bytes
  import opened Outcomes
  import opened Decimal
  import opened Framing
  import opened Eeprom
  import opened Nano

  const EQUALS: byte := 0x3D
  const PLUS: byte := 0x2B

  datatype Status = Status(paired: bool, counter: u64)

  /** The fields parse_status collects; the last word for a field decides it. */
  datatype Fields = Fields(paired: Option<bool>, counter: Option<u64>, fmt: Option<nat>, fw: Option<bytes>)

  predicate IsBlank(b: byte) {
    b == SPACE || 9 <= b <= 13
  }

  function WordEnd(s: bytes): (i: nat)
    ensures i <= |s|
    ensures s != [] && !IsBlank(s[0]) ==> i > 0
  {
    if s == [] || IsBlank(s[0]) then 0 else 1 + WordEnd(s[1..])
  }

  /** split_whitespace */
  function Words(s: bytes): seq<bytes>
    decreases |s|
  {
    if s == [] then []
    else if IsBlank(s[0]) then Words(s[1..])
    else [s[..WordEnd(s)]] + Words(s[WordEnd(s)..])
  }

  /** Rust's own number parser, which takes a plus sign and leading zeros. */
  function LooseNumber(v: bytes, max: nat): Option<nat> {
    var digits := if v != [] && v[0] == PLUS then v[1..] else v;
    if digits == [] || !AllDigits(digits) || DecValue(digits) > max then None else Some(DecValue(digits))
  }

  function TakeWord(f: Fields, word: bytes): Fields {
    var eq := IndexOf(word, EQUALS);
    if eq == |word| then f
    else
      var k, v := word[..eq], word[eq + 1..];
      if k == Ascii("paired") then f.(paired := Some(v == Ascii("true")))
      else if k == Ascii("counter") then f.(counter := LooseNumber(v, U64_MAX))
      else if k == Ascii("fmt") then f.(fmt := LooseNumber(v, 255))
      else if k == Ascii("fw") then f.(fw := Some(v))
      else f
  }

  function TakeWords(f: Fields, words: seq<bytes>): Fields
    decreases |words|
  {
    if words == [] then f else TakeWords(TakeWord(f, words[0]), words[1..])
  }

  function ParseStatus(line: bytes): Option<Status> {
    match StripPrefix(line, Ascii("OK "))
    case None => None
    case Some(body) =>
      var f := TakeWords(Fields(None, None, None, None), Words(body));
      if f.paired.Some? && f.counter.Some? && f.fmt.Some? && f.fw.Some?
      then Some(Status(f.paired.value, f.counter.value)) else None
  }

  /** Replies the tool's reader passes over. */
  predicate Ignored(line: bytes) {
    line == [] || StartsWith(line, Ascii("PROGRESS "))
  }

  function ResyncTarget(reported: u64): Option<u64> {
    if reported >= COUNTER_CEILING - 1 then None else Some(reported + 1)
  }

  // ----- the firmware's status line reads back -----

  function YesNo(b: bool): bytes {
    if b then Ascii("true") else Ascii("false")
  }

  function StatusLine(paired: bool, counter: u64): bytes {
    Ascii("OK paired=") + YesNo(paired) + Ascii(" counter=") + Dec(counter) + Ascii(" fmt=2") + Ascii(" fw=1.1")
  }

  predicate OneWord(s: bytes) {
    s != [] && forall b :: b in s ==> !IsBlank(b)
  }

  lemma {:induction false} WordEnds(w: bytes, rest: bytes)
    requires forall b :: b in w ==> !IsBlank(b)
    requires rest == [] || IsBlank(rest[0])
    ensures WordEnd(w + rest) == |w|
  {
    if w == [] {
      assert w + rest == rest;
    } else {
      assert (w + rest)[0] == w[0] && (w + rest)[1..] == w[1..] + rest;
      WordEnds(w[1..], rest);
    }
  }

  lemma FirstWord(w: bytes, rest: bytes)
    requires OneWord(w)
    ensures Words(w + [SPACE] + rest) == [w] + Words(rest)
  {
    var s, tail := w + [SPACE] + rest, [SPACE] + rest;
    assert s == w + tail && s[0] == w[0];
    WordEnds(w, tail);
    assert s[..|w|] == w && s[|w|..] == tail && tail[1..] == rest;
    assert Words(tail) == Words(rest);
  }

  lemma LastWord(w: bytes)
    requires OneWord(w)
    ensures Words(w) == [w]
  {
    assert w + [] == w;
    WordEnds(w, []);
    assert w[..|w|] == w && w[|w|..] == [];
  }

  /** A word "key=value" gives its two halves. */
  lemma KeyAndValue(k: bytes, v: bytes)
    requires EQUALS !in k
    ensures var w := k + [EQUALS] + v;
            var eq := IndexOf(w, EQUALS);
            eq == |k| < |w| && w[..eq] == k && w[eq + 1..] == v
  {
    var w := k + [EQUALS] + v;
    forall j | 0 <= j < |k| ensures w[j] != EQUALS {
      assert k[j] in k;
    }
    IndexOfIs(w, EQUALS, |k|);
  }

  lemma LooseReadsDec(n: nat, max: nat)
    requires n <= max
    ensures LooseNumber(Dec(n), max) == Some(n)
  {
    DecIsCanonical(n);
    assert IsDigit(Dec(n)[0]);
  }

  function KeyValue(k: bytes, v: bytes): bytes {
    k + [EQUALS] + v
  }

  lemma PairedWord(f: Fields, paired: bool)
    ensures TakeWord(f, KeyValue(Ascii("paired"), YesNo(paired))) == f.(paired := Some(paired))
    ensures OneWord(KeyValue(Ascii("paired"), YesNo(paired)))
  {
    hide IndexOf, LooseNumber, Dec;
    KeyAndValue(Ascii("paired"), YesNo(paired));
  }

  lemma CounterWord(f: Fields, c: u64)
    ensures TakeWord(f, KeyValue(Ascii("counter"), Dec(c))) == f.(counter := Some(c))
    ensures OneWord(KeyValue(Ascii("counter"), Dec(c)))
  {
    KeyAndValue(Ascii("counter"), Dec(c));
    LooseReadsDec(c, U64_MAX);
    hide IndexOf, Dec, LooseNumber;
    assert forall b :: b in Dec(c) ==> IsDigit(b);
  }

  lemma FmtWord(f: Fields)
    ensures TakeWord(f, KeyValue(Ascii("fmt"), Ascii("2"))) == f.(fmt := Some(2))
    ensures OneWord(KeyValue(Ascii("fmt"), Ascii("2")))
  {
    KeyAndValue(Ascii("fmt"), Ascii("2"));
    LooseReadsDec(2, 255);
    assert Dec(2) == Ascii("2");
    hide IndexOf, LooseNumber, Dec;
  }

  lemma FwWord(f: Fields)
    ensures TakeWord(f, KeyValue(Ascii("fw"), Ascii("1.1"))) == f.(fw := Some(Ascii("1.1")))
    ensures OneWord(KeyValue(Ascii("fw"), Ascii("1.1")))
  {
    hide IndexOf, LooseNumber, Dec;
    KeyAndValue(Ascii("fw"), Ascii("1.1"));
  }

  /** The four words of a status line. */
  function StatusWords(paired: bool, counter: u64): (w: seq<bytes>)
    ensures |w| == 4
  {
    [KeyValue(Ascii("paired"), YesNo(paired)), KeyValue(Ascii("counter"), Dec(counter)),
     KeyValue(Ascii("fmt"), Ascii("2")), KeyValue(Ascii("fw"), Ascii("1.1"))]
  }

  lemma StatusLineWords(paired: bool, counter: u64)
    ensures var w := StatusWords(paired, counter);
            StatusLine(paired, counter)
              == Ascii("OK ") + (w[0] + [SPACE] + (w[1] + [SPACE] + (w[2] + [SPACE] + w[3])))
  {
    hide Dec, YesNo, Ascii;
    LineHead();
    LineCounter();
    LineFmt();
    LineFw();
  }

  lemma LineHead()
    ensures Ascii("OK paired=") == Ascii("OK ") + Ascii("paired") + [EQUALS]
  {
  }

  lemma LineCounter()
    ensures Ascii(" counter=") == [SPACE] + Ascii("counter") + [EQUALS]
  {
  }

  lemma LineFmt()
    ensures Ascii(" fmt=2") == [SPACE] + KeyValue(Ascii("fmt"), Ascii("2"))
  {
  }

  lemma LineFw()
    ensures Ascii(" fw=1.1") == [SPACE] + KeyValue(Ascii("fw"), Ascii("1.1"))
  {
  }

  lemma TakesOne(f: Fields, word: bytes, rest: seq<bytes>)
    ensures TakeWords(f, [word] + rest) == TakeWords(TakeWord(f, word), rest)
  {
    hide TakeWord;
    assert ([word] + rest)[1..] == rest;
  }

  lemma TakesFour(f: Fields, a: bytes, b: bytes, c: bytes, d: bytes)
    ensures TakeWords(f, [a, b, c, d]) == TakeWord(TakeWord(TakeWord(TakeWord(f, a), b), c), d)
  {
    hide TakeWord;
    var g, h := TakeWord(f, a), TakeWord(TakeWord(f, a), b);
    var i := TakeWord(h, c);
    assert TakeWords(TakeWord(i, d), []) == TakeWord(i, d);
    hide TakeWords;
    assert [a, b, c, d] == [a] + [b, c, d];
    TakesOne(f, a, [b, c, d]);
    assert [b, c, d] == [b] + [c, d];
    TakesOne(g, b, [c, d]);
    assert [c, d] == [c] + [d];
    TakesOne(h, c, [d]);
    assert [d] == [d] + [];
    TakesOne(i, d, []);
  }

  lemma StatusFields(paired: bool, counter: u64)
    ensures TakeWords(Fields(None, None, None, None), StatusWords(paired, counter))
         == Fields(Some(paired), Some(counter), Some(2), Some(Ascii("1.1")))
  {
    hide TakeWord, TakeWords, KeyValue, OneWord, Dec, YesNo, Ascii;
    var none := Fields(None, None, None, None);
    PairedWord(none, paired);
    var one := none.(paired := Some(paired));
    CounterWord(one, counter);
    var two := one.(counter := Some(counter));
    FmtWord(two);
    FwWord(two.(fmt := Some(2)));
    var w := StatusWords(paired, counter);
    TakesFour(none, w[0], w[1], w[2], w[3]);
  }

  lemma JoinedWords(a: bytes, b: bytes, c: bytes, d: bytes)
    requires OneWord(a) && OneWord(b) && OneWord(c) && OneWord(d)
    ensures Words(a + [SPACE] + (b + [SPACE] + (c + [SPACE] + d))) == [a, b, c, d]
  {
    hide Words, OneWord;
    LastWord(d);
    FirstWord(c, d);
    FirstWord(b, c + [SPACE] + d);
    FirstWord(a, b + [SPACE] + (c + [SPACE] + d));
    assert [a] + ([b] + ([c] + [d])) == [a, b, c, d];
  }

  lemma AllOneWord(paired: bool, counter: u64)
    ensures forall i :: 0 <= i < 4 ==> OneWord(StatusWords(paired, counter)[i])
  {
    hide TakeWord, KeyValue, OneWord, Dec, YesNo, Ascii;
    var none := Fields(None, None, None, None);
    PairedWord(none, paired);
    CounterWord(none, counter);
    FmtWord(none);
    FwWord(none);
  }

  /** The tool reads a status line as what it says. */
  lemma StatusLineParses(paired: bool, counter: u64)
    ensures ParseStatus(StatusLine(paired, counter)) == Some(Status(paired, counter))
  {
    hide Words, TakeWord, TakeWords, KeyValue, OneWord, StatusLine, StatusWords, Dec, YesNo, Ascii;
    var w := StatusWords(paired, counter);
    StatusLineWords(paired, counter);
    StatusFields(paired, counter);
    AllOneWord(paired, counter);
    FourWords(paired, counter);
    JoinedWords(w[0], w[1], w[2], w[3]);
    StripsPrefix(Ascii("OK "), w[0] + [SPACE] + (w[1] + [SPACE] + (w[2] + [SPACE] + w[3])));
  }

  lemma FourWords(paired: bool, counter: u64)
    ensures var w := StatusWords(paired, counter); w == [w[0], w[1], w[2], w[3]]
  {
    hide KeyValue;
  }

  lemma StripsPrefix(p: bytes, rest: bytes)
    ensures StripPrefix(p + rest, p) == Some(rest)
  {
    assert (p + rest)[..|p|] == p && (p + rest)[|p|..] == rest;
  }

  lemma StatusNotIgnored(paired: bool, counter: u64)
    ensures !Ignored(StatusLine(paired, counter))
  {
    hide Dec, YesNo;
    assert StatusLine(paired, counter)[0] == 0x4F && Ascii("PROGRESS ")[0] == 0x50;
  }

  /** In particular the line the Nano prints: its pairing and its stored counter. */
  lemma StatusTextParses(img: Image)
    ensures ParseStatus(StatusText(img)) == Some(Status(IsPaired(img), Load(img)))
  {
    StatusLineParses(IsPaired(img), Load(img));
    hide ParseStatus, IsPaired, Load;
    assert Dec(FORMAT_VERSION) == Ascii("2");
    assert Ascii(" fmt=") + Ascii("2") == Ascii(" fmt=2");
    hide Dec;
    var front := Ascii("OK paired=") + YesNo(IsPaired(img)) + Ascii(" counter=") + Dec(Load(img));
    assert front + Ascii(" fmt=") + Ascii("2") == front + (Ascii(" fmt=") + Ascii("2"));
  }

  // ----- what the tool reads, exactly -----

  /** The value of the last word that starts with this key and "=". */
  function LastValue(words: seq<bytes>, key: bytes): Option<bytes> {
    if words == [] then None
    else
      var w := words[|words| - 1];
      if StartsWith(w, key + [EQUALS]) then Some(w[|key| + 1..]) else LastValue(words[..|words| - 1], key)
  }

  lemma {:induction false} TakeWordsLast(f: Fields, words: seq<bytes>)
    requires words != []
    ensures TakeWords(f, words) == TakeWord(TakeWords(f, words[..|words| - 1]), words[|words| - 1])
    decreases |words|
  {
    hide TakeWord;
    if |words| > 1 {
      TakeWordsLast(TakeWord(f, words[0]), words[1..]);
      assert words[1..][..|words| - 2] == words[..|words| - 1][1..];
      assert words[1..][|words| - 2] == words[|words| - 1];
    }
  }

  /** A word has this key exactly when it starts with the key and "=". */
  lemma KeyOfWord(w: bytes, key: bytes)
    requires EQUALS !in key
    ensures var eq := IndexOf(w, EQUALS);
            (eq < |w| && w[..eq] == key) <==> StartsWith(w, key + [EQUALS])
    ensures StartsWith(w, key + [EQUALS]) ==> IndexOf(w, EQUALS) == |key|
  {
    if StartsWith(w, key + [EQUALS]) {
      assert forall j :: 0 <= j < |key| ==> w[j] == w[..|key| + 1][j] == key[j];
      assert w[|key|] == w[..|key| + 1][|key|] == EQUALS;
      IndexOfIs(w, EQUALS, |key|);
      assert w[..|key|] == w[..|key| + 1][..|key|];
    }
    var eq := IndexOf(w, EQUALS);
    if eq < |w| && w[..eq] == key {
      assert w[..eq + 1] == w[..eq] + [w[eq]];
    }
  }

  function YesValue(v: Option<bytes>): Option<bool> {
    if v.None? then None else Some(v.value == Ascii("true"))
  }

  function NumberValue(v: Option<bytes>, max: nat): Option<nat> {
    if v.None? then None else LooseNumber(v.value, max)
  }

  lemma TakeWordIs(f: Fields, w: bytes)
    ensures var p, c, m, v := Ascii("paired") + [EQUALS], Ascii("counter") + [EQUALS], Ascii("fmt") + [EQUALS], Ascii("fw") + [EQUALS];
            TakeWord(f, w) ==
              if StartsWith(w, p) then f.(paired := Some(w[7..] == Ascii("true")))
              else if StartsWith(w, c) then f.(counter := LooseNumber(w[8..], U64_MAX))
              else if StartsWith(w, m) then f.(fmt := LooseNumber(w[4..], 255))
              else if StartsWith(w, v) then f.(fw := Some(w[3..]))
              else f
  {
    KeysAreWords();
    KeyOfWord(w, Ascii("paired"));
    KeyOfWord(w, Ascii("counter"));
    KeyOfWord(w, Ascii("fmt"));
    KeyOfWord(w, Ascii("fw"));
    hide Ascii, StartsWith, LooseNumber, IndexOf;
  }

  lemma KeysAreWords()
    ensures EQUALS !in Ascii("paired") && EQUALS !in Ascii("counter") && EQUALS !in Ascii("fmt") && EQUALS !in Ascii("fw")
    ensures |Ascii("paired")| == 6 && |Ascii("counter")| == 7 && |Ascii("fmt")| == 3 && |Ascii("fw")| == 2
  {
  }

  lemma OneKey(w: bytes, k: bytes, l: bytes)
    requires EQUALS !in k && EQUALS !in l && StartsWith(w, k + [EQUALS]) && StartsWith(w, l + [EQUALS])
    ensures k == l
  {
    KeyOfWord(w, k);
    KeyOfWord(w, l);
    hide StartsWith, IndexOf;
  }

  function FieldsOf(words: seq<bytes>): Fields {
    Fields(YesValue(LastValue(words, Ascii("paired"))), NumberValue(LastValue(words, Ascii("counter")), U64_MAX),
           NumberValue(LastValue(words, Ascii("fmt")), 255), LastValue(words, Ascii("fw")))
  }

  lemma {:induction false} FieldsExactly(words: seq<bytes>)
    ensures TakeWords(Fields(None, None, None, None), words) == FieldsOf(words)
    decreases |words|
  {
    hide LooseNumber, TakeWord, StartsWith, Ascii;
    KeysAreWords();
    if words != [] {
      var n := |words| - 1;
      var w := words[n];
      FieldsExactly(words[..n]);
      TakeWordsLast(Fields(None, None, None, None), words);
      TakeWordIs(FieldsOf(words[..n]), w);
      KeysApart(w);
    }
  }

  lemma KeysApart(w: bytes)
    ensures var p, c, m, v := Ascii("paired") + [EQUALS], Ascii("counter") + [EQUALS], Ascii("fmt") + [EQUALS], Ascii("fw") + [EQUALS];
            && (StartsWith(w, p) ==> !StartsWith(w, c) && !StartsWith(w, m) && !StartsWith(w, v))
            && (StartsWith(w, c) ==> !StartsWith(w, m) && !StartsWith(w, v))
            && (StartsWith(w, m) ==> !StartsWith(w, v))
  {
    hide StartsWith, Ascii;
    KeysAreWords();
    var p, c, m, v := Ascii("paired"), Ascii("counter"), Ascii("fmt"), Ascii("fw");
    if StartsWith(w, p + [EQUALS]) && StartsWith(w, c + [EQUALS]) { OneKey(w, p, c); }
    if StartsWith(w, p + [EQUALS]) && StartsWith(w, m + [EQUALS]) { OneKey(w, p, m); }
    if StartsWith(w, p + [EQUALS]) && StartsWith(w, v + [EQUALS]) { OneKey(w, p, v); }
    if StartsWith(w, c + [EQUALS]) && StartsWith(w, m + [EQUALS]) { OneKey(w, c, m); }
    if StartsWith(w, c + [EQUALS]) && StartsWith(w, v + [EQUALS]) { OneKey(w, c, v); }
    if StartsWith(w, m + [EQUALS]) && StartsWith(w, v + [EQUALS]) { OneKey(w, m, v); }
  }

  /** Among the words of a status line: a last "paired=", "counter=", "fmt=" and "fw=", the
      numbers in range; it says paired exactly if that word's value is "true". */
  predicate SaysStatus(words: seq<bytes>, status: Status) {
    var paired, counter := LastValue(words, Ascii("paired")), LastValue(words, Ascii("counter"));
    var fmt, fw := LastValue(words, Ascii("fmt")), LastValue(words, Ascii("fw"));
    && paired.Some? && (status.paired <==> paired.value == Ascii("true"))
    && counter.Some? && LooseNumber(counter.value, 0xFFFF_FFFF_FFFF_FFFF) == Some(status.counter)
    && fmt.Some? && LooseNumber(fmt.value, 255).Some? && fw.Some?
  }

  /** What makes a status line: "OK " and such words, separated by any blanks. */
  lemma StatusExactly(line: bytes, status: Status)
    ensures ParseStatus(line) == Some(status) <==>
              StartsWith(line, Ascii("OK ")) && |line| >= 3 && SaysStatus(Words(line[3..]), status)
  {
    hide LooseNumber, LastValue, TakeWords, Words, AsciiByte;
    if StartsWith(line, Ascii("OK ")) {
      FieldsExactly(Words(line[3..]));
    }
  }

  lemma {:induction false} ZeroInFront(s: bytes)
    requires AllDigits(s)
    ensures AllDigits([ZERO] + s) && DecValue([ZERO] + s) == DecValue(s)
    decreases |s|
  {
    var t := [ZERO] + s;
    assert AllDigits(t);
    if s == [] {
      assert t[..0] == [];
    } else {
      var n := |s| - 1;
      ZeroInFront(s[..n]);
      assert t[..|t| - 1] == [ZERO] + s[..n];
    }
  }

  /** The digits of a number with `zeros` zeros before them. */
  function Zeroed(zeros: nat, n: nat): bytes {
    if zeros == 0 then Dec(n) else [ZERO] + Zeroed(zeros - 1, n)
  }

  lemma {:induction false} ZeroedValue(zeros: nat, n: nat)
    ensures Zeroed(zeros, n) != [] && AllDigits(Zeroed(zeros, n)) && DecValue(Zeroed(zeros, n)) == n
  {
    if zeros == 0 {
      DecIsCanonical(n);
    } else {
      ZeroedValue(zeros - 1, n);
      ZeroInFront(Zeroed(zeros - 1, n));
    }
  }

  lemma {:induction false} DigitsAreZeroed(s: bytes) returns (zeros: nat)
    requires s != [] && AllDigits(s)
    ensures s == Zeroed(zeros, DecValue(s))
    decreases |s|
  {
    if |s| == 1 || s[0] != ZERO {
      DecOfValue(s);
      zeros := 0;
    } else {
      assert s == [ZERO] + s[1..];
      ZeroInFront(s[1..]);
      var rest := DigitsAreZeroed(s[1..]);
      zeros := rest + 1;
    }
  }

  lemma ZeroedStart(zeros: nat, n: nat)
    ensures Zeroed(zeros, n) != [] && Zeroed(zeros, n)[0] != PLUS
  {
    ZeroedValue(zeros, n);
    assert IsDigit(Zeroed(zeros, n)[0]);
  }

  /** The tool reads a number in any of its spellings, with zeros before it and a plus sign
      before those, and reads nothing else. */
  lemma LooseExactly(v: bytes, max: nat, n: nat)
    ensures LooseNumber(v, max) == Some(n) <==>
              n <= max && exists zeros: nat :: v == Zeroed(zeros, n) || v == [PLUS] + Zeroed(zeros, n)
  {
    if LooseNumber(v, max) == Some(n) {
      var digits := if v[0] == PLUS then v[1..] else v;
      var zeros := DigitsAreZeroed(digits);
      assert v == Zeroed(zeros, n) || v == [PLUS] + Zeroed(zeros, n);
    }
    hide AllDigits, DecValue, Zeroed;
    if zeros: nat :| n <= max && (v == Zeroed(zeros, n) || v == [PLUS] + Zeroed(zeros, n)) {
      ZeroedValue(zeros, n);
      ZeroedStart(zeros, n);
      assert ([PLUS] + Zeroed(zeros, n))[1..] == Zeroed(zeros, n);
    }
  }

  /** A resync is refused exactly where the next command could not be sent. */
  lemma ResyncTargetExactly(reported: u64)
    ensures ResyncTarget(reported) == if reported + 1 < 0xFFFF_FFFF_FFFF_0000 then Some(reported + 1) else None
  {
  }

  /** Words are what stands between blanks: space, tab, line feed, vertical tab, form feed and
      carriage return. */
  lemma BlanksSeparate(w: bytes, blank: byte, rest: bytes)
    requires forall b :: b in w ==> b != 0x20 && !(0x09 <= b <= 0x0D)
    requires blank == 0x20 || 0x09 <= blank <= 0x0D
    ensures Words(w + [blank] + rest) == (if w == [] then [] else [w]) + Words(rest)
    ensures Words(w) == if w == [] then [] else [w]
  {
    var s := w + [blank] + rest;
    if w == [] {
      assert s[0] == blank && s[1..] == rest;
    } else {
      assert w[0] in w;
      assert s == w + ([blank] + rest);
      WordEnds(w, [blank] + rest);
      assert s[..|w|] == w && s[|w|..] == [blank] + rest;
      assert ([blank] + rest)[1..] == rest;
      assert Words([blank] + rest) == Words(rest);
      LastWord(w);
    }
  }
}

/** Outcome types in the style of the daemon's language. */
module Outcomes {
  datatype Option<+T> = None | Some(value: T)

  datatype Result<+T, +E> = Ok(value: T) | Err(error: E) {
    predicate IsFailure() {
      Err?
    }

    function PropagateFailure<U>(): Result<U, E>
      requires Err?
    {
      Err(error)
    }

    function Extract(): T
      requires Ok?
    {
      value
    }
  }
}

/** Decimal numbers on the wire: how both ends print them, and the two strict parsers. */
module Decimal {
  import opened Bytes
  import opened Outcomes

  const ZERO: byte := 0x30

  predicate IsDigit(b: byte) {
    0x30 <= b <= 0x39
  }

  /** The decimal text of a number. */
  function Dec(n: nat): (s: bytes)
    ensures |s| > 0
    ensures forall b :: b in s ==> IsDigit(b)
  {
    if n < 10 then [ZERO + n] else Dec(n / 10) + [ZERO + n % 10]
  }

  predicate AllDigits(s: bytes) {
    forall i :: 0 <= i < |s| ==> IsDigit(s[i])
  }

  function DecValue(s: bytes): nat
    requires AllDigits(s)
  {
    if s == [] then 0 else 10 * DecValue(s[..|s| - 1]) + (s[|s| - 1] - ZERO)
  }

  /** No empty text, no sign, no leading zero. */
  predicate Canonical(s: bytes) {
    s != [] && AllDigits(s) && (|s| > 1 ==> s[0] != ZERO)
  }

  lemma {:induction false} DecIsCanonical(n: nat)
    ensures Canonical(Dec(n)) && DecValue(Dec(n)) == n
    ensures n > 0 ==> Dec(n)[0] != ZERO
  {
    if n >= 10 {
      DecIsCanonical(n / 10);
      assert Dec(n)[..|Dec(n)| - 1] == Dec(n / 10);
    } else {
      assert Dec(n)[..0] == [];
    }
  }

  lemma {:induction false} DecPositive(s: bytes)
    requires s != [] && AllDigits(s) && s[0] != ZERO
    ensures DecValue(s) > 0
  {
    if |s| > 1 {
      DecPositive(s[..|s| - 1]);
    }
  }

  lemma {:induction false} DecOfValue(s: bytes)
    requires Canonical(s)
    ensures Dec(DecValue(s)) == s
  {
    var n := |s| - 1;
    if n == 0 {
      assert s[..0] == [];
    } else {
      DecOfValue(s[..n]);
      DecPositive(s[..n]);
      assert s == s[..n] + [s[n]];
    }
  }

  function Pow10(k: nat): nat {
    if k == 0 then 1 else 10 * Pow10(k - 1)
  }

  lemma {:induction false} DecLength(n: nat, k: nat)
    requires k > 0 && n < Pow10(k)
    ensures |Dec(n)| <= k
  {
    if n >= 10 {
      DecLength(n / 10, k - 1);
    }
  }

  /** A u64 prints in at most 20 digits, a u32 in at most 10. */
  lemma DecWidths(c: u64)
    ensures |Dec(c)| <= 20
    ensures c < TWO_32 ==> |Dec(c)| <= 10
  {
    assert Pow10(5) == 100000;
    assert Pow10(10) == 100000 * Pow10(5);
    assert Pow10(15) == 100000 * Pow10(10);
    assert Pow10(20) == 100000 * Pow10(15);
    DecLength(c, 20);
    if c < TWO_32 {
      DecLength(c, 10);
    }
  }

  // ----- the daemon's parser: framing.rs -----

  function ParseStrictU64(s: bytes): Option<u64> {
    if s == [] then None
    else if |s| > 1 && s[0] == ZERO then None
    else if !AllDigits(s) then None
    else if DecValue(s) > U64_MAX then None
    else Some(DecValue(s))
  }

  function ParseStrictU32(s: bytes): Option<u32> {
    match ParseStrictU64(s)
    case None => None
    case Some(v) => if v >= TWO_32 then None else Some(v)
  }

  /** A text parses exactly when it is the printed form of a number that fits. */
  lemma ParseStrictU64Exact(s: bytes, v: u64)
    ensures ParseStrictU64(s) == Some(v) <==> s == Dec(v)
  {
    DecIsCanonical(v);
    if ParseStrictU64(s) == Some(v) {
      DecOfValue(s);
    }
  }

  lemma ParseStrictU32Exact(s: bytes, v: u32)
    ensures ParseStrictU32(s) == Some(v) <==> s == Dec(v)
  {
    ParseStrictU64Exact(s, v);
  }

  // ----- the firmware's printer and parser: framing.h -----

  /** The first loop of format_u64: the digits of `n`, last digit first. */
  method DigitsBackwards(n: u64) returns (tmp: array<byte>, i: nat)
    requires n > 0
    ensures fresh(tmp) && tmp.Length == 21
    ensures i == |Dec(n)| <= 20
    ensures forall j :: 0 <= j < i ==> tmp[j] == Dec(n)[i - 1 - j]
  {
    hide Dec;
    DecWidths(n);
    ghost var text := Dec(n);
    tmp := new byte[21];
    i := 0;
    var rest: nat := n;
    while rest > 0
      invariant i <= |text|
      invariant if rest > 0 then Dec(rest) == text[..|text| - i] else i == |text|
      invariant forall j :: 0 <= j < i ==> tmp[j] == text[|text| - 1 - j]
    {
      DecLastDigit(rest);
      ghost var before := text[..|text| - i];
      assert text[..|text| - i - 1] == before[..|before| - 1];
      assert before[|before| - 1] == text[|text| - 1 - i];
      tmp[i] := ZERO + rest % 10;
      i := i + 1;
      rest := rest / 10;
    }
  }

  lemma DecLastDigit(n: nat)
    requires n > 0
    ensures Dec(n)[|Dec(n)| - 1] == ZERO + n % 10
    ensures if n < 10 then |Dec(n)| == 1 else Dec(n)[..|Dec(n)| - 1] == Dec(n / 10)
  {
  }

  lemma PrintedPrefix(was: bytes, now: bytes, off: nat, text: bytes)
    requires off + |text| < |was| && now == Spliced(was, off, text + [0])
    ensures now[..off + |text|] == was[..off] + text
  {
    SplicedPrefix(was, off, text + [0], |text|);
    assert (text + [0])[..|text|] == text;
  }

  /** format_u64: prints `n` at `out + off`, NUL-terminated; the caller leaves 21 bytes. */
  method FormatU64(n: u64, out: array<byte>, off: nat) returns (len: nat)
    requires off + 21 <= out.Length
    modifies out
    ensures len == |Dec(n)| <= 20
    ensures out[..] == Spliced(old(out[..]), off, Dec(n) + [0])
    ensures out[..off + len] == old(out[..off]) + Dec(n)
  {
    hide Spliced;
    ghost var was := out[..];
    SplicedNothing(was, off);
    if n == 0 {
      SplicedOneMore(was, off, [], ZERO);
      Put(out, off, ZERO);
      SplicedOneMore(was, off, [ZERO], 0);
      Put(out, off + 1, 0);
      assert Dec(0) == [] + [ZERO];
      PrintedPrefix(was, out[..], off, [ZERO]);
      return 1;
    }
    var tmp, i := DigitsBackwards(n);
    ghost var text := Dec(n);
    assert text[..0] == [];
    for j := 0 to i
      invariant forall k :: 0 <= k < i ==> tmp[k] == text[i - 1 - k]
      invariant out[..] == Spliced(was, off, text[..j])
    {
      SplicedOneMore(was, off, text[..j], text[j]);
      assert text[..j + 1] == text[..j] + [text[j]];
      Put(out, off + j, tmp[i - 1 - j]);
    }
    assert text[..i] == text;
    SplicedOneMore(was, off, text, 0);
    Put(out, off + i, 0);
    PrintedPrefix(was, out[..], off, text);
    return i;
  }

  method FormatU32(n: u32, out: array<byte>, off: nat) returns (len: nat)
    requires off + 21 <= out.Length
    modifies out
    ensures len == |Dec(n)| <= 10
    ensures out[..] == Spliced(old(out[..]), off, Dec(n) + [0])
    ensures out[..off + len] == old(out[..off]) + Dec(n)
  {
    DecWidths(n);
    len := FormatU64(n, out, off);
  }

  lemma DecValueMonotone(s: bytes, i: nat)
    requires AllDigits(s) && i <= |s|
    ensures AllDigits(s[..i]) && DecValue(s[..i]) <= DecValue(s)
  {
    if i < |s| {
      var n := |s| - 1;
      DecValueMonotone(s[..n], i);
      assert s[..n][..i] == s[..i];
    } else {
      assert s[..i] == s;
    }
  }

  /** parse_u64, with its two overflow tests, on the first `len` bytes at `p`. */
  method ParseU64(p: bytes, len: nat) returns (v: Option<u64>)
    requires len <= |p|
    ensures v == ParseStrictU64(p[..len])
  {
    if len == 0 {
      return None;
    }
    if len > 1 && p[0] == ZERO {
      return None;
    }
    ghost var s := p[..len];
    var n: u64 := 0;
    for i := 0 to len
      invariant AllDigits(s[..i]) && n == DecValue(s[..i])
    {
      var c := p[i];
      assert s[i] == c && s[..i + 1][..i] == s[..i];
      if c < 0x30 || c > 0x39 {
        return None;
      }
      ghost var next := 10 * n + (c - ZERO);
      assert next == DecValue(s[..i + 1]);
      if next > U64_MAX && AllDigits(s) {
        DecValueMonotone(s, i + 1);
      }
      if n > 0xFFFF_FFFF_FFFF_FFFF / 10 {
        return None;
      }
      var d := c - ZERO;
      if n * 10 > 0xFFFF_FFFF_FFFF_FFFF - d {
        return None;
      }
      n := n * 10 + d;
    }
    assert s[..len] == s;
    return Some(n);
  }

  method ParseU32(p: bytes, len: nat) returns (v: Option<u32>)
    requires len <= |p|
    ensures v == ParseStrictU32(p[..len])
  {
    var w := ParseU64(p, len);
    if w.None? || w.value > 0xFFFF_FFFF {
      return None;
    }
    return Some(w.value);
  }
}

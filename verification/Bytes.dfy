/** Machine integers and byte strings shared by every other module.

    A byte is a number below 256; `Bits` is the same byte as a bit vector, for the
    code that shifts and xors. */
module Bytes {
  type byte = b: int | 0 <= b < 256
  type bytes = seq<byte>

  const TWO_32: int := 0x1_0000_0000
  const TWO_64: int := 0x1_0000_0000_0000_0000
  const U64_MAX: int := 0xFFFF_FFFF_FFFF_FFFF

  type u32 = n: int | 0 <= n < 0x1_0000_0000
  type u64 = n: int | 0 <= n < 0x1_0000_0000_0000_0000

  /** Counters from here on are reserved: neither end sends or accepts them. */
  const COUNTER_CEILING: u64 := 0xFFFF_FFFF_FFFF_0000

  const SPACE: byte := 0x20
  const NEWLINE: byte := 0x0A
  const RETURN: byte := 0x0D

  /** A text of the program, as the bytes it puts on the wire. */
  function Ascii(text: string): (s: bytes)
    ensures |s| == |text|
  {
    seq(|text|, i requires 0 <= i < |text| => AsciiByte(text[i]))
  }

  function AsciiByte(c: char): byte {
    if c as int < 128 then c as int else 0x3F
  }

  /** A four-bit number as the low half of a byte. */
  function Nibble(n: int): (v: bv8)
    requires 0 <= n < 16
    ensures v < 16 && v as int == n
  {
    NibbleValue(n);
    WidenedValue(n as bv4);
    (n as bv4) as bv8
  }

  function Bits(b: byte): (v: bv8)
    ensures v as int == b
  {
    JoinedValue(Nibble(b / 16), Nibble(b % 16));
    (Nibble(b / 16) << 4) | Nibble(b % 16)
  }

  lemma {:induction false} NibbleValue(n: int)
    requires 0 <= n < 16
    ensures (n as bv4) as int == n
  {
  }

  lemma {:induction false} WidenedValue(v: bv4)
    ensures (v as bv8) as int == v as int && (v as bv8) < 16
  {
  }

  lemma {:induction false} JoinedValue(h: bv8, l: bv8)
    requires h < 16 && l < 16
    ensures ((h << 4) | l) as int == (h as int) * 16 + l as int
  {
  }

  lemma {:induction false} SameValueSameBits(v: bv8, w: bv8)
    requires v as int == w as int
    ensures v == w
  {
  }

  lemma BitsOfInt(v: bv8)
    ensures Bits(v as int) == v
  {
    SameValueSameBits(Bits(v as int), v);
  }

  predicate StartsWith(s: bytes, p: bytes) {
    |s| >= |p| && s[..|p|] == p
  }

  /** Where `b` first occurs, or the length. */
  function IndexOf(s: bytes, b: byte): (i: nat)
    ensures i <= |s|
    ensures i < |s| ==> s[i] == b
    ensures forall j :: 0 <= j < i ==> s[j] != b
  {
    if s == [] || s[0] == b then 0 else 1 + IndexOf(s[1..], b)
  }

  lemma IndexOfIs(s: bytes, b: byte, i: nat)
    requires i <= |s| && (i < |s| ==> s[i] == b)
    requires forall j :: 0 <= j < i ==> s[j] != b
    ensures IndexOf(s, b) == i
  {
  }

  /** `s` with `t` written over it from `off` on. */
  function Spliced(s: bytes, off: nat, t: bytes): (r: bytes)
    requires off + |t| <= |s|
    ensures |r| == |s|
    ensures r[off..off + |t|] == t
  {
    s[..off] + t + s[off + |t|..]
  }

  lemma SplicedOneMore(s: bytes, off: nat, t: bytes, v: byte)
    requires off + |t| < |s|
    ensures Spliced(s, off, t)[off + |t| := v] == Spliced(s, off, t + [v])
  {
  }

  lemma SplicedNothing(s: bytes, off: nat)
    requires off <= |s|
    ensures Spliced(s, off, []) == s
  {
  }

  lemma SplicedPrefix(s: bytes, off: nat, t: bytes, k: nat)
    requires off + |t| <= |s| && k <= |t|
    ensures Spliced(s, off, t)[..off + k] == s[..off] + t[..k]
  {
  }

  method Put(out: array<byte>, i: nat, v: byte)
    requires i < out.Length
    modifies out
    ensures out[..] == old(out[..])[i := v]
  {
    out[i] := v;
  }

  /** `out[off++] = v`, seen from the text written so far. */
  method PutNext(out: array<byte>, off: nat, v: byte) returns (next: nat)
    requires off < out.Length
    modifies out
    ensures next == off + 1
    ensures out[..next] == old(out[..off]) + [v]
  {
    out[off] := v;
    next := off + 1;
  }

  // ----- little-endian numbers -----

  function Pow256(j: nat): (p: nat)
    ensures p > 0
  {
    if j == 0 then 1 else 256 * Pow256(j - 1)
  }

  function LeBytes(n: nat, k: nat): (s: bytes)
    ensures |s| == k
  {
    if k == 0 then [] else [n % 256] + LeBytes(n / 256, k - 1)
  }

  function LeValue(s: bytes): nat {
    if s == [] then 0 else s[0] + 256 * LeValue(s[1..])
  }

  /** Decoding what was encoded returns every number that fits. */
  lemma {:induction false} LeRoundTrip(n: nat, k: nat)
    requires n < Pow256(k)
    ensures LeValue(LeBytes(n, k)) == n
  {
    if k > 0 {
      LeRoundTrip(n / 256, k - 1);
    }
  }

  lemma {:induction false} LeValueBound(s: bytes)
    ensures LeValue(s) < Pow256(|s|)
  {
    if s != [] {
      LeValueBound(s[1..]);
    }
  }

  lemma FirstOfSum(b: byte, n: nat)
    ensures (b + 256 * n) % 256 == b && (b + 256 * n) / 256 == n
  {
  }

  lemma {:induction false} LeBytesOfValue(s: bytes)
    ensures LeBytes(LeValue(s), |s|) == s
  {
    if s != [] {
      var rest := LeValue(s[1..]);
      LeBytesOfValue(s[1..]);
      FirstOfSum(s[0], rest);
      assert LeBytes(s[0] + 256 * rest, |s|) == [s[0]] + LeBytes(rest, |s| - 1);
      assert s == [s[0]] + s[1..];
    }
  }

  /** A number shifted right by 8j bits. */
  function ShiftRight8(n: nat, j: nat): nat
    decreases j
  {
    if j == 0 then n else ShiftRight8(n / 256, j - 1)
  }

  /** Byte j of the encoding is the number shifted right by 8j bits, truncated. */
  lemma {:induction false} LeByteAt(n: nat, k: nat, j: nat)
    requires j < k
    ensures LeBytes(n, k)[j] == ShiftRight8(n, j) % 256
  {
    if j > 0 {
      LeByteAt(n / 256, k - 1, j - 1);
    }
  }

  lemma Pow256Eight()
    ensures Pow256(8) == TWO_64
  {
    assert Pow256(4) == TWO_32;
    assert Pow256(8) == 256 * (256 * (256 * (256 * Pow256(4))));
  }

  lemma LeValueFour(s: bytes)
    requires |s| >= 4
    ensures LeValue(s) == s[0] + 256 * (s[1] + 256 * (s[2] + 256 * (s[3] + 256 * LeValue(s[4..]))))
  {
    assert s[1..][1..] == s[2..] && s[2..][1..] == s[3..] && s[3..][1..] == s[4..];
    assert LeValue(s[2..]) == s[2] + 256 * LeValue(s[3..]);
    assert LeValue(s[3..]) == s[3] + 256 * LeValue(s[4..]);
  }
}

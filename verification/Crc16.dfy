/** Iterating and folding a register update, for a register of any type. Keeping the
    type abstract keeps bit vectors out of the inductive proofs. */
module Registers {
  import opened Bytes

  function Iterate<T>(f: T -> T, x: T, n: nat): T {
    if n == 0 then x else f(Iterate(f, x, n - 1))
  }

  function Fold<T>(feed: (T, byte) -> T, c: T, s: bytes): T
    decreases |s|
  {
    if s == [] then c else Fold(feed, feed(c, s[0]), s[1..])
  }

  lemma {:induction false} IterateLinear<T(!new)>(f: T -> T, xor: (T, T) -> T, x: T, y: T, n: nat)
    requires forall a, b :: f(xor(a, b)) == xor(f(a), f(b))
    ensures Iterate(f, xor(x, y), n) == xor(Iterate(f, x, n), Iterate(f, y, n))
  {
    if n > 0 {
      IterateLinear(f, xor, x, y, n - 1);
    }
  }

  lemma {:induction false} IterateInjective<T(!new)>(f: T -> T, x: T, y: T, n: nat)
    requires forall a, b :: f(a) == f(b) ==> a == b
    requires Iterate(f, x, n) == Iterate(f, y, n)
    ensures x == y
  {
    if n > 0 {
      IterateInjective(f, x, y, n - 1);
    }
  }

  lemma IterateEight<T>(f: T -> T, x: T)
    ensures Iterate(f, x, 8) == f(f(f(f(f(f(f(f(x))))))))
  {
    assert Iterate(f, x, 4) == f(f(f(f(x))));
  }

  lemma {:induction false} FoldAppend<T>(feed: (T, byte) -> T, c: T, s: bytes, t: bytes)
    ensures Fold(feed, c, s + t) == Fold(feed, Fold(feed, c, s), t)
    decreases |s|
  {
    if s == [] {
      assert s + t == t;
    } else {
      assert (s + t)[0] == s[0] && (s + t)[1..] == s[1..] + t;
      FoldAppend(feed, feed(c, s[0]), s[1..], t);
    }
  }

  lemma {:induction false} FoldInjective<T(!new)>(feed: (T, byte) -> T, c: T, d: T, s: bytes)
    requires forall x, y, b :: feed(x, b) == feed(y, b) ==> x == y
    requires Fold(feed, c, s) == Fold(feed, d, s)
    ensures c == d
    decreases |s|
  {
    if s != [] {
      FoldInjective(feed, feed(c, s[0]), feed(d, s[0]), s[1..]);
    }
  }

  // What makes a register update reversible: it xors the aligned byte in and then runs.

  ghost predicate FeedRuns<T(!new)>(feed: (T, byte) -> T, run: T -> T, xor: (T, T) -> T, align: byte -> T) {
    forall x, b :: feed(x, b) == run(xor(x, align(b)))
  }

  ghost predicate XorUndoes<T(!new)>(xor: (T, T) -> T) {
    forall x, y :: xor(xor(x, y), y) == x
  }

  ghost predicate XorDropsShared<T(!new)>(xor: (T, T) -> T) {
    forall x, y, z :: xor(xor(z, x), xor(z, y)) == xor(x, y)
  }

  ghost predicate Linear<T(!new)>(run: T -> T, xor: (T, T) -> T) {
    forall x, y :: run(xor(x, y)) == xor(run(x), run(y))
  }

  ghost predicate Injective<T(!new)>(run: T -> T) {
    forall x, y :: run(x) == run(y) ==> x == y
  }

  ghost predicate ByteShows<T(!new)>(xor: (T, T) -> T, align: byte -> T) {
    forall x, p: byte, q: byte :: xor(x, align(p)) == xor(x, align(q)) ==> p == q
  }

  /** What one byte leaves behind is never cancelled by the byte after it. */
  ghost predicate NeverCancelled<T(!new)>(run: T -> T, xor: (T, T) -> T, align: byte -> T) {
    forall p: byte, q: byte, r: byte, s: byte ::
      xor(run(align(p)), run(align(q))) == xor(align(r), align(s)) ==> p == q
  }

  lemma OneFedInjective<T(!new)>(feed: (T, byte) -> T, run: T -> T, xor: (T, T) -> T, align: byte -> T,
                                 x: T, y: T, b: byte)
    requires FeedRuns(feed, run, xor, align) && XorUndoes(xor) && Injective(run)
    requires feed(x, b) == feed(y, b)
    ensures x == y
  {
    assert xor(xor(x, align(b)), align(b)) == xor(xor(y, align(b)), align(b));
  }

  /** Two bytes fed one after the other can be read back. */
  lemma TwoFedInjective<T(!new)>(feed: (T, byte) -> T, run: T -> T, xor: (T, T) -> T, align: byte -> T,
                                 c: T, a: byte, b: byte, a': byte, b': byte)
    requires FeedRuns(feed, run, xor, align) && XorUndoes(xor) && XorDropsShared(xor)
    requires Linear(run, xor) && Injective(run)
    requires ByteShows(xor, align) && NeverCancelled(run, xor, align)
    requires feed(feed(c, a), b) == feed(feed(c, a'), b')
    ensures a == a' && b == b'
  {
    var u, w := run(xor(c, align(a))), run(xor(c, align(a')));
    var both := xor(u, align(b));
    assert both == xor(w, align(b'));
    assert xor(both, align(b)) == u && xor(both, align(b')) == w;
    assert xor(u, w) == xor(align(b), align(b'));
    assert xor(u, w) == xor(run(align(a)), run(align(a')));
    assert a == a';
  }

  /** No two strings that differ only inside one two-byte window fold to the same value. */
  lemma WindowDetected<T(!new)>(feed: (T, byte) -> T, c: T, s: bytes, t: bytes, j: nat)
    requires forall x, y, b :: feed(x, b) == feed(y, b) ==> x == y
    requires forall x, a, b, a', b' ::
               feed(feed(x, a), b) == feed(feed(x, a'), b') ==> a == a' && b == b'
    requires |s| == |t| && j + 2 <= |s| && s[..j] == t[..j] && s[j + 2..] == t[j + 2..]
    requires Fold(feed, c, s) == Fold(feed, c, t)
    ensures s == t
  {
    var mid, rest := Fold(feed, c, s[..j]), s[j + 2..];
    FoldAroundWindow(feed, c, s, j);
    FoldAroundWindow(feed, c, t, j);
    FoldInjective(feed, feed(feed(mid, s[j]), s[j + 1]), feed(feed(mid, t[j]), t[j + 1]), rest);
    SameAroundWindow(s, t, j);
  }

  lemma SameAroundWindow(s: bytes, t: bytes, j: nat)
    requires |s| == |t| && j + 2 <= |s| && s[..j] == t[..j] && s[j + 2..] == t[j + 2..]
    requires s[j] == t[j] && s[j + 1] == t[j + 1]
    ensures s == t
  {
    assert s == s[..j] + [s[j], s[j + 1]] + s[j + 2..];
    assert t == t[..j] + [t[j], t[j + 1]] + t[j + 2..];
  }

  lemma FoldAroundWindow<T>(feed: (T, byte) -> T, c: T, s: bytes, j: nat)
    requires j + 2 <= |s|
    ensures Fold(feed, c, s)
         == Fold(feed, feed(feed(Fold(feed, c, s[..j]), s[j]), s[j + 1]), s[j + 2..])
  {
    assert s == s[..j] + s[j..];
    FoldAppend(feed, c, s[..j], s[j..]);
    assert s[j..][1..] == s[j + 1..] && s[j + 1..][1..] == s[j + 2..];
  }
}

/** CRC-16-CCITT as the counter ring uses it: generator 0x1021 of ITU-T V.41, start
    value 0xFFFF, most significant bit first. */
module Crc16 {
  import opened Bytes
  import opened Registers

  const INIT: bv16 := 0xFFFF

  predicate Top(c: bv16) {
    c & 0x8000 != 0
  }

  /** One shift of the register. */
  function Step(c: bv16): bv16 {
    if Top(c) then (c << 1) ^ 0x1021 else c << 1
  }

  function Xor(a: bv16, b: bv16): bv16 {
    a ^ b
  }

  /** A message byte lined up with the top of the register. */
  function Aligned(b: byte): bv16 {
    (Bits(b) as bv16) << 8
  }

  function Run(c: bv16): bv16 {
    Iterate(Step, c, 8)
  }

  function Feed(c: bv16, b: byte): bv16 {
    Run(Xor(c, Aligned(b)))
  }

  function Crc(s: bytes): bv16 {
    Fold(Feed, INIT, s)
  }

  method Crc16Ccitt(p: bytes, n: nat) returns (c: bv16)
    requires n <= |p|
    ensures c == Crc(p[..n])
  {
    c := 0xFFFF;
    assert p[0..n] == p[..n];
    for i := 0 to n
      invariant Fold(Feed, c, p[i..n]) == Crc(p[..n])
    {
      assert p[i..n][0] == p[i] && p[i..n][1..] == p[i + 1..n];
      ghost var fed := Feed(c, p[i]);
      c := Xor(c, Aligned(p[i]));
      ghost var start := c;
      for b := 0 to 8
        invariant c == Iterate(Step, start, b)
      {
        c := Step(c);
      }
      assert c == fed;
    }
    assert p[n..n] == [];
  }

  // ----- one shift is linear over xor and reversible -----

  lemma {:induction false} TopXor(a: bv16, b: bv16)
    ensures Top(Xor(a, b)) == (Top(a) != Top(b))
  {
  }

  lemma {:induction false} StepLinearMixed(a: bv16, b: bv16)
    requires Top(a) && !Top(b)
    ensures Step(Xor(a, b)) == Xor(Step(a), Step(b))
  {
    TopXor(a, b);
  }

  lemma {:induction false} StepLinearBoth(a: bv16, b: bv16)
    requires Top(a) && Top(b)
    ensures Step(Xor(a, b)) == Xor(Step(a), Step(b))
  {
    TopXor(a, b);
  }

  lemma {:induction false} StepLinearNone(a: bv16, b: bv16)
    requires !Top(a) && !Top(b)
    ensures Step(Xor(a, b)) == Xor(Step(a), Step(b))
  {
    TopXor(a, b);
  }

  lemma {:induction false} XorCommutes(a: bv16, b: bv16)
    ensures Xor(a, b) == Xor(b, a)
  {
  }

  lemma {:induction false} StepLinear(a: bv16, b: bv16)
    ensures Step(Xor(a, b)) == Xor(Step(a), Step(b))
  {
    if Top(a) && Top(b) {
      StepLinearBoth(a, b);
    } else if Top(a) {
      StepLinearMixed(a, b);
    } else if Top(b) {
      StepLinearMixed(b, a);
      XorCommutes(a, b);
      XorCommutes(Step(a), Step(b));
    } else {
      StepLinearNone(a, b);
    }
  }

  lemma {:induction false} StepInjectiveBoth(a: bv16, b: bv16)
    requires Top(a) && Top(b) && Step(a) == Step(b)
    ensures a == b
  {
  }

  lemma {:induction false} StepInjectiveNone(a: bv16, b: bv16)
    requires !Top(a) && !Top(b) && Step(a) == Step(b)
    ensures a == b
  {
  }

  /** The generator is odd, so the bit shifted out can be read back from the result. */
  lemma {:induction false} ShiftedOutBitShows(a: bv16, b: bv16)
    requires Top(a) && !Top(b)
    ensures Step(a) != Step(b)
  {
  }

  lemma {:induction false} StepInjective(a: bv16, b: bv16)
    requires Step(a) == Step(b)
    ensures a == b
  {
    if Top(a) && Top(b) {
      StepInjectiveBoth(a, b);
    } else if Top(a) {
      ShiftedOutBitShows(a, b);
    } else if Top(b) {
      ShiftedOutBitShows(b, a);
    } else {
      StepInjectiveNone(a, b);
    }
  }

  // ----- the register after one byte, and after two -----

  lemma RunLinear(a: bv16, b: bv16)
    ensures Run(Xor(a, b)) == Xor(Run(a), Run(b))
  {
    forall x, y ensures Step(Xor(x, y)) == Xor(Step(x), Step(y)) {
      StepLinear(x, y);
    }
    IterateLinear(Step, Xor, a, b, 8);
  }

  lemma RunInjective(a: bv16, b: bv16)
    requires Run(a) == Run(b)
    ensures a == b
  {
    forall x, y | Step(x) == Step(y) ensures x == y {
      StepInjective(x, y);
    }
    IterateInjective(Step, a, b, 8);
  }

  /** A nonzero byte always disturbs the low half of the register. */
  lemma {:induction false} ByteReachesLowHalf(v: bv8)
    requires Step(Step(Step(Step(Step(Step(Step(Step((v as bv16) << 8)))))))) & 0xFF == 0
    ensures v == 0
  {
  }

  lemma {:induction false} AlignedXor(a: byte, b: byte)
    ensures Xor(Aligned(a), Aligned(b)) == ((Bits(a) ^ Bits(b)) as bv16) << 8
    ensures Xor(Aligned(a), Aligned(b)) & 0xFF == 0
    ensures Bits(a) ^ Bits(b) == 0 ==> Bits(a) == Bits(b)
  {
  }

  lemma {:induction false} XorTwice(x: bv16, y: bv16)
    ensures Xor(Xor(x, y), y) == x
  {
  }

  lemma {:induction false} XorShared(x: bv16, y: bv16, z: bv16)
    ensures Xor(Xor(z, x), Xor(z, y)) == Xor(x, y)
  {
  }

  lemma {:induction false} AlignedInjective(c: bv16, b: byte, d: byte)
    requires Xor(c, Aligned(b)) == Xor(c, Aligned(d))
    ensures b == d
  {
    assert Bits(b) == Bits(d);
  }

  /** What one byte leaves in the register is never cancelled by the byte after it. */
  lemma FirstByteShows(a: byte, b: byte, r: byte, s: byte)
    requires Xor(Run(Aligned(a)), Run(Aligned(b))) == Xor(Aligned(r), Aligned(s))
    ensures a == b
  {
    hide Step;
    var v := Bits(a) ^ Bits(b);
    RunLinear(Aligned(a), Aligned(b));
    AlignedXor(a, b);
    AlignedXor(r, s);
    IterateEight(Step, (v as bv16) << 8);
    ByteReachesLowHalf(v);
  }

  lemma XorLaws()
    ensures XorUndoes(Xor) && XorDropsShared(Xor)
  {
    forall x, y ensures Xor(Xor(x, y), y) == x {
      XorTwice(x, y);
    }
    forall x, y, z ensures Xor(Xor(z, x), Xor(z, y)) == Xor(x, y) {
      XorShared(x, y, z);
    }
  }

  lemma RunLaws()
    ensures Linear(Run, Xor) && Injective(Run)
  {
    forall x, y ensures Run(Xor(x, y)) == Xor(Run(x), Run(y)) {
      RunLinear(x, y);
    }
    forall x, y | Run(x) == Run(y) ensures x == y {
      RunInjective(x, y);
    }
  }

  lemma AlignedLaws()
    ensures ByteShows(Xor, Aligned)
  {
    forall x, p: byte, q: byte | Xor(x, Aligned(p)) == Xor(x, Aligned(q)) ensures p == q {
      AlignedInjective(x, p, q);
    }
  }

  lemma TraceLaw()
    ensures NeverCancelled(Run, Xor, Aligned)
  {
    hide Run, Xor, Aligned;
    forall p: byte, q: byte, r: byte, s: byte
      | Xor(Run(Aligned(p)), Run(Aligned(q))) == Xor(Aligned(r), Aligned(s))
      ensures p == q
    {
      FirstByteShows(p, q, r, s);
    }
  }

  lemma FeedLaw()
    ensures FeedRuns(Feed, Run, Xor, Aligned)
  {
  }

  /** CRC-16 detects every change confined to two adjacent bytes. */
  lemma AdjacentChangeDetected(s: bytes, t: bytes, j: nat)
    requires |s| == |t| && j + 2 <= |s| && s[..j] == t[..j] && s[j + 2..] == t[j + 2..]
    requires Crc(s) == Crc(t)
    ensures s == t
  {
    FeedLaw();
    XorLaws();
    RunLaws();
    AlignedLaws();
    TraceLaw();
    forall x, y, b | Feed(x, b) == Feed(y, b) ensures x == y {
      OneFedInjective(Feed, Run, Xor, Aligned, x, y, b);
    }
    forall x, a, b, a', b' | Feed(Feed(x, a), b) == Feed(Feed(x, a'), b') ensures a == a' && b == b' {
      TwoFedInjective(Feed, Run, Xor, Aligned, x, a, b, a', b');
    }
    WindowDetected(Feed, INIT, s, t, j);
  }

  /** Evaluates one step of a CRC over known bytes. */
  lemma FeedIs(c: bv16, b: byte, v: bv8, r: bv16)
    requires v as int == b
    requires Step(Step(Step(Step(Step(Step(Step(Step(c ^ ((v as bv16) << 8))))))))) == r
    ensures Feed(c, b) == r
  {
    SameValueSameBits(Bits(b), v);
    IterateEight(Step, c ^ ((v as bv16) << 8));
  }
}

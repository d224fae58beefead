/** The generator of the synthetic keys: a scrambling of 64-bit words that loses nothing. */
module SplitMix {
  import opened Words
  import opened Arithmetic
  import opened Ordering

  const GAMMA: nat := 0x9E37_79B9_7F4A_7C15
  const FIRST_FACTOR: nat := 0xBF58_476D_1CE4_E5B9
  const SECOND_FACTOR: nat := 0x94D0_49BB_1331_11EB

  function SplitMix64(x: nat): nat {
    var y := Wrap(x + GAMMA);
    var z1 := Wrap(XorShift(y, 0x4000_0000) * FIRST_FACTOR);
    var z2 := Wrap(XorShift(z1, 0x800_0000) * SECOND_FACTOR);
    XorShift(z2, 0x8000_0000)
  }

  /** A word joined with its own upper bits; `d` is the power of two that the shift divides by. */
  function XorShift(z: nat, d: nat): nat
    requires d >= 1
  {
    Xor(z, z / d)
  }

  // ---------- joining two words bit by bit ----------

  /** The bits of both operations. */
  lemma {:induction false} WordBits(a: nat, b: nat, k: nat)
    ensures Bit(Xor(a, b), k) == if Bit(a, k) == Bit(b, k) then 0 else 1
    ensures Bit(And(a, b), k) == if Bit(a, k) == 1 then Bit(b, k) else 0
    decreases k
  {
    hide Xor, And, Pow2, Bit;
    var next := if k == 0 then 0 else k - 1;
    BitStep(a, next);
    BitStep(b, next);
    BitStep(Xor(a, b), next);
    BitStep(And(a, b), next);
    XorHalf(a, b);
    AndHalf(a, b);
    if k > 0 { WordBits(a / 2, b / 2, k - 1); }
  }

  /** Shifting commutes with joining. */
  lemma {:induction false} XorShifted(a: nat, b: nat, e: nat)
    ensures Shifted(Xor(a, b), e) == Xor(Shifted(a, e), Shifted(b, e))
  {
    hide Xor;
    if e > 0 {
      XorHalf(a, b);
      XorShifted(a / 2, b / 2, e - 1);
      DivDiv(a, 2, Pow2(e - 1));
      DivDiv(b, 2, Pow2(e - 1));
      DivDiv(Xor(a, b), 2, Pow2(e - 1));
    }
  }

  function Shifted(n: nat, e: nat): nat {
    Quotient(n, Pow2(e))
  }

  function Quotient(n: nat, d: nat): nat
    requires d >= 1
  {
    n / d
  }

  lemma {:induction false} XorBelow(a: nat, b: nat, e: nat)
    requires a < Pow2(e) && b < Pow2(e)
    ensures Xor(a, b) < Pow2(e)
  {
    if e > 0 {
      XorHalf(a, b);
      XorBelow(a / 2, b / 2, e - 1);
    }
  }

  lemma NoBits()
    ensures Xor(0, 0) == 0
  {
  }

  lemma {:induction false} XorTwice(a: nat, b: nat)
    ensures Xor(Xor(a, b), b) == a
    decreases a + b
  {
    hide Xor;
    if a + b == 0 {
      NoBits();
    } else {
      XorTwice(a / 2, b / 2);
      XorHalf(a, b);
      XorHalf(Xor(a, b), b);
    }
  }

  lemma XorWord(a: nat, b: nat)
    requires a < TWO64 && b < TWO64
    ensures Xor(a, b) < TWO64
  {
    Powers();
    XorBelow(a, b, 64);
  }

  lemma {:induction false} XorCancels(a: nat, b: nat, h: nat)
    requires Xor(a, h) == Xor(b, h)
    ensures a == b
    decreases a + b
  {
    hide Xor;
    if a + b > 0 {
      XorHalf(a, h);
      XorHalf(b, h);
      XorCancels(a / 2, b / 2, h / 2);
    }
  }

  // ---------- no step loses anything ----------

  /** The upper bits come through unchanged, and with them the lower ones can be taken off again. */
  lemma {:induction false} XorShiftInjective(a: nat, b: nat, e: nat)
    requires e >= 1 && XorShift(a, Pow2(e)) == XorShift(b, Pow2(e))
    ensures a == b
    decreases a + b
  {
    hide *;
    ShiftIs(a, e);
    ShiftIs(b, e);
    var upperA, upperB := Shifted(a, e), Shifted(b, e);
    if a + b > 0 {
      ShiftedBelow(a, e);
      ShiftedBelow(b, e);
      XorShifted(a, upperA, e);
      XorShifted(b, upperB, e);
      ShiftIs(upperA, e);
      ShiftIs(upperB, e);
      XorShiftInjective(upperA, upperB, e);
      XorCancels(a, b, upperA);
    }
  }

  lemma ShiftIs(z: nat, e: nat)
    ensures XorShift(z, Pow2(e)) == Xor(z, Shifted(z, e))
  {
  }

  lemma ShiftedBelow(a: nat, e: nat)
    requires e >= 1
    ensures Shifted(a, e) <= a && (a > 0 ==> Shifted(a, e) < a)
  {
    Pow2Mono(1, e);
    HalfOrLess(a, Pow2(e));
  }

  lemma HalfOrLess(a: nat, d: nat)
    requires d >= 2
    ensures a / d <= a && (a > 0 ==> a / d < a)
  {
    DivMod(a, d);
    MulAscends(2, d, a / d);
  }

  /** An odd factor has an inverse. */
  lemma FactorInjective(a: nat, b: nat, m: nat, inverse: nat, k: nat)
    requires a < TWO64 && b < TWO64 && m * inverse == 1 + TWO64 * k
    requires Wrap(a * m) == Wrap(b * m)
    ensures a == b
  {
    FactorInverse(a, m, inverse, k);
    FactorInverse(b, m, inverse, k);
  }

  lemma FactorInverse(a: nat, m: nat, inverse: nat, k: nat)
    requires a < TWO64 && m * inverse == 1 + TWO64 * k
    ensures Wrap(Wrap(a * m) * inverse) == a
  {
    var q, r := a * m / TWO64, Wrap(a * m);
    assert a * m == q * TWO64 + r;
    assert r * inverse + q * inverse * TWO64 == a + a * k * TWO64 by {
      assert (q * TWO64 + r) * inverse == a * (m * inverse);
    }
    AddMultiple(r * inverse, q * inverse, TWO64);
    AddMultiple(a, a * k, TWO64);
  }

  lemma Powers()
    ensures Pow2(27) == 0x800_0000 && Pow2(30) == 0x4000_0000 && Pow2(31) == 0x8000_0000
    ensures Pow2(64) == TWO64
  {
    Pow2Add(32, 32);
    assert Pow2(8) == 0x100 && Pow2(16) == 0x1_0000 && Pow2(24) == 0x100_0000 && Pow2(32) == 0x1_0000_0000;
  }

  lemma XorShiftIsWord(z: nat, d: nat)
    requires z < TWO64 && d >= 2
    ensures XorShift(z, d) < TWO64
  {
    HalfOrLess(z, d);
    XorWord(z, z / d);
  }

  lemma MixedIsWord(x: nat)
    ensures SplitMix64(x) < TWO64
  {
    hide XorShift;
    var z1 := Wrap(XorShift(Wrap(x + GAMMA), 0x4000_0000) * FIRST_FACTOR);
    XorShiftIsWord(Wrap(XorShift(z1, 0x800_0000) * SECOND_FACTOR), 0x8000_0000);
  }

  /** One shift and one product. */
  lemma RoundApart(a: nat, b: nat, e: nat, m: nat, inverse: nat, k: nat)
    requires a < TWO64 && b < TWO64 && e >= 1 && m * inverse == 1 + TWO64 * k
    requires Wrap(XorShift(a, Pow2(e)) * m) == Wrap(XorShift(b, Pow2(e)) * m)
    ensures a == b
  {
    assert Pow2(1) == 2;
    hide XorShift, Wrap, Pow2;
    Pow2Mono(1, e);
    XorShiftIsWord(a, Pow2(e));
    XorShiftIsWord(b, Pow2(e));
    FactorInjective(XorShift(a, Pow2(e)), XorShift(b, Pow2(e)), m, inverse, k);
    XorShiftInjective(a, b, e);
  }

  /** Different words stay different. */
  lemma MixingLosesNothing(a: nat, b: nat)
    requires a < TWO64 && b < TWO64
    ensures SplitMix64(a) == SplitMix64(b) <==> a == b
  {
    hide XorShift;
    if SplitMix64(a) == SplitMix64(b) {
      Powers();
      var ya, yb := Wrap(a + GAMMA), Wrap(b + GAMMA);
      var za, zb := Wrap(XorShift(ya, Pow2(30)) * FIRST_FACTOR), Wrap(XorShift(yb, Pow2(30)) * FIRST_FACTOR);
      var wa, wb := Wrap(XorShift(za, Pow2(27)) * SECOND_FACTOR), Wrap(XorShift(zb, Pow2(27)) * SECOND_FACTOR);
      XorShiftInjective(wa, wb, 31);
      RoundApart(za, zb, 27, SECOND_FACTOR, 0x3196_42B2_D24D_8EC3, 2077064247507883091);
      RoundApart(ya, yb, 30, FIRST_FACTOR, 0x96DE_1B17_3F11_9089, 8125545580553827436);
    }
  }

  /** A mask of ones is a remainder. */
  lemma {:induction false} MaskIsRemainder(a: nat, e: nat)
    ensures And(a, Pow2(e) - 1) == a % Pow2(e)
  {
    hide And;
    if e == 0 {
      AndBelow(a, 0);
    } else {
      var mask := Pow2(e) - 1;
      BitAndRest(1, Pow2(e - 1) - 1);
      AndHalf(a, mask);
      MaskIsRemainder(a / 2, e - 1);
      DivDiv(a, 2, Pow2(e - 1));
    }
  }

  // ---------- every word is reached ----------

  /** What the numbers below `n` are mixed to. */
  ghost function Mixed(n: nat): set<nat> {
    if n == 0 then {} else Mixed(n - 1) + {SplitMix64(n - 1)}
  }

  lemma {:induction false} MixedIs(n: nat, y: nat)
    ensures y in Mixed(n) <==> exists x :: 0 <= x < n && SplitMix64(x) == y
  {
    hide SplitMix64;
    if n > 0 { MixedIs(n - 1, y); }
  }

  lemma {:induction false} MixedSize(n: nat)
    requires n <= TWO64
    ensures |Mixed(n)| == n
  {
    hide SplitMix64;
    if n > 0 {
      MixedSize(n - 1);
      var y := SplitMix64(n - 1);
      MixedIs(n - 1, y);
      if y in Mixed(n - 1) {
        var x :| 0 <= x < n - 1 && SplitMix64(x) == y;
        MixingLosesNothing(x, n - 1);
      }
    }
  }

  lemma {:induction false} MixedBelow(n: nat)
    ensures forall y <- Mixed(n) :: y < TWO64
  {
    hide SplitMix64;
    if n > 0 {
      MixedBelow(n - 1);
      MixedIsWord(n - 1);
    }
  }

  /** Every word is the mixture of one. */
  lemma MixingReachesAll(y: nat)
    requires y < TWO64
    ensures exists x :: 0 <= x < TWO64 && SplitMix64(x) == y
  {
    hide *;
    WordReached(y, TWO64);
  }

  lemma WordReached(y: nat, n: nat)
    requires y < n == TWO64
    ensures exists x :: 0 <= x < n && SplitMix64(x) == y
  {
    hide *;
    MixedIs(n, y);
    MixedSize(n);
    MixedBelow(n);
    if y !in Mixed(n) {
      SubsetSize(Mixed(n), Range(0, n) - {y});
    }
  }
}

/** What the order of sort keys means. */
module KeyOrder {
  import opened Arithmetic
  import opened LittleEndian
  import opened Ordering
  import opened RowOrder
  import opened TopK
  import opened Wrappers

  // Doubles are read from their three fields, and texts are compared at their first difference; nothing here uses the
  // comparison of bit patterns or the recursion over bytes that the code's comparator is made of.

  // ---------- doubles ----------

  /** The sign, exponent and fraction fields of a bit pattern. */
  function Negative(x: F64): bool {
    x / TWO63 == 1
  }

  function Exponent(x: F64): nat {
    x / TWO52 % 0x800
  }

  function Fraction(x: F64): nat {
    x % TWO52
  }

  /** A finite double's distance from zero, in units of the least positive double. */
  function Units(x: F64): nat {
    if Exponent(x) == 0 then Fraction(x) else (TWO52 + Fraction(x)) * Pow2(Exponent(x) - 1)
  }

  /** One in these units. */
  function One(): nat {
    Pow2(1074)
  }

  /** The number a finite double stands for. */
  function RealOf(x: F64): real {
    if Negative(x) then -(Units(x) as real) / One() as real else Units(x) as real / One() as real
  }

  datatype Class = NegativeNaN | NegativeInfinity | Finite | PositiveInfinity | PositiveNaN

  function ClassOf(x: F64): Class {
    if Exponent(x) != 0x7FF then Finite
    else if Fraction(x) == 0 then if Negative(x) then NegativeInfinity else PositiveInfinity
    else if Negative(x) then NegativeNaN else PositiveNaN
  }

  function Place(c: Class): nat {
    match c
    case NegativeNaN => 0
    case NegativeInfinity => 1
    case Finite => 2
    case PositiveInfinity => 3
    case PositiveNaN => 4
  }

  /**
   Finite numbers stand by value, the negative zero before the positive one, between the infinities; what is no number
   stands outside, by its sign.
   */
  predicate NumberBefore(x: F64, y: F64) {
    || Place(ClassOf(x)) < Place(ClassOf(y))
    || (ClassOf(x) == ClassOf(y) == Finite && RealOf(x) < RealOf(y))
    || (ClassOf(x) == ClassOf(y) == Finite && RealOf(x) == RealOf(y) && Negative(x) && !Negative(y))
    || (ClassOf(x) == ClassOf(y) == PositiveNaN && Fraction(x) < Fraction(y))
    || (ClassOf(x) == ClassOf(y) == NegativeNaN && Fraction(x) > Fraction(y))
  }

  /** The pattern without its sign. */
  function Magnitude(x: F64): nat {
    x % TWO63
  }

  lemma Fields(x: F64)
    ensures x == (if Negative(x) then TWO63 else 0) + Magnitude(x)
    ensures Magnitude(x) == Exponent(x) * TWO52 + Fraction(x) && Exponent(x) <= 0x7FF && Fraction(x) < TWO52
    ensures TotalKey(x) == if Negative(x) then -1 - Magnitude(x) else Magnitude(x)
  {
  }

  /** Less than the first double with the next exponent. */
  lemma UnitsBelow(x: F64)
    ensures Units(x) < TWO52 * Pow2(Exponent(x))
    ensures Exponent(x) > 0 ==> TWO52 * Pow2(Exponent(x) - 1) <= Units(x)
  {
    var e, f := Exponent(x), Fraction(x);
    if e > 0 {
      MulAscends(TWO52, TWO52 + f, Pow2(e - 1));
      RowOrder.MulLess(TWO52 + f, TWO52 + TWO52, Pow2(e - 1));
    }
  }

  /** The larger pattern is further from zero. */
  lemma UnitsAscend(x: F64, y: F64)
    requires Magnitude(x) < Magnitude(y)
    ensures Units(x) < Units(y)
  {
    hide Pow2;
    Fields(x);
    Fields(y);
    if Exponent(x) == Exponent(y) {
      if Exponent(x) > 0 { RowOrder.MulLess(TWO52 + Fraction(x), TWO52 + Fraction(y), Pow2(Exponent(x) - 1)); }
    } else {
      UnitsBelow(x);
      UnitsBelow(y);
      Pow2Mono(Exponent(x), Exponent(y) - 1);
      MulAscends(Pow2(Exponent(x)), Pow2(Exponent(y) - 1), TWO52);
    }
  }

  lemma UnitsSame(x: F64, y: F64)
    ensures Units(x) < Units(y) <==> Magnitude(x) < Magnitude(y)
    ensures Units(x) == Units(y) <==> Magnitude(x) == Magnitude(y)
  {
    hide Units;
    if Magnitude(x) < Magnitude(y) { UnitsAscend(x, y); }
    else if Magnitude(y) < Magnitude(x) { UnitsAscend(y, x); }
    else { SameFields(x, y); }
  }

  lemma SameFields(x: F64, y: F64)
    requires Magnitude(x) == Magnitude(y)
    ensures Units(x) == Units(y)
  {
    hide Pow2;
    Fields(x);
    Fields(y);
    FieldsUnique(Exponent(x), Fraction(x), Exponent(y), Fraction(y));
  }

  lemma FieldsUnique(e: nat, f: nat, g: nat, h: nat)
    requires f < TWO52 && h < TWO52 && e * TWO52 + f == g * TWO52 + h
    ensures e == g && f == h
  {
  }

  lemma Scaling(a: int, b: int, n: nat)
    requires n > 0
    ensures a as real / n as real < b as real / n as real <==> a < b
    ensures a as real / n as real == b as real / n as real <==> a == b
  {
    var x, y := a as real / n as real, b as real / n as real;
    assert x * n as real == a as real && y * n as real == b as real;
    if x < y { RealTimes(x, y, n as real); } else if y < x { RealTimes(y, x, n as real); }
  }

  lemma RealTimes(x: real, y: real, n: real)
    requires n > 0.0 && x < y
    ensures x * n < y * n
  {
    assert (y - x) * n > 0.0;
  }

  /** The number in units, with its sign. */
  function Signed(x: F64): int {
    if Negative(x) then -(Units(x) as int) else Units(x)
  }

  lemma RealsCompare(x: F64, y: F64)
    ensures RealOf(x) < RealOf(y) <==> Signed(x) < Signed(y)
    ensures RealOf(x) == RealOf(y) <==> Signed(x) == Signed(y)
  {
    hide Units, Pow2, Negative;
    Scaling(Signed(x), Signed(y), One());
  }

  lemma FiniteBefore(x: F64, y: F64)
    requires ClassOf(x) == ClassOf(y) == Finite
    ensures TotalKey(x) < TotalKey(y) <==> NumberBefore(x, y)
  {
    hide Units, RealOf, TotalKey, Magnitude, Negative, Exponent, Fraction;
    Fields(x);
    Fields(y);
    UnitsSame(x, y);
    UnitsSame(y, x);
    RealsCompare(x, y);
    if Negative(x) && !Negative(y) { ZeroUnits(x, y); }
  }

  /** Only zero is as far from zero on either side. */
  lemma ZeroUnits(x: F64, y: F64)
    ensures Signed(x) <= Signed(y) || !Negative(x) || Negative(y)
  {
    hide Units;
  }

  lemma ClassesApart(x: F64, y: F64)
    requires ClassOf(x) != Finite || ClassOf(y) != Finite
    ensures TotalKey(x) < TotalKey(y) <==> NumberBefore(x, y)
  {
    hide RealOf, TotalKey, Magnitude, Negative, Exponent, Fraction;
    Fields(x);
    Fields(y);
  }

  /** The comparator puts one double before another exactly when it stands before it. */
  lemma NumbersByValue(x: F64, y: F64)
    ensures CmpRowKey(Num(x), Num(y)) == Less <==> NumberBefore(x, y)
  {
    hide NumberBefore, ClassOf, TotalKey;
    if ClassOf(x) == Finite && ClassOf(y) == Finite { FiniteBefore(x, y); } else { ClassesApart(x, y); }
  }

  // ---------- a rank as a double ----------

  /** A rank's double stands for the rank. */
  lemma CastExact(n: nat)
    requires n < 0x1_0000_0000
    ensures ClassOf(F64OfU32(n)) == Finite && RealOf(F64OfU32(n)) == n as real
  {
    hide Pow2, Log2;
    if n == 0 {
      assert 0 as real / One() as real == 0.0;
    } else {
      FractionFits(n);
      var e, x := Log2(n), F64OfU32(n);
      var f := (n - Pow2(e)) * Pow2(52 - e);
      FieldsOf(x, 1023 + e, f);
      Log2Bounds(n);
      UnitsOfRank(n, e);
      assert Units(x) == n * One();
      Quotient(n, One());
    }
  }

  lemma FieldsOf(x: F64, e: nat, f: nat)
    requires x == e * TWO52 + f && f < TWO52 && e < 0x7FF
    ensures !Negative(x) && Exponent(x) == e && Fraction(x) == f
  {
  }

  lemma UnitsOfRank(n: nat, e: nat)
    requires e <= 31 && Pow2(e) <= n
    ensures (TWO52 + (n - Pow2(e)) * Pow2(52 - e)) * Pow2(1022 + e) == n * One()
  {
    hide Pow2;
    Pow2Add(e, 52 - e);
    Pow2At52();
    var p, q := Pow2(e), Pow2(52 - e);
    assert TWO52 + (n - p) * q == n * q by { assert p * q + (n - p) * q == n * q; }
    Pow2Add(52 - e, 1022 + e);
    Regroup(n, q, Pow2(1022 + e));
  }

  lemma Quotient(n: nat, m: nat)
    requires m > 0
    ensures (n * m) as real / m as real == n as real
  {
    assert (n * m) as real == n as real * m as real;
  }

  // ---------- texts ----------

  /** The first `k` bytes are the same. */
  predicate SameUpTo(a: seq<byte>, b: seq<byte>, k: nat) {
    k <= |a| && k <= |b| && forall i :: 0 <= i < k ==> a[i] == b[i]
  }

  /** At the first difference, one ends or has the smaller byte. */
  ghost predicate BytesBefore(a: seq<byte>, b: seq<byte>) {
    exists k: nat :: SameUpTo(a, b, k) && k < |b| && (k == |a| || (k < |a| && a[k] < b[k]))
  }

  lemma {:induction false} LexIsBefore(a: seq<byte>, b: seq<byte>)
    ensures LexLe(a, b) <==> a == b || BytesBefore(a, b)
    decreases |a|
  {
    if a == [] {
      if b != [] { assert SameUpTo(a, b, 0); }
    } else if b == [] {
    } else if a[0] != b[0] {
      if a[0] < b[0] { assert SameUpTo(a, b, 0); }
      if BytesBefore(a, b) {
        var k: nat :| SameUpTo(a, b, k) && k < |b| && (k == |a| || (k < |a| && a[k] < b[k]));
        assert k == 0;
      }
    } else {
      LexIsBefore(a[1..], b[1..]);
      OneByteMore(a, b);
      assert a == [a[0]] + a[1..] && b == [b[0]] + b[1..];
    }
  }

  lemma OneByteMore(a: seq<byte>, b: seq<byte>)
    requires a != [] && b != [] && a[0] == b[0]
    ensures BytesBefore(a, b) <==> BytesBefore(a[1..], b[1..])
  {
    var p, q := a[1..], b[1..];
    if BytesBefore(a, b) {
      var k: nat :| SameUpTo(a, b, k) && k < |b| && (k == |a| || (k < |a| && a[k] < b[k]));
      assert k > 0;
      assert SameUpTo(p, q, k - 1);
    }
    if BytesBefore(p, q) {
      var k: nat :| SameUpTo(p, q, k) && k < |q| && (k == |p| || (k < |p| && p[k] < q[k]));
      forall i | 0 <= i < k + 1 ensures a[i] == b[i] { if i > 0 { assert p[i - 1] == q[i - 1]; } }
      assert SameUpTo(a, b, k + 1);
    }
  }

  // ---------- keys and candidates ----------

  /** Numbers before texts before nulls. */
  ghost predicate KeyBefore(a: RowKey, b: RowKey) {
    match (a, b)
    case (Null, _) => false
    case (_, Null) => true
    case (Num(x), Num(y)) => NumberBefore(x, y)
    case (Num(_), Bytes(_)) => true
    case (Bytes(_), Num(_)) => false
    case (Bytes(x), Bytes(y)) => BytesBefore(x, y)
  }

  /** The comparator puts one key before another exactly when it stands before it, and knows the same key. */
  lemma KeysByMeaning(a: RowKey, b: RowKey)
    ensures CmpRowKey(a, b) == Less <==> KeyBefore(a, b)
    ensures CmpRowKey(a, b) == Equal <==> a == b
  {
    hide NumberBefore, BytesBefore, TotalKey, LexLe;
    RowKeyLaws(a, b, a);
    match (a, b)
    case (Num(x), Num(y)) => NumbersByValue(x, y);
    case (Bytes(x), Bytes(y)) =>
      LexIsBefore(x, y);
      BytesBeforeStrict(x);
    case _ =>
  }

  lemma BytesBeforeStrict(a: seq<byte>)
    ensures !BytesBefore(a, a)
  {
  }

  /** Candidates stand by the first key, then by the second, then by the row. */
  ghost predicate StandsBefore(a: Candidate, b: Candidate) {
    || KeyBefore(a.k1, b.k1)
    || (a.k1 == b.k1 && a.k2.Some? && b.k2.Some? && KeyBefore(a.k2.value, b.k2.value))
    || (a.k1 == b.k1 && a.k2.None? && b.k2.Some?)
    || (a.k1 == b.k1 && a.k2 == b.k2 && a.rowId < b.rowId)
  }

  lemma CandidatesByMeaning(a: Candidate, b: Candidate)
    ensures CmpCandidate(a, b) == Less <==> StandsBefore(a, b)
  {
    hide CmpRowKey, KeyBefore;
    KeysByMeaning(a.k1, b.k1);
    if a.k2.Some? && b.k2.Some? { KeysByMeaning(a.k2.value, b.k2.value); }
  }

  /** Sorted rows stand one before the other, and the page of them does too. */
  lemma PageAscends(all: multiset<Candidate>, offset: nat, limit: nat)
    ensures
      var page := Page(SortedRows(all), offset, limit);
      forall i, j :: 0 <= i < j < |page| ==> page[i] == page[j] || StandsBefore(page[i], page[j])
  {
    hide CandidateLe, StandsBefore, SortedSeq;
    CandidateTotalOrder();
    var rows, page := SortedRows(all), Page(SortedRows(all), offset, limit);
    forall i, j | 0 <= i < j < |page| ensures page[i] == page[j] || StandsBefore(page[i], page[j]) {
      var from := Min(offset, |rows|);
      assert page[i] == rows[from + i] && page[j] == rows[from + j];
      assert CandidateLe(page[i], page[j]);
      if page[i] != page[j] {
        assert !CandidateLe(page[j], page[i]);
        CmpIsLe(page[i], page[j]);
        CandidatesByMeaning(page[i], page[j]);
      }
    }
  }

  lemma OneIs()
    ensures TWO52 * Pow2(1022) == One()
  {
    hide Pow2;
    Pow2At52();
    Pow2Add(52, 1022);
  }

  lemma Ratio(n: nat)
    requires n > 0
    ensures n as real / n as real == 1.0 && -(n as real) / n as real == -1.0
  {
  }

  lemma FieldsOfOne(x: F64)
    requires x == 0x3FF0_0000_0000_0000 || x == 0xBFF0_0000_0000_0000
    ensures Exponent(x) == 1023 && Fraction(x) == 0 && (Negative(x) <==> x == 0xBFF0_0000_0000_0000)
  {
  }

  lemma OnesAre(x: F64)
    requires x == 0x3FF0_0000_0000_0000 || x == 0xBFF0_0000_0000_0000
    ensures ClassOf(x) == Finite && RealOf(x) == if x == 0xBFF0_0000_0000_0000 then -1.0 else 1.0
  {
    hide Pow2, One, Negative, Exponent, Fraction;
    FieldsOfOne(x);
    OneIs();
    OnePositive();
    Ratio(One());
  }

  lemma OnePositive()
    ensures One() > 0
  {
  }

  /** The row with key -1 stands before the row with key 1. */
  lemma MinusOneFirst()
    ensures CmpRowKey(Num(0xBFF0_0000_0000_0000), Num(0x3FF0_0000_0000_0000)) == Less
  {
    hide RealOf, ClassOf, CmpRowKey;
    OnesAre(0x3FF0_0000_0000_0000);
    OnesAre(0xBFF0_0000_0000_0000);
    NumbersByValue(0xBFF0_0000_0000_0000, 0x3FF0_0000_0000_0000);
  }
}

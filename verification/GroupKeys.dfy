/** The bytes a row is grouped by. */
module GroupKeys {
  import opened LittleEndian
  import opened Words

  type Bytes = seq<byte>

  // ---------- cells ----------

  datatype Double = NaN | NegInf | PosInf | Finite(r: real)

  /** What a key column holds in a row: a dictionary string, or a number, by the width it is decoded to. */
  datatype KeyValue =
    | Text(bytes: Bytes)
    | Unsigned(n: nat)   // 8, 16 or 32 bits
    | Signed(i: int)     // 8, 16 or 32 bits
    | Wide(w: int)       // 64 bits, signed
    | Real(d: Double)
    | Flag(b: bool)

  predicate InRange(v: KeyValue) {
    match v
    case Text(b) => |b| <= MAX32
    case Unsigned(n) => n <= MAX32
    case Signed(i) => -0x8000_0000 <= i < 0x8000_0000
    case Wide(w) => -0x8000_0000_0000_0000 <= w < 0x8000_0000_0000_0000
    case _ => true
  }

  /** Values of one column. */
  predicate SameKind(a: KeyValue, b: KeyValue) {
    match a
    case Text(_) => b.Text?
    case Unsigned(_) => b.Unsigned?
    case Signed(_) => b.Signed?
    case Wide(_) => b.Wide?
    case Real(_) => b.Real?
    case Flag(_) => b.Flag?
  }

  /** A double cast to an unsigned word: cut to a whole number, and to the range. */
  function Truncated(d: Double): nat {
    match d
    case NaN => 0
    case NegInf => 0
    case PosInf => MAX64
    case Finite(r) => if r < 0.0 then 0 else if r.Floor > MAX64 then MAX64 else r.Floor
  }

  /** The whole number a double is cut to: what is below 1 or no number to 0, what is too large to the largest word. */
  predicate IsCut(d: Double, n: nat) {
    match d
    case NaN => n == 0
    case NegInf => n == 0
    case PosInf => n == 0xFFFF_FFFF_FFFF_FFFF
    case Finite(r) =>
      if r < 1.0 then n == 0
      else if r >= 0x1_0000_0000_0000_0000 as real then n == 0xFFFF_FFFF_FFFF_FFFF
      else n as real <= r < n as real + 1.0
  }

  lemma CutIs(d: Double, n: nat)
    ensures Truncated(d) == n <==> IsCut(d, n)
  {
  }

  /** The word of a value that is not a string: negative numbers are cast by their bits, to 32 or 64 of them. */
  function WordOf(v: KeyValue): nat
    requires !v.Text? && InRange(v)
  {
    match v
    case Unsigned(n) => n
    case Signed(i) => if i < 0 then i + 0x1_0000_0000 else i
    case Wide(w) => if w < 0 then w + TWO64 else w
    case Real(d) => Truncated(d)
    case Flag(b) => if b then 1 else 0
  }

  /** Integers and flags are their numbers, negative ones modulo 2^32 or 2^64 by their width. */
  lemma WordIs(v: KeyValue)
    requires InRange(v)
    ensures v.Unsigned? ==> WordOf(v) == v.n
    ensures v.Signed? ==> WordOf(v) < 0x1_0000_0000 && (WordOf(v) - v.i) % 0x1_0000_0000 == 0
    ensures v.Wide? ==>
      WordOf(v) < 0x1_0000_0000_0000_0000 && (WordOf(v) - v.w) % 0x1_0000_0000_0000_0000 == 0
    ensures v.Real? ==> IsCut(v.d, WordOf(v))
    ensures v.Flag? ==> WordOf(v) == if v.b then 1 else 0
  {
    if v.Real? { CutIs(v.d, WordOf(v)); }
  }

  /** The bytes of a string, or the eight bytes of a word. */
  function Payload(v: KeyValue): Bytes
    requires InRange(v)
  {
    if v.Text? then v.bytes else ToLe(WordOf(v), 8)
  }

  /** Values that grouping does not tell apart: equal ones, and doubles that are cut to the same word. */
  ghost predicate SameKey(a: KeyValue, b: KeyValue) {
    if a.Real? && b.Real? then exists n :: IsCut(a.d, n) && IsCut(b.d, n) else a == b
  }

  lemma PayloadTells(a: KeyValue, b: KeyValue)
    requires SameKind(a, b) && InRange(a) && InRange(b)
    ensures Payload(a) == Payload(b) <==> SameKey(a, b)
  {
    if a.Real? {
      CutIs(a.d, Truncated(a.d));
      CutIs(b.d, Truncated(a.d));
      forall n ensures IsCut(a.d, n) <==> n == Truncated(a.d) { CutIs(a.d, n); }
    }
    if !a.Text? {
      Widths();
      LeRoundTrip(WordOf(a), 8);
      LeRoundTrip(WordOf(b), 8);
    }
  }

  // ---------- key bytes ----------

  /** One key column of a row: its types and the bytes of its value (a string, or eight bytes of a number). */
  datatype KeyCell = KeyCell(logical: byte, physical: byte, payload: Bytes)

  function ReprFrom(cells: seq<KeyCell>, idx: nat): Bytes
    decreases |cells|
  {
    if cells == [] then []
    else
      [idx % 256, cells[0].logical, cells[0].physical] + ToLe(|cells[0].payload|, 4) + cells[0].payload
      + ReprFrom(cells[1..], idx + 1)
  }

  lemma ReprStep(cells: seq<KeyCell>, i: nat)
    requires i < |cells|
    ensures ReprFrom(cells[i..], i) ==
      [i % 256, cells[i].logical, cells[i].physical] + ToLe(|cells[i].payload|, 4) + cells[i].payload
      + ReprFrom(cells[i + 1..], i + 1)
  {
    hide ToLe;
    assert cells[i..][1..] == cells[i + 1..];
  }

  lemma NothingLeft(cells: seq<KeyCell>, repr: Bytes)
    ensures repr + ReprFrom(cells[|cells|..], |cells|) == repr
  {
    assert cells[|cells|..] == [];
  }

  /** Payload lengths that a 32-bit length field can say. */
  ghost predicate LengthsFit(cells: seq<KeyCell>) {
    forall i :: 0 <= i < |cells| ==> |cells[i].payload| < Pow256(4)
  }

  lemma CellAhead(a: KeyCell, b: KeyCell, more: Bytes, rest: Bytes, idx: nat)
    requires |a.payload| < Pow256(4) && |b.payload| < Pow256(4)
    requires [idx % 256, a.logical, a.physical] + ToLe(|a.payload|, 4) + a.payload + more
      == [idx % 256, b.logical, b.physical] + ToLe(|b.payload|, 4) + b.payload + rest
    ensures a == b && more == rest
  {
    var x := [idx % 256, a.logical, a.physical] + ToLe(|a.payload|, 4) + a.payload + more;
    var y := [idx % 256, b.logical, b.physical] + ToLe(|b.payload|, 4) + b.payload + rest;
    assert x[1] == a.logical && x[2] == a.physical && y[1] == b.logical && y[2] == b.physical;
    assert x[3..7] == ToLe(|a.payload|, 4) && y[3..7] == ToLe(|b.payload|, 4);
    LeRoundTrip(|a.payload|, 4);
    LeRoundTrip(|b.payload|, 4);
    assert x[7..7 + |a.payload|] == a.payload && y[7..7 + |b.payload|] == b.payload;
    assert x[7 + |a.payload|..] == more && y[7 + |b.payload|..] == rest;
  }

  /** Equal key bytes mean equal key columns, as long as no string is too long for its length field. */
  lemma {:induction false} ReprTellsCells(a: seq<KeyCell>, b: seq<KeyCell>, idx: nat)
    requires LengthsFit(a) && LengthsFit(b) && |a| == |b|
    ensures ReprFrom(a, idx) == ReprFrom(b, idx) <==> a == b
    decreases |a|
  {
    if a != [] && ReprFrom(a, idx) == ReprFrom(b, idx) {
      CellAhead(a[0], b[0], ReprFrom(a[1..], idx + 1), ReprFrom(b[1..], idx + 1), idx);
      forall i | 0 <= i < |a| - 1 ensures |a[1..][i].payload| < Pow256(4) && |b[1..][i].payload| < Pow256(4) {
        assert a[1..][i] == a[i + 1] && b[1..][i] == b[i + 1];
      }
      ReprTellsCells(a[1..], b[1..], idx + 1);
      assert a == [a[0]] + a[1..] && b == [b[0]] + b[1..];
    }
  }

  // ---------- rows ----------

  /** Logical and physical type of a key column. */
  datatype KeyColumn = KeyColumn(logical: byte, physical: byte)

  ghost predicate IsKey(cols: seq<KeyColumn>, values: seq<KeyValue>) {
    |values| == |cols| && forall i :: 0 <= i < |values| ==> InRange(values[i])
  }

  function Cells(cols: seq<KeyColumn>, values: seq<KeyValue>): (cells: seq<KeyCell>)
    requires IsKey(cols, values)
    ensures |cells| == |cols|
  {
    seq(|cols|, i requires 0 <= i < |cols| => KeyCell(cols[i].logical, cols[i].physical, Payload(values[i])))
  }

  /** The key bytes of a row. */
  function Repr(cols: seq<KeyColumn>, values: seq<KeyValue>): Bytes
    requires IsKey(cols, values)
  {
    ReprFrom(Cells(cols, values), 0)
  }

  /** The loop over the key columns of a row. */
  method BuildRepr(cols: seq<KeyColumn>, values: seq<KeyValue>) returns (repr: Bytes)
    requires IsKey(cols, values)
    ensures repr == Repr(cols, values)
  {
    hide ToLe, ReprFrom, Payload;
    repr := [];
    ghost var cells := Cells(cols, values);
    assert cells[0..] == cells;
    assert repr + ReprFrom(cells[0..], 0) == ReprFrom(cells, 0);
    for i := 0 to |cols|
      invariant repr + ReprFrom(cells[i..], i) == ReprFrom(cells, 0)
    {
      ReprStep(cells, i);
      var payload := Payload(values[i]);
      var head, len := [i % 256, cols[i].logical, cols[i].physical], ToLe(|payload|, 4);
      repr := repr + head;
      repr := repr + len;
      repr := repr + payload;
    }
    NothingLeft(cells, repr);
  }

  /** Two rows have the same key bytes exactly when each key column holds the same value, doubles being cut to words. */
  lemma ReprTellsRows(cols: seq<KeyColumn>, a: seq<KeyValue>, b: seq<KeyValue>)
    requires IsKey(cols, a) && IsKey(cols, b) && forall i :: 0 <= i < |cols| ==> SameKind(a[i], b[i])
    ensures Repr(cols, a) == Repr(cols, b) <==> forall i :: 0 <= i < |cols| ==> SameKey(a[i], b[i])
  {
    hide ReprFrom, SameKey, SameKind, InRange, Payload;
    var x, y := Cells(cols, a), Cells(cols, b);
    forall i | 0 <= i < |cols|
      ensures |x[i].payload| < Pow256(4) && |y[i].payload| < Pow256(4) && (x[i] == y[i] <==> SameKey(a[i], b[i]))
    {
      PayloadFits(a[i]);
      PayloadFits(b[i]);
      PayloadTells(a[i], b[i]);
    }
    ReprTellsCells(x, y, 0);
  }

  lemma PayloadFits(v: KeyValue)
    requires InRange(v)
    ensures |Payload(v)| < Pow256(4)
  {
    hide ToLe;
    Widths();
  }

  /** So key bytes tell rows apart exactly as their values do, as long as no key column holds doubles. */
  lemma ReprTellsValues(cols: seq<KeyColumn>, a: seq<KeyValue>, b: seq<KeyValue>)
    requires IsKey(cols, a) && IsKey(cols, b) && forall i :: 0 <= i < |cols| ==> SameKind(a[i], b[i])
    requires forall i :: 0 <= i < |cols| ==> !a[i].Real?
    ensures Repr(cols, a) == Repr(cols, b) <==> a == b
  {
    hide Repr, SameKind, InRange;
    ReprTellsRows(cols, a, b);
  }

  /** 1.2 and 1.7 beside the same string fall into one group. */
  lemma DoublesMerge(cols: seq<KeyColumn>, name: Bytes)
    requires |cols| == 2 && |name| <= MAX32
    ensures
      var a, b := [Text(name), Real(Finite(1.2))], [Text(name), Real(Finite(1.7))];
      IsKey(cols, a) && IsKey(cols, b) && a != b && Repr(cols, a) == Repr(cols, b)
  {
    hide Repr;
    var a, b := [Text(name), Real(Finite(1.2))], [Text(name), Real(Finite(1.7))];
    assert IsCut(Finite(1.2), 1) && IsCut(Finite(1.7), 1);
    ReprTellsRows(cols, a, b);
  }
}

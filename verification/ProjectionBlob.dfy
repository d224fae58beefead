/**
 The projection blob, in which a worker sends the columns of the rows asked for: counts, a descriptor for
 each column with the place of its section, and the sections.
 */
module ProjectionBlob {
  import opened FileRecords
  import opened LittleEndian
  import opened Sections
  import opened Wrappers

  /** The letters WCOLpjv1. */
  const PROJ_MAGIC: Bytes := [87, 67, 79, 76, 112, 106, 118, 49]

  const KIND_F64: byte := 0
  const KIND_DICT_ID: byte := 1
  const KIND_BOOL: byte := 2

  /** Bytes of one value. */
  function CellWidth(kind: byte): nat {
    if kind == KIND_F64 then 8 else if kind == KIND_DICT_ID then 4 else 1
  }

  datatype ProjColumn = ProjColumn(id: u32, kind: byte, values: seq<nat>, nulls: Bytes)

  /** One value and one flag for every row, the values within their width. */
  ghost predicate Fits(c: ProjColumn, rowCount: nat) {
    && c.kind <= KIND_BOOL && |c.values| == rowCount && |c.nulls| == rowCount
    && forall i :: 0 <= i < rowCount ==> c.values[i] < Pow256(CellWidth(c.kind))
  }

  function ValueFields(c: ProjColumn): (fields: seq<Field>)
    ensures |fields| == |c.values|
  {
    seq(|c.values|, i requires 0 <= i < |c.values| => Field(CellWidth(c.kind), c.values[i]))
  }

  function SectionBytes(c: ProjColumn): Bytes {
    Pack(ValueFields(c)) + c.nulls
  }

  function SectionParts(cols: seq<ProjColumn>): (parts: seq<Bytes>)
    ensures |parts| == |cols|
  {
    seq(|cols|, i requires 0 <= i < |cols| => SectionBytes(cols[i]))
  }

  function HeaderSize(colCount: nat): nat {
    16 + colCount * 16
  }

  /** A column's descriptor; the three bytes after its kind are whatever the buffer held. */
  function DescFields(cols: seq<ProjColumn>, pad: nat -> nat, k: nat): (fields: seq<Field>)
    requires k < |cols|
    ensures |fields| == 5
  {
    [Field(4, cols[k].id), Field(1, cols[k].kind), Field(3, pad(k)),
     Field(4, HeaderSize(|cols|) + Start(SectionParts(cols), k)), Field(4, |SectionBytes(cols[k])|)]
  }

  function DescParts(cols: seq<ProjColumn>, pad: nat -> nat): (parts: seq<Bytes>)
    ensures |parts| == |cols|
  {
    seq(|cols|, k requires 0 <= k < |cols| => Pack(DescFields(cols, pad, k)))
  }

  function Counts(rowCount: nat, colCount: nat): Bytes {
    ToLe(rowCount, 4) + ToLe(colCount, 4)
  }

  /** Nothing at all when no column is selected. */
  function Blob(rowCount: nat, cols: seq<ProjColumn>, pad: nat -> nat): Bytes {
    if cols == [] then []
    else PROJ_MAGIC + Counts(rowCount, |cols|) + Concat(DescParts(cols, pad)) + Concat(SectionParts(cols))
  }

  /** The three bytes that the buffer holds after each column's kind, as numbers. */
  function Pads(b: Bytes): nat -> nat {
    (k: nat) => if 24 + 16 * k <= |b| then FromLe(b[21 + 16 * k..24 + 16 * k]) else 0
  }

  /**
   Fills the start of the caller's buffer: magic and counts, then column by column the descriptor at a moving cursor and
   the section at a moving data cursor. A buffer that is too short, or no column, leaves everything alone.
   */
  method CopyRowProjection(rowCount: nat, cols: seq<ProjColumn>, out: array<byte>) returns (written: nat)
    modifies out
    ensures
      var blob := Blob(rowCount, cols, Pads(old(out[..])));
      if cols == [] || out.Length < |blob| then written == 0 && out[..] == old(out[..])
      else written == |blob| && out[..] == blob + old(out[|blob|..])
  {
    hide Blob, Concat, Start, Pack, SectionBytes, SectionParts, Pads, ToLe, Counts;
    if cols == [] { return 0; }
    ghost var start, pad := out[..], Pads(out[..]);
    ghost var blob := Blob(rowCount, cols, pad);
    var sections := DataLength(cols);
    var total := HeaderSize(|cols|) + sections;
    BlobLength(rowCount, cols, pad);
    if out.Length < total { return 0; }
    BlobHead(rowCount, cols, pad);
    Put(out, 0, PROJ_MAGIC + Counts(rowCount, |cols|));
    var dataCursor := HeaderSize(|cols|);
    StartEnds(SectionParts(cols));
    for k := 0 to |cols|
      invariant dataCursor == HeaderSize(|cols|) + Start(SectionParts(cols), k) <= total
      invariant forall j :: 0 <= j < out.Length ==>
        out[j] == if j < 16 + 16 * k || HeaderSize(|cols|) <= j < dataCursor then blob[j] else start[j]
    {
      StartStep(SectionParts(cols), k);
      PartIs(cols, k);
      BlobParts(rowCount, cols, start, k);
      var section := SectionBytes(cols[k]);
      PutColumn(out, cols[k], 16 + 16 * k, dataCursor, section, start, blob);
      dataCursor := dataCursor + |section|;
    }
    return total;
  }

  /** The descriptor of a column but for its padding, and its section. */
  method PutColumn(out: array<byte>, c: ProjColumn, at: nat, off: nat, section: Bytes, ghost start: Bytes,
        ghost blob: Bytes)
    requires at + 16 <= off && off + |section| <= |blob| <= out.Length == |start|
    requires blob[at..at + 5] == ToLe(c.id, 4) + ToLe(c.kind, 1) && blob[at + 5..at + 8] == start[at + 5..at + 8]
    requires blob[at + 8..at + 16] == ToLe(off, 4) + ToLe(|section|, 4) && blob[off..off + |section|] == section
    requires forall j :: at <= j < at + 16 ==> out[j] == start[j]
    modifies out
    ensures forall j :: 0 <= j < out.Length ==>
      out[j] == if at <= j < at + 16 || off <= j < off + |section| then blob[j] else old(out[j])
  {
    hide ToLe;
    Put(out, at, ToLe(c.id, 4) + ToLe(c.kind, 1));
    Put(out, at + 8, ToLe(off, 4) + ToLe(|section|, 4));
    Put(out, off, section);
    forall j | at <= j < at + 16 ensures out[j] == blob[j] {
      if j < at + 5 {
        assert blob[at..at + 5][j - at] == blob[j];
      } else if j < at + 8 {
        assert blob[at + 5..at + 8][j - at - 5] == blob[j] && start[at + 5..at + 8][j - at - 5] == start[j];
      } else {
        assert blob[at + 8..at + 16][j - at - 8] == blob[j];
      }
    }
    forall j | off <= j < off + |section| ensures out[j] == blob[j] {
      assert blob[off..off + |section|][j - off] == blob[j];
    }
  }

  /** Writes bytes at an offset. */
  method Put(out: array<byte>, off: nat, data: Bytes)
    requires off + |data| <= out.Length
    modifies out
    ensures forall j :: 0 <= j < out.Length ==> out[j] == if off <= j < off + |data| then data[j - off] else old(out[j])
  {
    ghost var before := out[..];
    WriteBytes(out, off, data);
    forall j | 0 <= j < out.Length ensures out[j] == if off <= j < off + |data| then data[j - off] else before[j] {
      assert out[j] == out[..][j];
    }
  }

  method DataLength(cols: seq<ProjColumn>) returns (n: nat)
    ensures n == |Concat(SectionParts(cols))|
  {
    hide Concat, Start, SectionBytes;
    StartEnds(SectionParts(cols));
    n := 0;
    for k := 0 to |cols|
      invariant n == Start(SectionParts(cols), k)
    {
      StartStep(SectionParts(cols), k);
      n := n + |SectionBytes(cols[k])|;
    }
  }

  lemma BlobLength(rowCount: nat, cols: seq<ProjColumn>, pad: nat -> nat)
    requires cols != []
    ensures |Blob(rowCount, cols, pad)| == HeaderSize(|cols|) + |Concat(SectionParts(cols))|
  {
    hide Concat, Start, SectionParts, DescParts, Counts;
    HeadLength(rowCount, |cols|);
    StartEnds(DescParts(cols, pad));
    DescStart(cols, pad, |cols|);
  }

  lemma BlobHead(rowCount: nat, cols: seq<ProjColumn>, pad: nat -> nat)
    requires cols != []
    ensures |PROJ_MAGIC + Counts(rowCount, |cols|)| == 16 <= |Blob(rowCount, cols, pad)|
    ensures Blob(rowCount, cols, pad)[..16] == PROJ_MAGIC + Counts(rowCount, |cols|)
  {
    hide Concat, SectionParts, DescParts, Counts;
    HeadLength(rowCount, |cols|);
    var head := PROJ_MAGIC + Counts(rowCount, |cols|);
    var descs, sections := Concat(DescParts(cols, pad)), Concat(SectionParts(cols));
    assert Blob(rowCount, cols, pad) == head + (descs + sections) by { Assoc(head, descs, sections); }
  }

  /** Where the parts of a column stand in the blob, whose padding is what the buffer held. */
  lemma BlobParts(rowCount: nat, cols: seq<ProjColumn>, b: Bytes, k: nat)
    requires k < |cols| && |Blob(rowCount, cols, Pads(b))| <= |b|
    ensures
      var blob, at := Blob(rowCount, cols, Pads(b)), 16 + 16 * k;
      var off, section := HeaderSize(|cols|) + Start(SectionParts(cols), k), SectionBytes(cols[k]);
      && at + 16 <= HeaderSize(|cols|) && off + |section| <= |blob| == HeaderSize(|cols|) + |Concat(SectionParts(cols))|
      && blob[at..at + 5] == ToLe(cols[k].id, 4) + ToLe(cols[k].kind, 1)
      && blob[at + 5..at + 8] == b[at + 5..at + 8]
      && blob[at + 8..at + 16] == ToLe(off, 4) + ToLe(|section|, 4)
      && blob[off..off + |section|] == section
  {
    hide Concat, Start, Pack, SectionBytes, DescParts, SectionParts, Counts, ToLe, DescFields, Pads;
    var pad := Pads(b);
    var blob, at := Blob(rowCount, cols, pad), 16 + 16 * k;
    var head, descs, sections := PROJ_MAGIC + Counts(rowCount, |cols|), Concat(DescParts(cols, pad)),
      Concat(SectionParts(cols));
    HeadLength(rowCount, |cols|);
    BlobLength(rowCount, cols, pad);
    DescStart(cols, pad, k);
    DescStart(cols, pad, |cols|);
    StartEnds(DescParts(cols, pad));
    DescOffsets(cols, pad, k);
    DescIs(cols, pad, k);
    PartWithin(head, DescParts(cols, pad), sections, k);
    PartWithin(head + descs, SectionParts(cols), [], k);
    PartIs(cols, k);
    DescPartIs(cols, pad, k);
    assert (head + descs) + sections + [] == blob;
    var desc := Pack(DescFields(cols, pad, k));
    assert blob[at..at + 16] == desc;
    Piece(blob, at, desc, 0, 5);
    Piece(blob, at, desc, 5, 8);
    Piece(blob, at, desc, 8, 16);
    PadIs(b, k);
  }

  lemma DescPartIs(cols: seq<ProjColumn>, pad: nat -> nat, k: nat)
    requires k < |cols|
    ensures DescParts(cols, pad)[k] == Pack(DescFields(cols, pad, k))
  {
  }

  lemma Piece(blob: Bytes, at: nat, desc: Bytes, lo: nat, hi: nat)
    requires lo <= hi <= |desc| && at + |desc| <= |blob| && blob[at..at + |desc|] == desc
    ensures blob[at + lo..at + hi] == desc[lo..hi]
  {
    forall i | 0 <= i < hi - lo ensures blob[at + lo..at + hi][i] == desc[lo..hi][i] {
      assert blob[at..at + |desc|][lo + i] == blob[at + lo + i];
    }
  }

  lemma PadIs(b: Bytes, k: nat)
    requires 24 + 16 * k <= |b|
    ensures ToLe(Pads(b)(k), 3) == b[21 + 16 * k..24 + 16 * k]
  {
    hide ToLe, FromLe;
    LeBytesRoundTrip(b[21 + 16 * k..24 + 16 * k]);
  }

  /** The bytes of a descriptor. */
  lemma DescIs(cols: seq<ProjColumn>, pad: nat -> nat, k: nat)
    requires k < |cols|
    ensures
      var desc := Pack(DescFields(cols, pad, k));
      && |desc| == 16 && desc[0..5] == ToLe(cols[k].id, 4) + ToLe(cols[k].kind, 1) && desc[5..8] == ToLe(pad(k), 3)
      && desc[8..16] == ToLe(HeaderSize(|cols|) + Start(SectionParts(cols), k), 4) + ToLe(|SectionBytes(cols[k])|, 4)
  {
    hide Concat, Start, SectionBytes, ToLe, SectionParts;
    var parts := Encoded(DescFields(cols, pad, k));
    DescOffsets(cols, pad, k);
    PartAt(parts, 0);
    PartAt(parts, 1);
    PartAt(parts, 2);
    PartAt(parts, 3);
    PartAt(parts, 4);
    var desc := Concat(parts);
    assert desc[0..4] + desc[4..5] == desc[0..5] && desc[8..12] + desc[12..16] == desc[8..16];
  }

  // ---------- reading ----------

  /** The part of `b` from `lo` to `hi`, as far as there is one. */
  function Clamped(b: Bytes, lo: nat, hi: nat): Bytes {
    var from := if lo <= |b| then lo else |b|;
    var to := if hi <= |b| then hi else |b|;
    if from <= to then b[from..to] else []
  }

  /** A column from its section; a view of numbers on too few bytes throws, which is `None`. */
  function ColumnOf(id: u32, kind: byte, section: Bytes, rowCount: nat): Option<ProjColumn> {
    var width := CellWidth(kind);
    var nulls := Clamped(section, rowCount * width, rowCount * width + rowCount);
    if kind == KIND_F64 || kind == KIND_DICT_ID then
      if rowCount * width > |section| then None
      else
        var values := seq(rowCount, i requires 0 <= i < rowCount => ValueAt(section, rowCount, width, i));
        Some(ProjColumn(id, kind, values, nulls))
    else Some(ProjColumn(id, kind, Clamped(section, 0, rowCount), nulls))
  }

  /** The column of the descriptor at the cursor, whose section is cut to what there is. `None`: reading throws. */
  function ReadColumn(b: Bytes, rowCount: nat, cursor: nat): Option<ProjColumn> {
    if cursor + 16 > |b| then None
    else
      var off, len := U32At(b, cursor + 8), U32At(b, cursor + 12);
      ColumnOf(U32At(b, cursor), U8At(b, cursor + 4), Clamped(b, off, off + len), rowCount)
  }

  function ValueAt(section: Bytes, rowCount: nat, width: nat, i: nat): nat
    requires i < rowCount && rowCount * width <= |section|
  {
    Inside(rowCount, width, i);
    ReadLe(section, i * width, width)
  }

  lemma Inside(n: nat, width: nat, i: nat)
    requires i < n
    ensures i * width + width <= n * width
  {
    assert (n - i - 1) * width >= 0;
    assert n * width == i * width + width + (n - i - 1) * width;
  }

  function ReadColumns(b: Bytes, rowCount: nat, k: nat, colCount: nat): Option<seq<ProjColumn>>
    requires k <= colCount
    decreases colCount - k
  {
    if k == colCount then Some([])
    else
      var first := ReadColumn(b, rowCount, 16 + 16 * k);
      if first.None? then None
      else
        var rest := ReadColumns(b, rowCount, k + 1, colCount);
        if rest.None? then None else Some([first.value] + rest.value)
  }

  /** `None`: there is no projection. */
  function ReadRowProjection(b: Bytes): Option<seq<ProjColumn>> {
    if |b| < 16 || b[0..8] != PROJ_MAGIC then None
    else ReadColumns(b, U32At(b, 8), 0, U32At(b, 12))
  }

  // ---------- round trip ----------

  lemma CountsFound(rowCount: nat, colCount: nat, tail: Bytes)
    requires rowCount < Pow256(4) && colCount < Pow256(4)
    ensures
      var b := PROJ_MAGIC + Counts(rowCount, colCount) + tail;
      && |b| >= 16 && b[0..8] == PROJ_MAGIC && U32At(b, 8) == rowCount && U32At(b, 12) == colCount
  {
    hide ToLe;
    Widths();
    var m, r, c := PROJ_MAGIC, ToLe(rowCount, 4), ToLe(colCount, 4);
    var b := m + (r + c) + tail;
    assert b == m + r + (c + tail) && b == (m + r) + c + tail;
    ReadAfter(m, rowCount, 4, c + tail);
    ReadAfter(m + r, colCount, 4, tail);
  }

  lemma DescOffsets(cols: seq<ProjColumn>, pad: nat -> nat, k: nat)
    requires k < |cols|
    ensures
      var f := DescFields(cols, pad, k);
      && FieldStart(f, 0) == 0 && FieldStart(f, 1) == 4 && FieldStart(f, 2) == 5 && FieldStart(f, 3) == 8
      && FieldStart(f, 4) == 12 && |Pack(f)| == 16
  {
    hide FieldStart, Pack, Start;
    var f := DescFields(cols, pad, k);
    FieldStep(f, 0); FieldStep(f, 1); FieldStep(f, 2); FieldStep(f, 3); FieldStep(f, 4);
    FieldEnds(f);
  }

  lemma {:induction false} DescStart(cols: seq<ProjColumn>, pad: nat -> nat, k: nat)
    requires k <= |cols|
    ensures Start(DescParts(cols, pad), k) == 16 * k
    decreases k
  {
    hide Start, Concat, Pack;
    StartEnds(DescParts(cols, pad));
    if k == 0 {
    } else {
      DescStart(cols, pad, k - 1);
      StartStep(DescParts(cols, pad), k - 1);
      DescOffsets(cols, pad, k - 1);
    }
  }

  lemma DescFound(head: Bytes, cols: seq<ProjColumn>, pad: nat -> nat, k: nat, tail: Bytes)
    requires k < |cols| && HeaderSize(|cols|) + Start(SectionParts(cols), k) + |SectionBytes(cols[k])| < Pow256(4)
    ensures
      var b, at := head + Concat(DescParts(cols, pad)) + tail, |head| + 16 * k;
      && at + 16 <= |b| && U32At(b, at) == cols[k].id && U8At(b, at + 4) == cols[k].kind
      && U32At(b, at + 8) == HeaderSize(|cols|) + Start(SectionParts(cols), k)
           && U32At(b, at + 12) == |SectionBytes(cols[k])|
  {
    hide Concat, Start, Pack, FieldStart, Pow256, ReadLe, SectionBytes;
    Widths();
    var parts, f := DescParts(cols, pad), DescFields(cols, pad, k);
    DescOffsets(cols, pad, k);
    DescStart(cols, pad, k);
    Around(parts, k);
    var before, after := Concat(parts[..k]), Concat(parts[k + 1..]);
    var b := head + Concat(parts) + tail;
    assert b == (head + before) + Pack(f) + (after + tail) by { Spread(head, before, Pack(f), after, tail); }
    var at := |head| + 16 * k;
    FieldFound(head + before, f, after + tail, 0, at, 4);
    ByteFound(head + before, f, after + tail, 1, at + 4);
    FieldFound(head + before, f, after + tail, 3, at + 8, 4);
    FieldFound(head + before, f, after + tail, 4, at + 12, 4);
  }

  lemma Spread<T>(a: seq<T>, b: seq<T>, c: seq<T>, d: seq<T>, e: seq<T>)
    ensures a + (b + c + d) + e == (a + b) + c + (d + e)
  {
  }

  lemma {:induction false} ValueStart(c: ProjColumn, k: nat)
    requires k <= |c.values|
    ensures FieldStart(ValueFields(c), k) == k * CellWidth(c.kind)
    decreases k
  {
    hide FieldStart, CellWidth;
    NoFieldsYet(ValueFields(c));
    if k == 0 {
    } else {
      ValueStart(c, k - 1);
      FieldStep(ValueFields(c), k - 1);
      assert (k - 1) * CellWidth(c.kind) + CellWidth(c.kind) == k * CellWidth(c.kind);
    }
  }

  lemma NoFieldsYet(fields: seq<Field>)
    ensures FieldStart(fields, 0) == 0
  {
  }

  lemma WidthIs(kind: byte)
    ensures CellWidth(kind) == if kind == 0 then 8 else if kind == 1 then 4 else 1
  {
  }

  /** A written section holds its column's values, of eight bytes, four or one, and then its flags. */
  lemma SectionReads(c: ProjColumn, rowCount: nat)
    requires Fits(c, rowCount)
    ensures
      var width, section := if c.kind == 0 then 8 else if c.kind == 1 then 4 else 1, SectionBytes(c);
      && width == CellWidth(c.kind) && |section| == rowCount * width + rowCount
      && seq(rowCount, i requires 0 <= i < rowCount => ValueAt(section, rowCount, width, i)) == c.values
      && section[rowCount * width..rowCount * width + rowCount] == c.nulls
  {
    WidthIs(c.kind);
    hide Pack, FieldStart, CellWidth, ReadLe, Pow256;
    var f, width, section := ValueFields(c), CellWidth(c.kind), SectionBytes(c);
    ValueStart(c, rowCount);
    FieldEnds(f);
    assert |section| == rowCount * width + rowCount;
    forall i | 0 <= i < rowCount ensures ValueAt(section, rowCount, width, i) == c.values[i] {
      ValueStart(c, i);
      FieldFound([], f, c.nulls, i, i * width, width);
      assert [] + Pack(f) + c.nulls == section;
    }
  }

  /** A column is read back from its descriptor and its section. */
  lemma ColumnReads(rowCount: nat, cols: seq<ProjColumn>, pad: nat -> nat, k: nat)
    requires cols != [] && k < |cols| && Fits(cols[k], rowCount) && |Blob(rowCount, cols, pad)| < 0x1_0000_0000
    ensures ReadColumn(Blob(rowCount, cols, pad), rowCount, 16 + 16 * k) == Some(cols[k])
  {
    hide Concat, Start, U32At, U8At, SectionBytes, DescParts, SectionParts, Counts, ColumnOf, Fits, Clamped, Blob;
    Widths();
    var b, off := Blob(rowCount, cols, pad), HeaderSize(|cols|) + Start(SectionParts(cols), k);
    SectionStands(rowCount, cols, pad, k);
    DescStands(rowCount, cols, pad, k);
    ClampedInside(b, off, off + |SectionBytes(cols[k])|);
    SectionGives(cols[k], rowCount);
  }

  lemma SectionStands(rowCount: nat, cols: seq<ProjColumn>, pad: nat -> nat, k: nat)
    requires k < |cols|
    ensures
      var b, off := Blob(rowCount, cols, pad), HeaderSize(|cols|) + Start(SectionParts(cols), k);
      && off + |SectionBytes(cols[k])| <= |b| && b[off..off + |SectionBytes(cols[k])|] == SectionBytes(cols[k])
  {
    hide Concat, Start, SectionBytes, DescParts, SectionParts, Counts;
    var head := PROJ_MAGIC + Counts(rowCount, |cols|);
    var descs := Concat(DescParts(cols, pad));
    HeadLength(rowCount, |cols|);
    DescStart(cols, pad, |cols|);
    StartEnds(DescParts(cols, pad));
    PartIs(cols, k);
    PartWithin(head + descs, SectionParts(cols), [], k);
    assert (head + descs) + Concat(SectionParts(cols)) + [] == Blob(rowCount, cols, pad);
  }

  lemma DescStands(rowCount: nat, cols: seq<ProjColumn>, pad: nat -> nat, k: nat)
    requires k < |cols| && |Blob(rowCount, cols, pad)| < Pow256(4)
    ensures
      var b, at := Blob(rowCount, cols, pad), 16 + 16 * k;
      && at + 16 <= |b| && U32At(b, at) == cols[k].id && U8At(b, at + 4) == cols[k].kind
      && U32At(b, at + 8) == HeaderSize(|cols|) + Start(SectionParts(cols), k)
      && U32At(b, at + 12) == |SectionBytes(cols[k])|
  {
    hide Concat, Start, U32At, U8At, SectionBytes, DescParts, SectionParts, Counts, Pow256;
    HeadLength(rowCount, |cols|);
    SectionStands(rowCount, cols, pad, k);
    DescFound(PROJ_MAGIC + Counts(rowCount, |cols|), cols, pad, k, Concat(SectionParts(cols)));
  }

  lemma ClampedInside(b: Bytes, lo: nat, hi: nat)
    requires lo <= hi <= |b|
    ensures Clamped(b, lo, hi) == b[lo..hi]
  {
  }

  /** A written section, read as its column's kind, is the column. */
  lemma SectionGives(c: ProjColumn, rowCount: nat)
    requires Fits(c, rowCount)
    ensures ColumnOf(c.id, c.kind, SectionBytes(c), rowCount) == Some(c)
  {
    hide SectionBytes, CellWidth, ValueAt;
    SectionReads(c, rowCount);
    if c.kind == KIND_BOOL { FlagsRead(c, rowCount); }
  }

  /** One-byte values are read as they stand. */
  lemma FlagsRead(c: ProjColumn, rowCount: nat)
    requires Fits(c, rowCount) && c.kind == KIND_BOOL
    ensures |SectionBytes(c)| == 2 * rowCount && SectionBytes(c)[..rowCount] == c.values
  {
    hide SectionBytes, ReadLe, Pow256;
    SectionReads(c, rowCount);
    var section := SectionBytes(c);
    forall i | 0 <= i < rowCount ensures section[i] == c.values[i] {
      assert ValueAt(section, rowCount, 1, i) == c.values[i];
      OneByte(section, i);
    }
  }

  lemma OneByte(b: Bytes, i: nat)
    requires i < |b|
    ensures ReadLe(b, i, 1) == b[i]
  {
    assert b[i..i + 1] == [b[i]];
    assert b[i..i + 1][1..] == [];
  }

  lemma PartIs(cols: seq<ProjColumn>, k: nat)
    requires k < |cols|
    ensures SectionParts(cols)[k] == SectionBytes(cols[k])
  {
  }

  lemma HeadLength(rowCount: nat, colCount: nat)
    ensures |PROJ_MAGIC + Counts(rowCount, colCount)| == 16
  {
  }

  lemma {:induction false} ColumnsRead(rowCount: nat, cols: seq<ProjColumn>, pad: nat -> nat, k: nat)
    requires cols != [] && k <= |cols| && |Blob(rowCount, cols, pad)| < 0x1_0000_0000
    requires forall i :: 0 <= i < |cols| ==> Fits(cols[i], rowCount)
    ensures ReadColumns(Blob(rowCount, cols, pad), rowCount, k, |cols|) == Some(cols[k..])
    decreases |cols| - k
  {
    hide Blob, ReadColumn, Fits;
    if k < |cols| {
      ColumnReads(rowCount, cols, pad, k);
      ColumnsRead(rowCount, cols, pad, k + 1);
      assert cols[k..] == [cols[k]] + cols[k + 1..];
    } else {
      assert cols[k..] == [];
    }
  }

  /** The blob reads back to the columns it was written from; with no column there is no projection. */
  lemma BlobRoundTrip(rowCount: nat, cols: seq<ProjColumn>, pad: nat -> nat)
    requires rowCount < 0x1_0000_0000 && |Blob(rowCount, cols, pad)| < 0x1_0000_0000
    requires forall i :: 0 <= i < |cols| ==> Fits(cols[i], rowCount)
    ensures ReadRowProjection(Blob(rowCount, cols, pad)) == if cols == [] then None else Some(cols)
  {
    hide Concat, Start, DescParts, SectionParts, ReadColumns, Fits, Counts, U32At;
    if cols != [] {
      Widths();
      ColumnsRead(rowCount, cols, pad, 0);
      assert cols[0..] == cols;
      var descs, sections := Concat(DescParts(cols, pad)), Concat(SectionParts(cols));
      DescStart(cols, pad, |cols|);
      StartEnds(DescParts(cols, pad));
      Assoc(PROJ_MAGIC + Counts(rowCount, |cols|), descs, sections);
      CountsFound(rowCount, |cols|, descs + sections);
    }
  }
}

/**
 The fixed records of a file: header, schema columns and index entries, each built field by field
 and parsed back from the offsets at which the reader expects its fields.
 */
module FileRecords {
  import opened LittleEndian
  import opened Sections
  import opened Wrappers

  const HEADER_BYTES: nat := 96
  const INDEX_ENTRY_BYTES: nat := 80
  const WCOL_VERSION: u16 := 7
  const ROWS_PER_CHUNK: u32 := 65504
  const NULL_SENTINEL: u64 := 0xFFFF_FFFF
  const NULL_SENTINEL_U64: u64 := 0xFFFF_FFFF_FFFF_FFFF
  const FLAG_NULLABLE: nat := 1
  const FLAG_DICT: nat := 2

  /** The letters W, C, O, L. */
  const MAGIC: seq<byte> := [0x57, 0x43, 0x4F, 0x4C]
  const MAGIC_VALUE: nat := 0x4C4F_4357

  // ---------- header ----------

  datatype Header = Header(
    version: u16, flags: u16, ncols: u32, nchunks: u32, rowsPerChunk: u32, totalRows: u64,
    schemaOff: u64, schemaLen: u64, indexOff: u64, indexLen: u64, dictOff: u64, dictLen: u64,
    dataOff: u64, dictRawLen: u64)

  function HeaderFields(h: Header): (fields: seq<Field>)
    ensures |fields| == 16
  {
    [Field(4, MAGIC_VALUE), Field(2, h.version), Field(2, h.flags), Field(4, h.ncols), Field(4, h.nchunks),
     Field(4, h.rowsPerChunk), Field(8, h.totalRows), Field(8, h.schemaOff), Field(8, h.schemaLen),
       Field(8, h.indexOff),
     Field(8, h.indexLen), Field(8, h.dictOff), Field(8, h.dictLen), Field(8, h.dataOff), Field(8, h.dictRawLen),
     Field(4, 0)]
  }

  function BuildHeader(h: Header): Bytes {
    Pack(HeaderFields(h))
  }

  function ParseHeader(b: Bytes): Option<Header> {
    if |b| < HEADER_BYTES then None
    else if b[0..4] != MAGIC then None
    else if U16At(b, 4) != WCOL_VERSION then None
    else Some(Header(U16At(b, 4), U16At(b, 6), U32At(b, 8), U32At(b, 12), U32At(b, 16), U64At(b, 20),
      U64At(b, 28), U64At(b, 36), U64At(b, 44), U64At(b, 52), U64At(b, 60), U64At(b, 68), U64At(b, 76), U64At(b, 84)))
  }

  lemma HeaderOffsets(h: Header)
    ensures
      var f := HeaderFields(h);
      && FieldStart(f, 0) == 0 && FieldStart(f, 1) == 4 && FieldStart(f, 2) == 6 && FieldStart(f, 3) == 8
      && FieldStart(f, 4) == 12 && FieldStart(f, 5) == 16 && FieldStart(f, 6) == 20 && FieldStart(f, 7) == 28
      && FieldStart(f, 8) == 36 && FieldStart(f, 9) == 44 && FieldStart(f, 10) == 52 && FieldStart(f, 11) == 60
      && FieldStart(f, 12) == 68 && FieldStart(f, 13) == 76 && FieldStart(f, 14) == 84 && FieldStart(f, 15) == 92
      && |BuildHeader(h)| == HEADER_BYTES
  {
    hide FieldStart, Pack;
    var f := HeaderFields(h);
    FieldStep(f, 0); FieldStep(f, 1); FieldStep(f, 2); FieldStep(f, 3);
    FieldStep(f, 4); FieldStep(f, 5); FieldStep(f, 6); FieldStep(f, 7);
    FieldStep(f, 8); FieldStep(f, 9); FieldStep(f, 10); FieldStep(f, 11);
    FieldStep(f, 12); FieldStep(f, 13); FieldStep(f, 14); FieldStep(f, 15);
    FieldEnds(f);
  }

  /** A field that fits its width is read back at its offset, whatever surrounds the record. */
  lemma FieldFound(head: Bytes, fields: seq<Field>, tail: Bytes, k: nat, off: nat, width: nat)
    requires k < |fields| && fields[k].width == width && fields[k].value < Pow256(width)
    requires off == |head| + FieldStart(fields, k)
    ensures off + width <= |head + Pack(fields) + tail|
    ensures ReadLe(head + Pack(fields) + tail, off, width) == fields[k].value
  {
    hide Pack, FieldStart;
    FieldAt(fields, k);
    ReadWithin(head, Pack(fields), tail, FieldStart(fields, k), width);
    SmallMod(fields[k].value, Pow256(width));
  }

  lemma SmallMod(v: nat, m: nat)
    requires v < m
    ensures v % m == v
  {
  }

  lemma HeaderCounts(h: Header, rest: Bytes)
    ensures
      var b := BuildHeader(h) + rest;
      && |b| >= HEADER_BYTES
      && U16At(b, 4) == h.version && U16At(b, 6) == h.flags && U32At(b, 8) == h.ncols && U32At(b, 12) == h.nchunks
      && U32At(b, 16) == h.rowsPerChunk && U64At(b, 20) == h.totalRows
  {
    hide Pack, FieldStart, Pow256, ReadLe;
    Widths();
    HeaderOffsets(h);
    var f, b := HeaderFields(h), BuildHeader(h) + rest;
    assert b == [] + Pack(f) + rest;
    FieldFound([], f, rest, 1, 4, 2); FieldFound([], f, rest, 2, 6, 2);
    FieldFound([], f, rest, 3, 8, 4); FieldFound([], f, rest, 4, 12, 4); FieldFound([], f, rest, 5, 16, 4);
    FieldFound([], f, rest, 6, 20, 8);
  }

  lemma HeaderSpans(h: Header, rest: Bytes)
    ensures
      var b := BuildHeader(h) + rest;
      && |b| >= HEADER_BYTES
      && U64At(b, 28) == h.schemaOff && U64At(b, 36) == h.schemaLen && U64At(b, 44) == h.indexOff
      && U64At(b, 52) == h.indexLen && U64At(b, 60) == h.dictOff && U64At(b, 68) == h.dictLen
      && U64At(b, 76) == h.dataOff && U64At(b, 84) == h.dictRawLen
  {
    hide Pack, FieldStart, Pow256, ReadLe;
    Widths();
    HeaderOffsets(h);
    var f, b := HeaderFields(h), BuildHeader(h) + rest;
    assert b == [] + Pack(f) + rest;
    FieldFound([], f, rest, 7, 28, 8); FieldFound([], f, rest, 8, 36, 8); FieldFound([], f, rest, 9, 44, 8);
    FieldFound([], f, rest, 10, 52, 8); FieldFound([], f, rest, 11, 60, 8); FieldFound([], f, rest, 12, 68, 8);
    FieldFound([], f, rest, 13, 76, 8); FieldFound([], f, rest, 14, 84, 8);
  }

  /** The reader finds in a written header exactly what the writer put there. */
  lemma HeaderRoundTrip(h: Header, rest: Bytes)
    requires h.version == WCOL_VERSION
    ensures ParseHeader(BuildHeader(h) + rest) == Some(h)
  {
    hide BuildHeader, U16At, U32At, U64At;
    HeaderCounts(h, rest);
    HeaderSpans(h, rest);
    MagicFound(h, rest);
  }

  lemma MagicFound(h: Header, rest: Bytes)
    ensures |BuildHeader(h)| == HEADER_BYTES && (BuildHeader(h) + rest)[0..4] == MAGIC
  {
    hide FieldStart, Concat, Start;
    HeaderOffsets(h);
    var parts := Encoded(HeaderFields(h));
    StartEnds(parts);
    PartWithin([], parts, rest, 0);
    assert parts[0] == MAGIC;
    assert BuildHeader(h) + rest == [] + Concat(parts) + rest;
  }

  function Zeros(n: nat): Bytes {
    seq(n, _ => 0)
  }

  /** The first `k` fields are in place, and the rest of the record is zero. */
  ghost predicate Filled(out: Bytes, fields: seq<Field>, k: nat)
    requires k <= |fields|
  {
    |out| == HEADER_BYTES && FieldStart(fields, k) <= HEADER_BYTES
    && out == Concat(Encoded(fields)[..k]) + Zeros(HEADER_BYTES - FieldStart(fields, k))
  }

  lemma FillNext(before: Bytes, after: Bytes, fields: seq<Field>, k: nat)
    requires k < |fields| && Filled(before, fields, k) && FieldStart(fields, k) + fields[k].width <= HEADER_BYTES
    requires
      var off, data := FieldStart(fields, k), ToLe(fields[k].value, fields[k].width);
      after == before[..off] + data + before[off + |data|..]
    ensures Filled(after, fields, k + 1)
  {
    hide Concat, ToLe;
    var parts, off, width := Encoded(fields), FieldStart(fields, k), fields[k].width;
    FieldStep(fields, k);
    assert parts[..k + 1] == parts[..k] + [parts[k]];
    ConcatSnoc(parts[..k], parts[k]);
    assert before[..off] == Concat(parts[..k]);
    assert before[off + width..] == Zeros(HEADER_BYTES - off - width);
  }

  /** Copies one field over the zeros at its offset. */
  method PutField(out: array<byte>, ghost fields: seq<Field>, k: nat, off: nat, width: nat, value: nat)
    requires k < |fields| && fields[k] == Field(width, value) && off == FieldStart(fields, k)
    requires Filled(out[..], fields, k) && off + width <= HEADER_BYTES
    modifies out
    ensures Filled(out[..], fields, k + 1)
  {
    hide Filled, FieldStart, ToLe;
    assert out.Length == HEADER_BYTES by { FilledLength(out[..], fields, k); }
    ghost var before := out[..];
    WriteBytes(out, off, ToLe(value, width));
    FillNext(before, out[..], fields, k);
  }

  lemma FilledLength(out: Bytes, fields: seq<Field>, k: nat)
    requires k <= |fields| && Filled(out, fields, k)
    ensures |out| == HEADER_BYTES
  {
  }

  /** The writer's header buffer, filled in field by field. */
  method WriteHeader(h: Header) returns (out: array<byte>)
    ensures fresh(out) && out[..] == BuildHeader(h)
  {
    hide Filled, FieldStart, BuildHeader;
    out := new byte[HEADER_BYTES](_ => 0);
    ghost var f := HeaderFields(h);
    HeaderOffsets(h);
    NothingFilled(out[..], f);
    PutField(out, f, 0, 0, 4, MAGIC_VALUE);
    PutField(out, f, 1, 4, 2, h.version);
    PutField(out, f, 2, 6, 2, h.flags);
    PutField(out, f, 3, 8, 4, h.ncols);
    PutField(out, f, 4, 12, 4, h.nchunks);
    PutField(out, f, 5, 16, 4, h.rowsPerChunk);
    PutField(out, f, 6, 20, 8, h.totalRows);
    PutField(out, f, 7, 28, 8, h.schemaOff);
    PutField(out, f, 8, 36, 8, h.schemaLen);
    PutField(out, f, 9, 44, 8, h.indexOff);
    PutField(out, f, 10, 52, 8, h.indexLen);
    PutField(out, f, 11, 60, 8, h.dictOff);
    PutField(out, f, 12, 68, 8, h.dictLen);
    PutField(out, f, 13, 76, 8, h.dataOff);
    PutField(out, f, 14, 84, 8, h.dictRawLen);
    AllFilled(out[..], h);
  }

  lemma NothingFilled(out: Bytes, fields: seq<Field>)
    requires out == Zeros(HEADER_BYTES)
    ensures Filled(out, fields, 0)
  {
    assert Encoded(fields)[..0] == [];
  }

  /** The last four bytes of the header are the zeros already there. */
  lemma AllFilled(out: Bytes, h: Header)
    requires Filled(out, HeaderFields(h), 15)
    ensures out == BuildHeader(h)
  {
    hide Concat;
    var f := HeaderFields(h);
    HeaderOffsets(h);
    assert ToLe(0, 4) == Zeros(4) by { assert ToLe(0, 3) == [0, 0, 0] && ToLe(0, 2) == [0, 0]; }
    assert Encoded(f)[..15] + [Zeros(4)] == Encoded(f);
    ConcatSnoc(Encoded(f)[..15], Zeros(4));
  }

  // ---------- schema ----------

  /** A signed 32-bit integer. */
  type i32 = x: int | -0x8000_0000 <= x < 0x8000_0000

  function AsUnsigned(x: i32): u32 {
    if x < 0 then x + 0x1_0000_0000 else x
  }

  function AsSigned(x: u32): i32 {
    if x < 0x8000_0000 then x else x - 0x1_0000_0000
  }

  datatype Column = Column(
    name: Bytes, logicalType: byte, physicalType: byte, flags: byte, encoding: byte,
    dictId: u32, dictIndexWidth: byte, scale: i32)

  /** The column may hold nulls. */
  predicate IsNullable(c: Column) {
    c.flags / FLAG_NULLABLE % 2 == 1
  }

  function ColumnFields(c: Column): (fields: seq<Field>)
    ensures |fields| == 8
  {
    [Field(1, c.logicalType), Field(1, c.physicalType), Field(1, c.flags), Field(1, c.encoding),
     Field(4, c.dictId), Field(1, c.dictIndexWidth), Field(4, AsUnsigned(c.scale)), Field(1, 0)]
  }

  function ColumnBytes(c: Column): Bytes {
    ToLe(|c.name|, 2) + c.name + Pack(ColumnFields(c))
  }

  /** `None` when a name is too long for its length field. */
  function BuildSchema(cols: seq<Column>): Option<Bytes>
    decreases |cols|
  {
    if cols == [] then Some([])
    else
      var front := BuildSchema(cols[..|cols| - 1]);
      var last := cols[|cols| - 1];
      if front.None? || |last.name| > 0xFFFF then None else Some(front.value + ColumnBytes(last))
  }

  method BuildSchemaLoop(cols: seq<Column>) returns (r: Option<Bytes>)
    ensures r == BuildSchema(cols)
  {
    hide ColumnBytes;
    var out: Bytes := [];
    for i := 0 to |cols|
      invariant BuildSchema(cols[..i]) == Some(out)
    {
      assert cols[..i + 1][..i] == cols[..i];
      if |cols[i].name| > 0xFFFF {
        SchemaNone(cols, i + 1);
        return None;
      }
      out := out + ColumnBytes(cols[i]);
    }
    assert cols[..|cols|] == cols;
    return Some(out);
  }

  lemma {:induction false} SchemaNone(cols: seq<Column>, i: nat)
    requires i <= |cols| && BuildSchema(cols[..i]).None?
    ensures BuildSchema(cols).None?
    decreases |cols|
  {
    if i < |cols| {
      assert cols[..|cols| - 1][..i] == cols[..i];
      SchemaNone(cols[..|cols| - 1], i);
    } else {
      assert cols[..i] == cols;
    }
  }

  /** One schema entry and the offset after it. */
  function ParseColumn(utf8: Bytes -> bool, b: Bytes, off: nat): Option<(Column, nat)> {
    if off + 2 > |b| then None
    else
      var nameLen := U16At(b, off);
      var start := off + 2;
      if start + nameLen > |b| || !utf8(b[start..start + nameLen]) then None
      else
        var p := start + nameLen;
        if p + 14 > |b| then None
        else
          var column := Column(b[start..p], U8At(b, p), U8At(b, p + 1), U8At(b, p + 2), U8At(b, p + 3),
            U32At(b, p + 4), U8At(b, p + 8), AsSigned(U32At(b, p + 9)));
          Some((column, p + 14))
  }

  function ParseColumns(utf8: Bytes -> bool, b: Bytes, off: nat, n: nat): Option<seq<Column>>
    decreases n
  {
    if n == 0 then Some([])
    else
      var first := ParseColumn(utf8, b, off);
      if first.None? then None
      else
        var rest := ParseColumns(utf8, b, first.value.1, n - 1);
        if rest.None? then None else Some([first.value.0] + rest.value)
  }

  method ParseSchema(utf8: Bytes -> bool, b: Bytes, ncols: nat) returns (r: Option<seq<Column>>)
    ensures r == ParseColumns(utf8, b, 0, ncols)
  {
    hide ParseColumn;
    var offset := 0;
    var cols: seq<Column> := [];
    ghost var all := ParseColumns(utf8, b, 0, ncols);
    if all.Some? { AppendNothing(all.value); }
    for id := 0 to ncols
      invariant ParseColumns(utf8, b, 0, ncols) ==
        var rest := ParseColumns(utf8, b, offset, ncols - id);
        if rest.None? then None else Some(cols + rest.value)
    {
      var next := ParseColumn(utf8, b, offset);
      if next.None? { return None; }
      ghost var rest := ParseColumns(utf8, b, next.value.1, ncols - id - 1);
      if rest.Some? { Assoc(cols, [next.value.0], rest.value); }
      cols := cols + [next.value.0];
      offset := next.value.1;
    }
    AppendNothing(cols);
    return Some(cols);
  }

  lemma AppendNothing<T>(s: seq<T>)
    ensures s + [] == s && [] + s == s
  {
  }

  lemma ColumnOffsets(c: Column)
    ensures
      var f := ColumnFields(c);
      && FieldStart(f, 0) == 0 && FieldStart(f, 1) == 1 && FieldStart(f, 2) == 2 && FieldStart(f, 3) == 3
      && FieldStart(f, 4) == 4 && FieldStart(f, 5) == 8 && FieldStart(f, 6) == 9 && FieldStart(f, 7) == 13
      && |Pack(f)| == 14
  {
    hide FieldStart, Pack;
    var f := ColumnFields(c);
    FieldStep(f, 0); FieldStep(f, 1); FieldStep(f, 2); FieldStep(f, 3);
    FieldStep(f, 4); FieldStep(f, 5); FieldStep(f, 6); FieldStep(f, 7);
    FieldEnds(f);
  }

  lemma ByteFound(head: Bytes, fields: seq<Field>, tail: Bytes, k: nat, off: nat)
    requires k < |fields| && fields[k].width == 1 && fields[k].value < 256
    requires off == |head| + FieldStart(fields, k)
    ensures off < |head + Pack(fields) + tail|
    ensures (head + Pack(fields) + tail)[off] == fields[k].value
  {
    hide Pack, FieldStart;
    Widths();
    FieldFound(head, fields, tail, k, off, 1);
  }

  lemma NameFound(head: Bytes, name: Bytes, tail: Bytes)
    requires |name| <= 0xFFFF
    ensures
      var b := head + (ToLe(|name|, 2) + name) + tail;
      && |head| + 2 + |name| <= |b|
      && U16At(b, |head|) == |name| && b[|head| + 2..|head| + 2 + |name|] == name
  {
    hide ToLe;
    Widths();
    var len := ToLe(|name|, 2);
    var b := head + (len + name) + tail;
    assert b == head + len + (name + tail);
    ReadAfter(head, |name|, 2, name + tail);
    assert b == (head + len) + name + tail;
  }

  lemma ParseColumnFound(utf8: Bytes -> bool, head: Bytes, c: Column, tail: Bytes)
    requires |c.name| <= 0xFFFF && utf8(c.name)
    ensures ParseColumn(utf8, head + ColumnBytes(c) + tail, |head|) == Some((c, |head| + |ColumnBytes(c)|))
  {
    hide Pack, FieldStart, Pow256, ToLe, ReadLe;
    Widths();
    ColumnOffsets(c);
    var f := ColumnFields(c);
    var start := head + (ToLe(|c.name|, 2) + c.name);
    var b := head + ColumnBytes(c) + tail;
    var p := |start|;
    Assoc(head, ToLe(|c.name|, 2) + c.name, Pack(f));
    assert b == start + Pack(f) + tail;
    Assoc(start, Pack(f), tail);
    assert b == head + (ToLe(|c.name|, 2) + c.name) + (Pack(f) + tail);
    NameFound(head, c.name, Pack(f) + tail);
    ByteFound(start, f, tail, 0, p); ByteFound(start, f, tail, 1, p + 1); ByteFound(start, f, tail, 2, p + 2);
    ByteFound(start, f, tail, 3, p + 3); FieldFound(start, f, tail, 4, p + 4, 4); ByteFound(start, f, tail, 5, p + 8);
    FieldFound(start, f, tail, 6, p + 9, 4);
  }

  /** The column sections of a schema. */
  function SchemaParts(cols: seq<Column>): (parts: seq<Bytes>)
    ensures |parts| == |cols|
  {
    seq(|cols|, i requires 0 <= i < |cols| => ColumnBytes(cols[i]))
  }

  ghost predicate NamesFit(cols: seq<Column>) {
    forall i :: 0 <= i < |cols| ==> |cols[i].name| <= 0xFFFF
  }

  /** Building fails exactly when a name is too long. */
  lemma {:induction false} SchemaBuilds(cols: seq<Column>)
    ensures BuildSchema(cols).Some? <==> NamesFit(cols)
    ensures BuildSchema(cols).Some? ==> BuildSchema(cols).value == Concat(SchemaParts(cols))
    decreases |cols|
  {
    hide ColumnBytes;
    if cols == [] {
    } else {
      var front := cols[..|cols| - 1];
      SchemaBuilds(front);
      assert SchemaParts(cols)[..|cols| - 1] == SchemaParts(front);
    }
  }

  lemma {:induction false} ColumnsFound(utf8: Bytes -> bool, cols: seq<Column>, k: nat)
    requires k <= |cols| && NamesFit(cols)
    requires forall i :: 0 <= i < |cols| ==> utf8(cols[i].name)
    ensures ParseColumns(utf8, Concat(SchemaParts(cols)), Start(SchemaParts(cols), k), |cols| - k) == Some(cols[k..])
    decreases |cols| - k
  {
    hide ColumnBytes, Concat, Start, ParseColumn;
    var parts := SchemaParts(cols);
    if k < |cols| {
      ColumnsFound(utf8, cols, k + 1);
      StartStep(parts, k);
      Around(parts, k);
      ParseColumnFound(utf8, Concat(parts[..k]), cols[k], Concat(parts[k + 1..]));
      assert cols[k..] == [cols[k]] + cols[k + 1..];
    } else {
      assert cols[k..] == [];
    }
  }

  /** The schema read from a written schema is the schema that was written. */
  lemma SchemaRoundTrip(utf8: Bytes -> bool, cols: seq<Column>)
    requires BuildSchema(cols).Some? && forall i :: 0 <= i < |cols| ==> utf8(cols[i].name)
    ensures ParseColumns(utf8, BuildSchema(cols).value, 0, |cols|) == Some(cols)
  {
    hide BuildSchema, ParseColumns, Concat, Start;
    SchemaBuilds(cols);
    ColumnsFound(utf8, cols, 0);
    StartEnds(SchemaParts(cols));
    assert cols[0..] == cols;
  }

  // ---------- chunk index entries ----------

  datatype IndexEntry = IndexEntry(
    dataOff: u64, dataCompLen: u32, dataRawLen: u32, nullOff: u64, nullCompLen: u32, nullRawLen: u32,
    emptyMode: byte, emptyCount: u32, emptyOff: u64, emptyCompLen: u32, emptyRawLen: u32,
    min: u64, max: u64, presence: u64)

  function EntryFields(e: IndexEntry): (fields: seq<Field>)
    ensures |fields| == 14
  {
    [Field(8, e.dataOff), Field(4, e.dataCompLen), Field(4, e.dataRawLen), Field(8, e.nullOff), Field(4, e.nullCompLen),
     Field(4, e.nullRawLen), Field(4, e.emptyMode), Field(4, e.emptyCount), Field(8, e.emptyOff),
       Field(4, e.emptyCompLen),
     Field(4, e.emptyRawLen), Field(8, e.min), Field(8, e.max), Field(8, e.presence)]
  }

  function EntryBytes(e: IndexEntry): Bytes {
    Pack(EntryFields(e))
  }

  function ParseEntry(b: Bytes, off: nat): IndexEntry
    requires off + INDEX_ENTRY_BYTES <= |b|
  {
    IndexEntry(U64At(b, off), U32At(b, off + 8), U32At(b, off + 12), U64At(b, off + 16), U32At(b, off + 24),
      U32At(b, off + 28), U32At(b, off + 32) % 256, U32At(b, off + 36), U64At(b, off + 40), U32At(b, off + 48),
      U32At(b, off + 52), U64At(b, off + 56), U64At(b, off + 64), U64At(b, off + 72))
  }

  function ParseEntries(b: Bytes, ncols: nat): Option<seq<IndexEntry>> {
    if |b| < ncols * INDEX_ENTRY_BYTES then None
    else Some(seq(ncols, i requires 0 <= i < ncols => EntryOf(b, ncols, i)))
  }

  function EntryOf(b: Bytes, ncols: nat, i: nat): IndexEntry
    requires i < ncols && ncols * INDEX_ENTRY_BYTES <= |b|
  {
    assert i * INDEX_ENTRY_BYTES + INDEX_ENTRY_BYTES <= ncols * INDEX_ENTRY_BYTES;
    ParseEntry(b, i * INDEX_ENTRY_BYTES)
  }

  method ParseChunkIndex(b: Bytes, ncols: nat) returns (r: Option<seq<IndexEntry>>)
    ensures r == ParseEntries(b, ncols)
  {
    hide ParseEntry;
    if |b| < ncols * INDEX_ENTRY_BYTES { return None; }
    var entries: seq<IndexEntry> := [];
    var offset := 0;
    for i := 0 to ncols
      invariant offset == i * INDEX_ENTRY_BYTES && |entries| == i
      invariant forall j :: 0 <= j < i ==> entries[j] == EntryOf(b, ncols, j)
    {
      var entry := EntryOf(b, ncols, i);
      entries := entries + [entry];
      offset := offset + INDEX_ENTRY_BYTES;
    }
    assert entries == ParseEntries(b, ncols).value;
    return Some(entries);
  }

  lemma EntryOffsets(e: IndexEntry)
    ensures
      var f := EntryFields(e);
      && FieldStart(f, 0) == 0 && FieldStart(f, 1) == 8 && FieldStart(f, 2) == 12 && FieldStart(f, 3) == 16
      && FieldStart(f, 4) == 24 && FieldStart(f, 5) == 28 && FieldStart(f, 6) == 32 && FieldStart(f, 7) == 36
      && FieldStart(f, 8) == 40 && FieldStart(f, 9) == 48 && FieldStart(f, 10) == 52 && FieldStart(f, 11) == 56
      && FieldStart(f, 12) == 64 && FieldStart(f, 13) == 72 && |EntryBytes(e)| == INDEX_ENTRY_BYTES
  {
    hide FieldStart, Pack;
    var f := EntryFields(e);
    FieldStep(f, 0); FieldStep(f, 1); FieldStep(f, 2); FieldStep(f, 3);
    FieldStep(f, 4); FieldStep(f, 5); FieldStep(f, 6); FieldStep(f, 7);
    FieldStep(f, 8); FieldStep(f, 9); FieldStep(f, 10); FieldStep(f, 11);
    FieldStep(f, 12); FieldStep(f, 13);
    FieldEnds(f);
  }

  lemma EntryFound(head: Bytes, e: IndexEntry, tail: Bytes)
    ensures |head| + INDEX_ENTRY_BYTES <= |head + EntryBytes(e) + tail|
    ensures ParseEntry(head + EntryBytes(e) + tail, |head|) == e
  {
    hide Pack, FieldStart, Pow256, ReadLe;
    Widths();
    EntryOffsets(e);
    var f, o := EntryFields(e), |head|;
    FieldFound(head, f, tail, 0, o, 8); FieldFound(head, f, tail, 1, o + 8, 4); FieldFound(head, f, tail, 2, o + 12, 4);
    FieldFound(head, f, tail, 3, o + 16, 8); FieldFound(head, f, tail, 4, o + 24, 4); FieldFound(head, f, tail, 5,
      o + 28, 4);
    FieldFound(head, f, tail, 6, o + 32, 4); FieldFound(head, f, tail, 7, o + 36, 4); FieldFound(head, f, tail, 8,
      o + 40, 8);
    FieldFound(head, f, tail, 9, o + 48, 4); FieldFound(head, f, tail, 10, o + 52, 4); FieldFound(head, f, tail, 11,
      o + 56, 8);
    FieldFound(head, f, tail, 12, o + 64, 8); FieldFound(head, f, tail, 13, o + 72, 8);
  }

  function EntryParts(es: seq<IndexEntry>): (parts: seq<Bytes>)
    ensures |parts| == |es|
  {
    seq(|es|, i requires 0 <= i < |es| => EntryBytes(es[i]))
  }

  lemma {:induction false} EntryStart(es: seq<IndexEntry>, k: nat)
    requires k <= |es|
    ensures Start(EntryParts(es), k) == k * INDEX_ENTRY_BYTES
    decreases k
  {
    hide Start, Concat, EntryBytes;
    StartEnds(EntryParts(es));
    if k == 0 {
    } else {
      EntryStart(es, k - 1);
      StartStep(EntryParts(es), k - 1);
      EntryOffsets(es[k - 1]);
    }
  }

  /** The entries read from a written chunk index are the entries that were written. */
  lemma IndexRoundTrip(es: seq<IndexEntry>)
    ensures ParseEntries(Concat(EntryParts(es)), |es|) == Some(es)
  {
    hide Concat, Start, EntryBytes, ParseEntry;
    var parts, b := EntryParts(es), Concat(EntryParts(es));
    EntryStart(es, |es|);
    StartEnds(parts);
    forall i | 0 <= i < |es| ensures EntryOf(b, |es|, i) == es[i] {
      Around(parts, i);
      EntryFound(Concat(parts[..i]), es[i], Concat(parts[i + 1..]));
      EntryStart(es, i);
    }
    assert ParseEntries(b, |es|).value == es;
  }
}

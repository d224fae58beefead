/** Reading a written .wcol file back: every offset in it leads to the bytes it was written for. */
module FileReading {
  import opened DictSection
  import opened FileLayout
  import opened FileRecords
  import opened LittleEndian
  import opened Sections
  import opened Wrappers

  // ---------- the reader's steps ----------

  predicate InFile(file: Bytes, off: nat, len: nat) {
    off + len <= |file|
  }

  function At(file: Bytes, off: nat, len: nat): Bytes
    requires InFile(file, off, len)
  {
    file[off..off + len]
  }

  function ReadToc(b: Bytes, nchunks: nat): Option<seq<u64>> {
    if |b| < 8 * nchunks then None
    else Some(seq(nchunks, c requires 0 <= c < nchunks => U64At(b, 8 * c)))
  }

  method SetToc(b: Bytes, nchunks: nat) returns (r: Option<seq<u64>>)
    ensures r == ReadToc(b, nchunks)
  {
    hide U64At;
    if |b| < 8 * nchunks { return None; }
    var toc: seq<u64> := [];
    for c := 0 to nchunks
      invariant |toc| == c && forall i :: 0 <= i < c ==> toc[i] == ReadToc(b, nchunks).value[i]
    {
      toc := toc + [U64At(b, 8 * c)];
    }
    assert toc == ReadToc(b, nchunks).value;
    return Some(toc);
  }

  datatype SpanError = NoToc | NoSuchChunk | TooLong

  /** Offset and length of a chunk's index block; the last block ends where the index ends. */
  function IndexSpan(toc: seq<nat>, h: Header, chunk: nat): Result<(nat, nat), SpanError> {
    if toc == [] then Err(NoToc)
    else if chunk >= |toc| then Err(NoSuchChunk)
    else
      var next := if chunk + 1 < |toc| then toc[chunk + 1] else h.indexOff + h.indexLen;
      var len := if next < toc[chunk] then 0 else next - toc[chunk];
      if len > 0xFFFF_FFFF then Err(TooLong) else Ok((toc[chunk], len))
  }

  // ---------- where the parts of a file stand ----------

  /** The sizes in the file are below what its length fields can say. */
  ghost predicate Representable(specs: seq<Spec>, chunks: seq<seq<Page>>, l: Layout) {
    && |specs| < 0x1_0000_0000 && |chunks| < 0x1_0000_0000
    && |FileBytes(l)| < 0x1_0000_0000_0000_0000
  }

  function DataOff(l: Layout): nat {
    HEADER_BYTES + |l.schema| + IndexLen(l.blocks) + |l.dict| + l.padding
  }

  /** What a layout is made of. */
  ghost predicate Written(codec: Codec, specs: seq<Spec>, chunks: seq<seq<Page>>, totalRows: u64, l: Layout) {
    && Lay(codec, specs, chunks, totalRows) == Ok(l)
    && Representable(specs, chunks, l)
  }

  lemma LayParts(codec: Codec, specs: seq<Spec>, chunks: seq<seq<Page>>, totalRows: u64, l: Layout)
    requires Lay(codec, specs, chunks, totalRows) == Ok(l)
    ensures BuildSchema(Columns(specs)) == Some(l.schema)
    ensures BuildDicts(DictColumns(specs)).Some?
    ensures l.dict == StoredDicts(codec, BuildDicts(DictColumns(specs)).value).0
    ensures l.placed == PlacedChunks(chunks, DataOff(l)) && l.blocks == IndexBlocks(codec, l.placed)
    ensures l.toc == Toc(l.blocks, HEADER_BYTES + |l.schema|)
    ensures |l.blocks| == |chunks| && |l.placed| == |chunks| && |l.toc| == |chunks|
    ensures DataOff(l) == DataStart(|l.schema|, |l.dict|, |specs|, |chunks|)
  {
    hide BuildSchema, BuildDicts, LayOut, PlacedChunks, IndexBlocks;
    hide Toc, DataStart, IndexLen, DataOff, StoredDicts, HeaderFor;
    hide Columns, DictColumns;
    LayOutParts(codec, |specs|, BuildSchema(Columns(specs)).value, BuildDicts(DictColumns(specs)).value, chunks,
      totalRows, l);
  }

  lemma LayOutParts(codec: Codec, ncols: nat, schema: Bytes, raw: Bytes, chunks: seq<seq<Page>>, totalRows: u64,
        l: Layout)
    requires LayOut(codec, ncols, schema, raw, chunks, totalRows) == Ok(l)
    ensures l.schema == schema && l.dict == StoredDicts(codec, raw).0
    ensures l.placed == PlacedChunks(chunks, DataOff(l)) && l.blocks == IndexBlocks(codec, l.placed)
    ensures l.toc == Toc(l.blocks, HEADER_BYTES + |l.schema|)
    ensures |l.blocks| == |chunks| && |l.placed| == |chunks| && |l.toc| == |chunks|
    ensures DataOff(l) == DataStart(|l.schema|, |l.dict|, ncols, |chunks|)
    ensures l.header == HeaderFor(ncols, |chunks|, |schema|, IndexLen(l.blocks), |l.dict|, |raw|, DataOff(l), totalRows,
      StoredDicts(codec, raw).1)
  {
    hide PlacedChunks, IndexBlocks, Toc, IndexLen, DataStart, HeaderFor, StoredDicts;
  }

  lemma LayHeader(codec: Codec, specs: seq<Spec>, chunks: seq<seq<Page>>, totalRows: u64, l: Layout)
    requires Lay(codec, specs, chunks, totalRows) == Ok(l)
    ensures BuildDicts(DictColumns(specs)).Some?
    ensures
      var raw := BuildDicts(DictColumns(specs)).value;
      l.header == HeaderFor(|specs|, |chunks|, |l.schema|, IndexLen(l.blocks), |l.dict|, |raw|, DataOff(l), totalRows,
        StoredDicts(codec, raw).1)
  {
    hide BuildSchema, BuildDicts, LayOut, PlacedChunks, IndexBlocks;
    hide Toc, DataStart, IndexLen, DataOff, StoredDicts, HeaderFor;
    hide Columns, DictColumns;
    LayOutParts(codec, |specs|, BuildSchema(Columns(specs)).value, BuildDicts(DictColumns(specs)).value, chunks,
      totalRows, l);
  }

  lemma PartStarts(l: Layout)
    requires |l.toc| == |l.blocks|
    ensures
      var parts := FileParts(l);
      && Start(parts, 0) == 0
      && Start(parts, 1) == HEADER_BYTES
      && Start(parts, 2) == HEADER_BYTES + |l.schema|
      && Start(parts, 3) == HEADER_BYTES + |l.schema| + 8 * |l.toc|
      && Start(parts, 4) == HEADER_BYTES + |l.schema| + IndexLen(l.blocks)
      && Start(parts, 5) == HEADER_BYTES + |l.schema| + IndexLen(l.blocks) + |l.dict|
      && Start(parts, 6) == DataOff(l)
      && |FileBytes(l)| == DataOff(l) + |DataBytes(l.placed)|
  {
    hide Start, Concat, BuildHeader, TocBytes, DataBytes;
    var parts := FileParts(l);
    StartEnds(parts);
    HeaderOffsets(l.header);
    TocStart(l.toc, |l.toc|);
    StartStep(parts, 0); StartStep(parts, 1); StartStep(parts, 2); StartStep(parts, 3);
    StartStep(parts, 4); StartStep(parts, 5); StartStep(parts, 6);
  }

  lemma Part(l: Layout, k: nat)
    requires k < 7
    ensures
      var part := FileParts(l)[k];
      InFile(FileBytes(l), Start(FileParts(l), k), |part|) && At(FileBytes(l), Start(FileParts(l), k), |part|) == part
  {
    hide Start, Concat, FileParts;
    PartAt(FileParts(l), k);
  }

  lemma Low(n: nat)
    ensures n < 0x1_0000_0000 ==> Low32(n) == n
    ensures n < 0x1_0000_0000_0000_0000 ==> Low64(n) == n
    ensures Low32(n) == n <==> n < 0x1_0000_0000
  {
  }

  // ---------- main results ----------

  /**
   The writer succeeds exactly when every name and every dictionary fits its length fields and the compressed
   index is no longer than the uncompressed one.
   */
  lemma WriterSucceeds(codec: Codec, specs: seq<Spec>, chunks: seq<seq<Page>>, totalRows: u64)
    ensures Lay(codec, specs, chunks, totalRows).Ok? <==>
      && NamesFit(Columns(specs))
      && (forall i :: 0 <= i < |DictColumns(specs)| ==> |Concat(DictColumns(specs)[i].values)| <= 0xFFFF_FFFF)
      && (var schema, raw := OrNothing(BuildSchema(Columns(specs))), OrNothing(BuildDicts(DictColumns(specs)));
          var dataOff := DataStart(|schema|, |StoredDicts(codec, raw).0|, |specs|, |chunks|);
          |Concat(IndexBlocks(codec, PlacedChunks(chunks, dataOff)))| <= |specs| * INDEX_ENTRY_BYTES * |chunks|)
  {
    hide BuildSchema, PlacedChunks, IndexBlocks, Toc, Concat;
    SchemaBuilds(Columns(specs));
    DictsBuild(DictColumns(specs));
  }

  /** The header at the start of the file is the one written, and its numbers are the true sizes and positions. */
  lemma HeaderFound(codec: Codec, specs: seq<Spec>, chunks: seq<seq<Page>>, totalRows: u64, l: Layout)
    requires Written(codec, specs, chunks, totalRows, l)
    ensures ParseHeader(FileBytes(l)) == Some(l.header)
    ensures
      var h := l.header;
      && h.ncols == |specs| && h.nchunks == |chunks| && h.totalRows == totalRows
      && h.schemaOff == HEADER_BYTES && h.schemaLen == |l.schema|
      && h.indexOff == HEADER_BYTES + |l.schema| && h.indexLen == IndexLen(l.blocks)
      && h.dictOff == h.indexOff + h.indexLen && h.dictLen == |l.dict|
      && h.dataOff == DataOff(l)
  {
    hide Start, Concat, BuildHeader, TocBytes, DataBytes, Lay, ParseHeader, Low32, Low64, StoredDicts, BuildDicts;
    LayParts(codec, specs, chunks, totalRows, l);
    LayHeader(codec, specs, chunks, totalRows, l);
    PartStarts(l);
    Low(|specs|); Low(|chunks|); Low(HEADER_BYTES); Low(|l.schema|); Low(HEADER_BYTES + |l.schema|);
    Low(IndexLen(l.blocks)); Low(HEADER_BYTES + |l.schema| + IndexLen(l.blocks)); Low(|l.dict|); Low(DataOff(l));
    FirstPart(l);
    HeaderRoundTrip(l.header, FileBytes(l)[HEADER_BYTES..]);
  }

  lemma FirstPart(l: Layout)
    requires |l.toc| == |l.blocks|
    ensures |FileBytes(l)| >= HEADER_BYTES && FileBytes(l) == BuildHeader(l.header) + FileBytes(l)[HEADER_BYTES..]
  {
    hide Start, Concat, BuildHeader, TocBytes, DataBytes;
    HeaderOffsets(l.header);
    PartStarts(l);
    Part(l, 0);
    assert FileBytes(l)[..HEADER_BYTES] == BuildHeader(l.header);
  }

  /** The schema section read through the header is the written schema. */
  lemma SchemaFound(codec: Codec, specs: seq<Spec>, chunks: seq<seq<Page>>, totalRows: u64, l: Layout,
        utf8: Bytes -> bool)
    requires Written(codec, specs, chunks, totalRows, l)
    requires forall i :: 0 <= i < |specs| ==> utf8(specs[i].column.name)
    ensures InFile(FileBytes(l), l.header.schemaOff, l.header.schemaLen)
    ensures ParseColumns(utf8, At(FileBytes(l), l.header.schemaOff, l.header.schemaLen), 0, l.header.ncols)
      == Some(Columns(specs))
  {
    hide Start, Concat, BuildHeader, TocBytes, DataBytes;
    hide Lay, ParseHeader, BuildSchema, ParseColumns, StoredDicts, BuildDicts;
    HeaderFound(codec, specs, chunks, totalRows, l);
    LayParts(codec, specs, chunks, totalRows, l);
    PartStarts(l);
    Part(l, 1);
    SchemaRoundTrip(utf8, Columns(specs));
  }

  /** The table of contents read through the header is the one written. */
  lemma TocFound(codec: Codec, specs: seq<Spec>, chunks: seq<seq<Page>>, totalRows: u64, l: Layout)
    requires Written(codec, specs, chunks, totalRows, l)
    ensures InFile(FileBytes(l), l.header.indexOff, 8 * l.header.nchunks)
    ensures ReadToc(At(FileBytes(l), l.header.indexOff, 8 * l.header.nchunks), l.header.nchunks) == Some(l.toc)
  {
    hide Start, Concat, BuildHeader, Pack, FieldStart, DataBytes, Lay, ParseHeader, ReadLe, StoredDicts, BuildDicts;
    HeaderFound(codec, specs, chunks, totalRows, l);
    LayParts(codec, specs, chunks, totalRows, l);
    PartStarts(l);
    Part(l, 2);
    TocStart(l.toc, |l.toc|);
    Widths();
    var b := TocBytes(l.toc);
    forall c | 0 <= c < |l.toc| ensures U64At(b, 8 * c) == l.toc[c] {
      TocStart(l.toc, c);
      TocWithin(l, c);
      FieldFound([], TocFields(l.toc), [], c, 8 * c, 8);
      assert [] + b + [] == b;
    }
    assert ReadToc(b, |l.toc|).value == l.toc;
  }

  /** Every entry of the table of contents is an offset inside the file. */
  lemma TocWithin(l: Layout, c: nat)
    requires l.toc == Toc(l.blocks, HEADER_BYTES + |l.schema|) && c < |l.blocks|
    requires |FileBytes(l)| < 0x1_0000_0000_0000_0000
    ensures l.toc[c] + |l.blocks[c]| <= HEADER_BYTES + |l.schema| + IndexLen(l.blocks) < 0x1_0000_0000_0000_0000
  {
    hide Start, Concat, BuildHeader, TocBytes, DataBytes, FileParts;
    PartStarts(l);
    PartAt(l.blocks, c);
  }

  /** The spans of the chunk index cut out exactly the compressed blocks, one after the other. */
  lemma SpanFound(codec: Codec, specs: seq<Spec>, chunks: seq<seq<Page>>, totalRows: u64, l: Layout, c: nat)
    requires Written(codec, specs, chunks, totalRows, l) && c < |chunks|
    ensures |l.blocks| == |chunks|
    ensures
      var span := IndexSpan(l.toc, l.header, c);
      && (span.Ok? <==> |l.blocks[c]| < 0x1_0000_0000)
      && (span.Ok? ==>
            && span.value.1 == |l.blocks[c]| && InFile(FileBytes(l), span.value.0, span.value.1)
            && At(FileBytes(l), span.value.0, span.value.1) == l.blocks[c])
  {
    hide Start, Concat, BuildHeader, TocBytes, DataBytes, Lay, ParseHeader, StoredDicts, BuildDicts, FileParts;
    HeaderFound(codec, specs, chunks, totalRows, l);
    LayParts(codec, specs, chunks, totalRows, l);
    TocWithin(l, c);
    StartStep(l.blocks, c);
    StartEnds(l.blocks);
    BlockFound(l, c);
  }

  lemma BlockFound(l: Layout, c: nat)
    requires l.toc == Toc(l.blocks, HEADER_BYTES + |l.schema|) && c < |l.blocks|
    ensures InFile(FileBytes(l), l.toc[c], |l.blocks[c]|) && At(FileBytes(l), l.toc[c], |l.blocks[c]|) == l.blocks[c]
  {
    hide Start, Concat, BuildHeader, TocBytes, DataBytes;
    PartStarts(l);
    Part(l, 3);
    PartAt(l.blocks, c);
    SliceOfSlice(FileBytes(l), Start(FileParts(l), 3), |Concat(l.blocks)|, Start(l.blocks, c), |l.blocks[c]|);
  }

  lemma SliceOfSlice<T>(s: seq<T>, off: nat, len: nat, off2: nat, len2: nat)
    requires off + len <= |s| && off2 + len2 <= len
    ensures s[off..off + len][off2..off2 + len2] == s[off + off2..off + off2 + len2]
  {
    var a, b := s[off..off + len][off2..off2 + len2], s[off + off2..off + off2 + len2];
    assert forall i :: 0 <= i < len2 ==> a[i] == b[i];
  }

  /** The index block of a chunk decompresses and parses to the entries of its pages. */
  lemma EntriesFound(codec: Codec, specs: seq<Spec>, chunks: seq<seq<Page>>, totalRows: u64, l: Layout, c: nat)
    requires Inverse(codec) && Written(codec, specs, chunks, totalRows, l) && c < |chunks|
    requires |chunks[c]| == |specs|
    ensures |l.blocks| == |chunks| && |l.placed| == |chunks|
    ensures
      var raw := codec.decompress(l.blocks[c], |specs| * INDEX_ENTRY_BYTES);
      raw.Some? && ParseEntries(raw.value, |specs|) == Some(EntriesFor(l.placed[c]))
  {
    hide Start, Concat, Lay, BuildSchema, BuildDicts;
    hide ParseEntries, StoredDicts, FileBytes, EntryParts, EntriesFor, DataOff;
    LayParts(codec, specs, chunks, totalRows, l);
    assert |l.placed[c]| == |specs|;
    BlockReads(codec, l.placed[c]);
  }

  lemma BlockReads(codec: Codec, chunk: seq<Page>)
    requires Inverse(codec)
    ensures
      var raw := codec.decompress(codec.compress(IndexBytes(chunk)), |chunk| * INDEX_ENTRY_BYTES);
      raw.Some? && ParseEntries(raw.value, |chunk|) == Some(EntriesFor(chunk))
  {
    hide Start, Concat, ParseEntries, EntryParts, EntriesFor;
    var entries := EntriesFor(chunk);
    EntryStart(entries, |entries|);
    StartEnds(EntryParts(entries));
    IndexRoundTrip(entries);
  }

  /** The dictionary section, decompressed when the header flag says so, is the written one. */
  lemma DictsFound(codec: Codec, specs: seq<Spec>, chunks: seq<seq<Page>>, totalRows: u64, l: Layout)
    requires Inverse(codec) && Written(codec, specs, chunks, totalRows, l)
    requires BuildDicts(DictColumns(specs)).Some? ==> |BuildDicts(DictColumns(specs)).value| < 0x1_0000_0000_0000_0000
    ensures BuildDicts(DictColumns(specs)).Some?
    ensures InFile(FileBytes(l), l.header.dictOff, l.header.dictLen)
    ensures
      var stored := At(FileBytes(l), l.header.dictOff, l.header.dictLen);
      var raw := if l.header.flags % 2 == 1 then codec.decompress(stored, l.header.dictRawLen) else Some(stored);
      raw == Some(BuildDicts(DictColumns(specs)).value)
  {
    hide Start, Concat, BuildHeader, TocBytes, DataBytes, Lay;
    hide ParseHeader, BuildSchema, BuildDicts, Low32, Low64, StoredDicts;
    hide DictColumns, DataOff, IndexLen, HeaderFor, DataStart, PlacedChunks, IndexBlocks, Toc, Columns;
    HeaderFound(codec, specs, chunks, totalRows, l);
    LayParts(codec, specs, chunks, totalRows, l);
    LayHeader(codec, specs, chunks, totalRows, l);
    LastFields(|specs|, |chunks|, |l.schema|, IndexLen(l.blocks), |l.dict|, |BuildDicts(DictColumns(specs)).value|,
      DataOff(l),
      totalRows, StoredDicts(codec, BuildDicts(DictColumns(specs)).value).1);
    PartStarts(l);
    Part(l, 4);
    var raw := BuildDicts(DictColumns(specs)).value;
    Low(|raw|);
    StoredReads(codec, raw);
  }

  lemma LastFields(ncols: nat, nchunks: nat, schemaLen: nat, indexLen: nat, dictLen: nat, rawLen: nat, dataOff: nat,
      totalRows: u64, flags: u16)
    ensures
      var h := HeaderFor(ncols, nchunks, schemaLen, indexLen, dictLen, rawLen, dataOff, totalRows, flags);
      h.dictRawLen == Low64(rawLen) && h.flags == flags
  {
    hide Low32, Low64;
  }

  lemma StoredReads(codec: Codec, raw: Bytes)
    requires Inverse(codec)
    ensures
      var (stored, flags) := StoredDicts(codec, raw);
      (if flags % 2 == 1 then codec.decompress(stored, |raw|) else Some(stored)) == Some(raw)
  {
  }

  // ---------- pages ----------

  /** The bytes of a placed page are where its offsets say. */
  ghost predicate PageStands(file: Bytes, p: Page) {
    && InFile(file, p.dataOff, |p.dataComp|) && At(file, p.dataOff, |p.dataComp|) == p.dataComp
    && (p.nullComp.Some? ==>
          InFile(file, p.nullOff, |p.nullComp.value|) && At(file, p.nullOff, |p.nullComp.value|) == p.nullComp.value)
    && (p.emptyComp.Some? ==>
          InFile(file, p.emptyOff, |p.emptyComp.value|) && At(file, p.emptyOff, |p.emptyComp.value|)
            == p.emptyComp.value)
  }

  lemma PlacedStands(file: Bytes, p: Page, cursor: nat)
    requires InFile(file, cursor, |PageBytes(p)|) && At(file, cursor, |PageBytes(p)|) == PageBytes(p)
    ensures PageStands(file, Placed(p, cursor))
  {
    var data, nulls, empties := p.dataComp, OrNothing(p.nullComp), OrNothing(p.emptyComp);
    var n := |PageBytes(p)|;
    SliceOfSlice(file, cursor, n, 0, |data|);
    SliceOfSlice(file, cursor, n, |data|, |nulls|);
    SliceOfSlice(file, cursor, n, |data| + |nulls|, |empties|);
    assert PageBytes(p) == data + nulls + empties;
    assert PageBytes(p)[0..|data|] == data;
    assert PageBytes(p)[|data| + |nulls|..|data| + |nulls| + |empties|] == empties;
  }

  /** Offset of page `j` of chunk `c`. */
  function PageOff(chunks: seq<seq<Page>>, dataOff: nat, c: nat, j: nat): nat
    requires c < |chunks| && j <= |chunks[c]|
  {
    dataOff + Start(ChunkParts(chunks), c) + Start(PageParts(chunks[c]), j)
  }

  /** Placing a page does not change its bytes. */
  lemma DataUnchanged(chunks: seq<seq<Page>>, dataOff: nat)
    ensures DataBytes(PlacedChunks(chunks, dataOff)) == DataBytes(chunks)
  {
    hide Concat, Start;
    forall c | 0 <= c < |chunks| ensures ChunkParts(PlacedChunks(chunks, dataOff))[c] == ChunkParts(chunks)[c] {
      assert PageParts(PlacedChunks(chunks, dataOff)[c]) == PageParts(chunks[c]);
    }
    assert ChunkParts(PlacedChunks(chunks, dataOff)) == ChunkParts(chunks);
  }

  lemma PageWithin(chunks: seq<seq<Page>>, c: nat, j: nat)
    requires c < |chunks| && j < |chunks[c]|
    ensures
      var off, n := Start(ChunkParts(chunks), c) + Start(PageParts(chunks[c]), j), |PageBytes(chunks[c][j])|;
      InFile(DataBytes(chunks), off, n) && At(DataBytes(chunks), off, n) == PageBytes(chunks[c][j])
  {
    hide Concat, Start, PageBytes;
    PartAt(ChunkParts(chunks), c);
    PartAt(PageParts(chunks[c]), j);
    SliceOfSlice(DataBytes(chunks), Start(ChunkParts(chunks), c), |ChunkBytes(chunks[c])|,
      Start(PageParts(chunks[c]), j), |PageBytes(chunks[c][j])|);
  }

  /** Every page's offsets select exactly its bytes. */
  lemma PageFound(codec: Codec, specs: seq<Spec>, chunks: seq<seq<Page>>, totalRows: u64, l: Layout, c: nat, j: nat)
    requires Written(codec, specs, chunks, totalRows, l) && c < |chunks| && j < |chunks[c]|
    ensures |l.placed| == |chunks| && |l.placed[c]| == |chunks[c]|
    ensures l.placed[c][j] == Placed(chunks[c][j], PageOff(chunks, DataOff(l), c, j))
    ensures PageStands(FileBytes(l), l.placed[c][j])
  {
    hide Start, Concat, BuildHeader, TocBytes, DataBytes, Lay;
    hide PageBytes, Placed, PageStands, BuildSchema, BuildDicts, StoredDicts;
    LayParts(codec, specs, chunks, totalRows, l);
    PartStarts(l);
    Part(l, 6);
    DataUnchanged(chunks, DataOff(l));
    PageWithin(chunks, c, j);
    SliceOfSlice(FileBytes(l), DataOff(l), |DataBytes(chunks)|,
      Start(ChunkParts(chunks), c) + Start(PageParts(chunks[c]), j), |PageBytes(chunks[c][j])|);
    PlacedStands(FileBytes(l), chunks[c][j], PageOff(chunks, DataOff(l), c, j));
  }

  /** The pages fill the rest of the file without gap or overlap: each starts where the one before it ends. */
  lemma PagesTile(codec: Codec, specs: seq<Spec>, chunks: seq<seq<Page>>, totalRows: u64, l: Layout, c: nat)
    requires Written(codec, specs, chunks, totalRows, l) && c < |chunks|
    ensures PageOff(chunks, DataOff(l), 0, 0) == DataOff(l)
    ensures forall j :: 0 <= j < |chunks[c]| ==>
      PageOff(chunks, DataOff(l), c, j + 1) == PageOff(chunks, DataOff(l), c, j) + |PageBytes(chunks[c][j])|
    ensures PageOff(chunks, DataOff(l), c, |chunks[c]|)
      == if c + 1 < |chunks| then PageOff(chunks, DataOff(l), c + 1, 0) else |FileBytes(l)|
  {
    hide Start, Concat, BuildHeader, TocBytes, Lay, PageBytes, BuildSchema, BuildDicts, StoredDicts;
    LayParts(codec, specs, chunks, totalRows, l);
    PartStarts(l);
    DataUnchanged(chunks, DataOff(l));
    var parts := ChunkParts(chunks);
    StartEnds(parts);
    StartStep(parts, c);
    StartEnds(PageParts(chunks[c]));
    StartEnds(PageParts(chunks[0]));
    if c + 1 < |chunks| { StartEnds(PageParts(chunks[c + 1])); }
    forall j | 0 <= j < |chunks[c]|
      ensures Start(PageParts(chunks[c]), j + 1) == Start(PageParts(chunks[c]), j) + |PageBytes(chunks[c][j])|
    {
      StartStep(PageParts(chunks[c]), j);
    }
  }

  /** The entry of a page says where it stands, and how long it is as far as 32 bits can say it. */
  lemma EntryPoints(codec: Codec, specs: seq<Spec>, chunks: seq<seq<Page>>, totalRows: u64, l: Layout, c: nat, j: nat)
    requires Written(codec, specs, chunks, totalRows, l) && c < |chunks| && j < |chunks[c]|
    ensures |l.placed| == |chunks| && |l.placed[c]| == |chunks[c]|
    ensures
      var p, e := l.placed[c][j], EntriesFor(l.placed[c])[j];
      && e.dataOff == p.dataOff && e.nullOff == p.nullOff && e.emptyOff == p.emptyOff
      && (e.dataCompLen == |p.dataComp| <==> |p.dataComp| < 0x1_0000_0000)
      && (e.nullCompLen == |OrNothing(p.nullComp)| <==> |OrNothing(p.nullComp)| < 0x1_0000_0000)
      && (e.emptyCompLen == |OrNothing(p.emptyComp)| <==> |OrNothing(p.emptyComp)| < 0x1_0000_0000)
  {
    hide Start, Concat, Lay, PageOff, FileBytes, Low32, Low64;
    PageFound(codec, specs, chunks, totalRows, l, c, j);
    var p := l.placed[c][j];
    Low(p.dataOff); Low(p.nullOff); Low(p.emptyOff);
    Low(|p.dataComp|); Low(|OrNothing(p.nullComp)|); Low(|OrNothing(p.emptyComp)|);
  }

  // ---------- the whole way through the file ----------

  /** The reader's way to the index block of a chunk: the table of contents, and the span in it. */
  function ReadBlock(file: Bytes, h: Header, c: nat): Option<Bytes> {
    var toc := if InFile(file, h.indexOff, 8 * h.nchunks) then ReadToc(At(file, h.indexOff, 8 * h.nchunks), h.nchunks)
               else None;
    var span := if toc.Some? then IndexSpan(toc.value, h, c) else Err(NoToc);
    if span.Err? || !InFile(file, span.value.0, span.value.1) then None
    else Some(At(file, span.value.0, span.value.1))
  }

  /** Its way to the entries: the header, the block, the decompressed block. */
  function ReadEntries(codec: Codec, file: Bytes, c: nat): Option<seq<IndexEntry>> {
    var h := ParseHeader(file);
    var block := if h.Some? then ReadBlock(file, h.value, c) else None;
    var raw := if block.Some? then codec.decompress(block.value, h.value.ncols * INDEX_ENTRY_BYTES) else None;
    if raw.Some? then ParseEntries(raw.value, h.value.ncols) else None
  }

  /** An entry leads to the page that was given to the writer, and says about it what was given. */
  ghost predicate LeadsTo(file: Bytes, e: IndexEntry, given: Page) {
    && InFile(file, e.dataOff, e.dataCompLen) && At(file, e.dataOff, e.dataCompLen) == given.dataComp
    && (given.nullComp.Some? ==>
          InFile(file, e.nullOff, e.nullCompLen) && At(file, e.nullOff, e.nullCompLen) == given.nullComp.value)
    && (given.emptyComp.Some? ==>
          InFile(file, e.emptyOff, e.emptyCompLen) && At(file, e.emptyOff, e.emptyCompLen) == given.emptyComp.value)
    && (given.nullComp.None? ==> e.nullCompLen == 0) && (given.emptyComp.None? ==> e.emptyCompLen == 0)
    && e.dataRawLen == given.dataRawLen && e.nullRawLen == given.nullRawLen && e.emptyRawLen == given.emptyRawLen
    && e.emptyMode == given.emptyMode && e.emptyCount == given.emptyCount
    && e.min == given.min && e.max == given.max && e.presence == given.presence
  }

  /** The page parts have lengths of 32 bits. */
  predicate ShortParts(p: Page) {
    |p.dataComp| < 0x1_0000_0000 && |OrNothing(p.nullComp)| < 0x1_0000_0000 && |OrNothing(p.emptyComp)| < 0x1_0000_0000
  }

  lemma EntryLeads(codec: Codec, specs: seq<Spec>, chunks: seq<seq<Page>>, totalRows: u64, l: Layout, c: nat, j: nat)
    requires Written(codec, specs, chunks, totalRows, l) && c < |chunks| && j < |chunks[c]| && ShortParts(chunks[c][j])
    ensures |l.placed| == |chunks| && |l.placed[c]| == |chunks[c]|
    ensures LeadsTo(FileBytes(l), EntriesFor(l.placed[c])[j], chunks[c][j])
  {
    hide Start, Concat, Lay, PageOff, FileBytes, Low32, Low64;
    PageFound(codec, specs, chunks, totalRows, l, c, j);
    EntryPoints(codec, specs, chunks, totalRows, l, c, j);
  }

  /**
   Reading the bytes of a written file leads from the header to every page that was given, unless its chunk's block or
   the page itself is too long for 32 bits.
   */
  lemma FileReadsBack(codec: Codec, specs: seq<Spec>, chunks: seq<seq<Page>>, totalRows: u64, l: Layout, c: nat, j: nat)
    requires Inverse(codec) && Written(codec, specs, chunks, totalRows, l)
    requires c < |chunks| && j < |chunks[c]| == |specs| && ShortParts(chunks[c][j])
    requires |l.blocks| == |chunks| && |l.blocks[c]| < 0x1_0000_0000
    ensures
      var entries := ReadEntries(codec, FileBytes(l), c);
      entries.Some? && |entries.value| == |specs| && LeadsTo(FileBytes(l), entries.value[j], chunks[c][j])
  {
    hide Start, Concat, Lay, FileBytes, ParseHeader, ReadToc, IndexSpan, ParseEntries, LeadsTo, EntriesFor, Written;
    HeaderCounts(codec, specs, chunks, totalRows, l);
    TocFound(codec, specs, chunks, totalRows, l);
    SpanFound(codec, specs, chunks, totalRows, l, c);
    EntriesFound(codec, specs, chunks, totalRows, l, c);
    EntryLeads(codec, specs, chunks, totalRows, l, c, j);
  }

  lemma HeaderCounts(codec: Codec, specs: seq<Spec>, chunks: seq<seq<Page>>, totalRows: u64, l: Layout)
    requires Written(codec, specs, chunks, totalRows, l)
    ensures ParseHeader(FileBytes(l)) == Some(l.header) && l.header.ncols == |specs| && l.header.nchunks == |chunks|
  {
    hide Start, Concat, Lay, FileBytes, ParseHeader, Written;
    HeaderFound(codec, specs, chunks, totalRows, l);
  }

  // ---------- which null pages are asked for ----------

  /** Whether the reader asks for the null page of a column. */
  predicate NullPageRequested(column: Column, e: IndexEntry) {
    IsNullable(column) && e.nullOff != NULL_SENTINEL && e.nullCompLen > 0
  }

  /**
   The reader compares offsets with the 32-bit sentinel, the writer stores the 64-bit one. A null page that is
   absent is still never asked for, because its length is zero; one that is there is missed exactly when it is
   empty modulo 2^32 or happens to stand at the offset 2^32 - 1.
   */
  lemma NullPageAsked(column: Column, p: Page, cursor: nat)
    requires cursor + |PageBytes(p)| < 0x1_0000_0000_0000_0000
    ensures
      var e := EntryFor(Placed(p, cursor));
      NullPageRequested(column, e) <==>
        && column.flags % 2 == 1 && p.nullComp.Some?
        && |p.nullComp.value| % 0x1_0000_0000 > 0 && cursor + |p.dataComp| != 0xFFFF_FFFF
  {
    Low(cursor + |p.dataComp|);
  }

  // ---------- page payloads ----------

  /** A page is stored raw unless compression makes it shorter. */
  function StorePayload(codec: Codec, raw: Bytes): Bytes {
    var compressed := codec.compress(raw);
    if |compressed| >= |raw| then raw else compressed
  }

  /** The reader takes a page whose two lengths agree as raw. `None`: it reports an error. */
  function LoadPayload(codec: Codec, stored: Bytes, rawLen: nat): Option<Bytes> {
    if |stored| == 0 && rawLen != 0 then None
    else if |stored| == rawLen then Some(stored)
    else codec.decompress(stored, rawLen)
  }

  /** A stored page loads as what was stored, unless the compressor makes nothing out of something. */
  lemma PayloadRoundTrip(codec: Codec, raw: Bytes)
    requires Inverse(codec)
    ensures LoadPayload(codec, StorePayload(codec, raw), |raw|) == Some(raw) <==> raw == [] || codec.compress(raw) != []
  {
  }
}

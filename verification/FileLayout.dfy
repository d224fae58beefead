/**
 The layout of a file: the writer places pages and index blocks with running cursors, and lays header,
 schema, table of contents, index blocks, dictionaries, padding and pages end to end.
 */
module FileLayout {
  import opened DictSection
  import opened FileRecords
  import opened LittleEndian
  import opened Sections
  import opened Wrappers

  // ---------- pages ----------

  /** A compressed page of one column in one chunk, with the offsets the writer assigns. */
  datatype Page = Page(
    dataComp: Bytes, dataRawLen: u32, nullComp: Option<Bytes>, nullRawLen: u32,
    emptyMode: byte, emptyCount: u32, emptyComp: Option<Bytes>, emptyRawLen: u32,
    min: u64, max: u64, presence: u64,
    dataOff: nat, nullOff: nat, emptyOff: nat)

  function OrNothing(b: Option<Bytes>): Bytes {
    if b.Some? then b.value else []
  }

  function PageBytes(p: Page): Bytes {
    p.dataComp + OrNothing(p.nullComp) + OrNothing(p.emptyComp)
  }

  /** The page placed at `cursor`. */
  function Placed(p: Page, cursor: nat): Page {
    p.(dataOff := cursor,
       nullOff := if p.nullComp.Some? then cursor + |p.dataComp| else NULL_SENTINEL_U64,
       emptyOff := if p.emptyComp.Some? then cursor + |p.dataComp| + |OrNothing(p.nullComp)| else NULL_SENTINEL_U64)
  }

  function PageParts(chunk: seq<Page>): (parts: seq<Bytes>)
    ensures |parts| == |chunk|
  {
    seq(|chunk|, j requires 0 <= j < |chunk| => PageBytes(chunk[j]))
  }

  function ChunkBytes(chunk: seq<Page>): Bytes {
    Concat(PageParts(chunk))
  }

  function ChunkParts(chunks: seq<seq<Page>>): (parts: seq<Bytes>)
    ensures |parts| == |chunks|
  {
    seq(|chunks|, c requires 0 <= c < |chunks| => ChunkBytes(chunks[c]))
  }

  function DataBytes(chunks: seq<seq<Page>>): Bytes {
    Concat(ChunkParts(chunks))
  }

  function PlacedChunk(chunk: seq<Page>, cursor: nat): (placed: seq<Page>)
    ensures |placed| == |chunk|
  {
    seq(|chunk|, j requires 0 <= j < |chunk| => Placed(chunk[j], cursor + Start(PageParts(chunk), j)))
  }

  /** Every page at the end of those before it. */
  function PlacedChunks(chunks: seq<seq<Page>>, dataOff: nat): (placed: seq<seq<Page>>)
    ensures |placed| == |chunks|
  {
    seq(|chunks|, c requires 0 <= c < |chunks| => PlacedChunk(chunks[c], dataOff + Start(ChunkParts(chunks), c)))
  }

  /** One chunk of the writer's placing loop. */
  method PlaceChunk(chunk: seq<Page>, start: nat) returns (placed: seq<Page>, cursor: nat)
    ensures placed == PlacedChunk(chunk, start) && cursor == start + |ChunkBytes(chunk)|
  {
    hide Concat, Start;
    ghost var parts := PageParts(chunk);
    StartEnds(parts);
    placed, cursor := [], start;
    for j := 0 to |chunk|
      invariant cursor == start + Start(parts, j) && |placed| == j
      invariant forall i :: 0 <= i < j ==> placed[i] == PlacedChunk(chunk, start)[i]
    {
      StartStep(parts, j);
      var page := chunk[j].(dataOff := cursor);
      cursor := cursor + |page.dataComp|;
      if page.nullComp.Some? {
        page := page.(nullOff := cursor);
        cursor := cursor + |page.nullComp.value|;
      } else {
        page := page.(nullOff := NULL_SENTINEL_U64);
      }
      if page.emptyComp.Some? {
        page := page.(emptyOff := cursor);
        cursor := cursor + |page.emptyComp.value|;
      } else {
        page := page.(emptyOff := NULL_SENTINEL_U64);
      }
      placed := placed + [page];
    }
    assert placed == PlacedChunk(chunk, start);
  }

  /** The placing loop, updating the chunks in place. */
  method PlacePages(chunks: array<seq<Page>>, dataOff: nat) returns (cursor: nat)
    modifies chunks
    ensures chunks[..] == PlacedChunks(old(chunks[..]), dataOff)
    ensures cursor == dataOff + |DataBytes(old(chunks[..]))|
  {
    hide Concat, Start, PlacedChunk, ChunkBytes;
    ghost var before := chunks[..];
    ghost var parts := ChunkParts(before);
    StartEnds(parts);
    cursor := dataOff;
    for c := 0 to chunks.Length
      invariant cursor == dataOff + Start(parts, c)
      invariant forall i :: c <= i < chunks.Length ==> chunks[i] == before[i]
      invariant forall i :: 0 <= i < c ==> chunks[i] == PlacedChunks(before, dataOff)[i]
    {
      StartStep(parts, c);
      var placed, next := PlaceChunk(chunks[c], cursor);
      chunks[c] := placed;
      cursor := next;
    }
    assert chunks[..] == PlacedChunks(before, dataOff);
  }

  // ---------- the chunk index ----------

  function Low32(n: nat): u32 {
    n % 0x1_0000_0000
  }

  function Low64(n: nat): u64 {
    n % 0x1_0000_0000_0000_0000
  }

  /** The index entry of a placed page; lengths are cast to 32 bits. */
  function EntryFor(p: Page): IndexEntry {
    IndexEntry(Low64(p.dataOff), Low32(|p.dataComp|), p.dataRawLen, Low64(p.nullOff), Low32(|OrNothing(p.nullComp)|),
      p.nullRawLen,
      p.emptyMode, p.emptyCount, Low64(p.emptyOff), Low32(|OrNothing(p.emptyComp)|), p.emptyRawLen, p.min, p.max,
        p.presence)
  }

  function EntriesFor(chunk: seq<Page>): (entries: seq<IndexEntry>)
    ensures |entries| == |chunk|
  {
    seq(|chunk|, j requires 0 <= j < |chunk| => EntryFor(chunk[j]))
  }

  function IndexBytes(chunk: seq<Page>): Bytes {
    Concat(EntryParts(EntriesFor(chunk)))
  }

  /** The block compressor and its inverse, which is given the raw length. */
  datatype Codec = Codec(compress: Bytes -> Bytes, decompress: (Bytes, nat) -> Option<Bytes>)

  ghost predicate Inverse(codec: Codec) {
    forall b: Bytes :: codec.decompress(codec.compress(b), |b|) == Some(b)
  }

  function IndexBlocks(codec: Codec, placed: seq<seq<Page>>): (blocks: seq<Bytes>)
    ensures |blocks| == |placed|
  {
    seq(|placed|, c requires 0 <= c < |placed| => codec.compress(IndexBytes(placed[c])))
  }

  /** The offset of every block, the first one standing right after the table of contents. */
  function Toc(blocks: seq<Bytes>, indexOff: nat): (toc: seq<nat>)
    ensures |toc| == |blocks|
  {
    seq(|blocks|, c requires 0 <= c < |blocks| => indexOff + 8 * |blocks| + Start(blocks, c))
  }

  method TocLoop(blocks: seq<Bytes>, indexOff: nat) returns (toc: seq<nat>, indexLen: nat)
    ensures toc == Toc(blocks, indexOff) && indexLen == 8 * |blocks| + |Concat(blocks)|
  {
    hide Concat, Start;
    toc := [];
    var offset := indexOff + 8 * |blocks|;
    StartEnds(blocks);
    for c := 0 to |blocks|
      invariant offset == indexOff + 8 * |blocks| + Start(blocks, c) && |toc| == c
      invariant forall i :: 0 <= i < c ==> toc[i] == Toc(blocks, indexOff)[i]
    {
      StartStep(blocks, c);
      toc := toc + [offset];
      offset := offset + |blocks[c]|;
    }
    indexLen := offset - indexOff;
    assert toc == Toc(blocks, indexOff);
  }

  function TocFields(toc: seq<nat>): (fields: seq<Field>)
    ensures |fields| == |toc|
  {
    seq(|toc|, c requires 0 <= c < |toc| => Field(8, toc[c]))
  }

  function TocBytes(toc: seq<nat>): Bytes {
    Pack(TocFields(toc))
  }

  lemma NoFields(fields: seq<Field>)
    ensures FieldStart(fields, 0) == 0
  {
  }

  lemma {:induction false} TocStart(toc: seq<nat>, c: nat)
    requires c <= |toc|
    ensures FieldStart(TocFields(toc), c) == 8 * c
    ensures c == |toc| ==> |TocBytes(toc)| == 8 * |toc|
    decreases c
  {
    hide FieldStart, Pack;
    NoFields(TocFields(toc));
    FieldEnds(TocFields(toc));
    if c == 0 {
    } else {
      TocStart(toc, c - 1);
      FieldStep(TocFields(toc), c - 1);
    }
  }

  // ---------- the writer ----------

  /** A column as the encoder holds it: its schema entry and its dictionary values. */
  datatype Spec = Spec(column: Column, dictValues: seq<Bytes>)

  function Columns(specs: seq<Spec>): (cols: seq<Column>)
    ensures |cols| == |specs|
  {
    seq(|specs|, i requires 0 <= i < |specs| => specs[i].column)
  }

  predicate IsDict(s: Spec) {
    s.column.flags / FLAG_DICT % 2 == 1
  }

  function DictColumns(specs: seq<Spec>): seq<DictColumn>
    decreases |specs|
  {
    if specs == [] then []
    else
      var last := specs[|specs| - 1];
      DictColumns(specs[..|specs| - 1]) + if IsDict(last) then [DictColumn(last.column.dictId, last.dictValues)] else []
  }

  /** The column's flags have the second bit, and the dictionary has its id and values. */
  predicate GivesDict(s: Spec, d: DictColumn) {
    s.column.flags % 4 >= 2 && d == DictColumn(s.column.dictId, s.dictValues)
  }

  lemma LastDict(specs: seq<Spec>, d: DictColumn)
    requires specs != []
    ensures
      var n := |specs| - 1;
      d in DictColumns(specs) <==> d in DictColumns(specs[..n]) || GivesDict(specs[n], d)
  {
    var last := specs[|specs| - 1];
    assert GivesDict(last, d) <==> IsDict(last) && d == DictColumn(last.column.dictId, last.dictValues);
  }

  /** The dictionaries that are written are those of the columns whose flags have the second bit. */
  lemma {:induction false} DictColumnsExactly(specs: seq<Spec>, d: DictColumn)
    ensures d in DictColumns(specs) <==> exists i :: 0 <= i < |specs| && GivesDict(specs[i], d)
    decreases |specs|
  {
    hide GivesDict;
    if specs != [] {
      var n := |specs| - 1;
      var first := specs[..n];
      LastDict(specs, d);
      hide DictColumns;
      DictColumnsExactly(first, d);
      if i :| 0 <= i < n && GivesDict(first[i], d) { assert specs[i] == first[i]; }
      if i :| 0 <= i < n && GivesDict(specs[i], d) { assert first[i] == specs[i]; }
    }
  }

  /** The dictionary section is stored compressed when that is shorter. */
  function StoredDicts(codec: Codec, raw: Bytes): (Bytes, u16) {
    if raw == [] then (raw, 0)
    else
      var compressed := codec.compress(raw);
      if |compressed| < |raw| then (compressed, 1) else (raw, 0)
  }

  /** What is stored is the shorter of the section and its compressed form, and the section itself when neither is. */
  lemma ShorterIsStored(codec: Codec, raw: Bytes)
    requires raw != []
    ensures
      var (stored, flags) := StoredDicts(codec, raw);
      && |stored| <= |raw| && |stored| <= |codec.compress(raw)|
      && (if flags == 0 then stored == raw else flags == 1 && stored == codec.compress(raw) && |stored| < |raw|)
  {
  }

  datatype Error = NameTooLong | DictTooLong | DataOffsetUnderflow

  /** Everything the writer works out before it writes. */
  datatype Layout = Layout(
    header: Header, schema: Bytes, toc: seq<nat>, blocks: seq<Bytes>, dict: Bytes, padding: nat, placed: seq<seq<Page>>)

  function IndexLen(blocks: seq<Bytes>): nat {
    8 * |blocks| + |Concat(blocks)|
  }

  /** Room for the table of contents and the uncompressed index. */
  function MaxIndexLen(ncols: nat, nchunks: nat): nat {
    8 * nchunks + ncols * INDEX_ENTRY_BYTES * nchunks
  }

  /** Where the pages start: after room for the header, the schema, the dictionaries and the largest index. */
  function DataStart(schemaLen: nat, dictLen: nat, ncols: nat, nchunks: nat): nat {
    HEADER_BYTES + schemaLen + dictLen + MaxIndexLen(ncols, nchunks)
  }

  function HeaderFor(ncols: nat, nchunks: nat, schemaLen: nat, indexLen: nat, dictLen: nat, rawLen: nat, dataOff: nat,
        totalRows: u64, flags: u16): Header
  {
    var indexOff := HEADER_BYTES + schemaLen;
    Header(WCOL_VERSION, flags, Low32(ncols), Low32(nchunks), ROWS_PER_CHUNK, totalRows,
      Low64(HEADER_BYTES), Low64(schemaLen), Low64(indexOff), Low64(indexLen), Low64(indexOff + indexLen),
        Low64(dictLen),
      Low64(dataOff), Low64(rawLen))
  }

  /** The layout once the schema and the dictionary section are built. */
  function LayOut(codec: Codec, ncols: nat, schema: Bytes, rawDict: Bytes, chunks: seq<seq<Page>>,
        totalRows: u64): Result<Layout, Error> {
    var dict := StoredDicts(codec, rawDict);
    var dataOff := DataStart(|schema|, |dict.0|, ncols, |chunks|);
    var placed := PlacedChunks(chunks, dataOff);
    var blocks := IndexBlocks(codec, placed);
    var dictEnd := HEADER_BYTES + |schema| + IndexLen(blocks) + |dict.0|;
    if dataOff < dictEnd then Err(DataOffsetUnderflow)
    else
      var header := HeaderFor(ncols, |chunks|, |schema|, IndexLen(blocks), |dict.0|, |rawDict|, dataOff, totalRows,
        dict.1);
      Ok(Layout(header, schema, Toc(blocks, HEADER_BYTES + |schema|), blocks, dict.0, dataOff - dictEnd, placed))
  }

  function Lay(codec: Codec, specs: seq<Spec>, chunks: seq<seq<Page>>, totalRows: u64): Result<Layout, Error> {
    var schema := BuildSchema(Columns(specs));
    var rawDict := BuildDicts(DictColumns(specs));
    if schema.None? then Err(NameTooLong)
    else if rawDict.None? then Err(DictTooLong)
    else LayOut(codec, |specs|, schema.value, rawDict.value, chunks, totalRows)
  }

  function FileParts(l: Layout): (parts: seq<Bytes>)
    ensures |parts| == 7
  {
    [BuildHeader(l.header), l.schema, TocBytes(l.toc), Concat(l.blocks), l.dict, Zeros(l.padding), DataBytes(l.placed)]
  }

  function FileBytes(l: Layout): Bytes {
    Concat(FileParts(l))
  }

  /** What is written before the writer finds that the index is too long: everything up to the dictionary section. */
  function FrontOf(codec: Codec, ncols: nat, schema: Bytes, rawDict: Bytes, placed: seq<seq<Page>>,
      totalRows: u64): Bytes {
    var dict, blocks := StoredDicts(codec, rawDict), IndexBlocks(codec, placed);
    var header := HeaderFor(ncols, |placed|, |schema|, IndexLen(blocks), |dict.0|, |rawDict|,
                            DataStart(|schema|, |dict.0|, ncols, |placed|), totalRows, dict.1);
    BuildHeader(header) + schema + TocBytes(Toc(blocks, HEADER_BYTES + |schema|)) + Concat(blocks) + dict.0
  }

  /**
   The bytes of the written file, and what the file holds afterwards if it was made: all of them, or its front. Pages
   get their offsets as soon as the schema and the dictionary section are built, even if the index then turns out too
   long.
   */
  method WriteWcol(codec: Codec, specs: seq<Spec>, chunks: array<seq<Page>>,
                   totalRows: u64) returns (r: Result<Bytes, Error>, file: Option<Bytes>)
    modifies chunks
    ensures
      var l := Lay(codec, specs, old(chunks[..]), totalRows);
      && (l.Ok? <==> r.Ok?) && (r.Ok? ==> r.value == FileBytes(l.value)) && (r.Err? ==> r.error == l.error)
      && (r.Ok? ==> chunks[..] == l.value.placed)
      && (r.Ok? ==> file == Some(r.value))
    ensures r == Err(NameTooLong) || r == Err(DictTooLong) ==> chunks[..] == old(chunks[..]) && file == None
    ensures r == Err(DataOffsetUnderflow) ==>
      var schema, raw := OrNothing(BuildSchema(Columns(specs))), OrNothing(BuildDicts(DictColumns(specs)));
      && chunks[..]
         == PlacedChunks(old(chunks[..]), DataStart(|schema|, |StoredDicts(codec, raw).0|, |specs|, chunks.Length))
      && file == Some(FrontOf(codec, |specs|, schema, raw, chunks[..], totalRows))
  {
    hide BuildSchema, BuildDicts, PlacedChunks, IndexBlocks, Toc, Concat, DataBytes, TocBytes, HeaderFor, DataStart;
    ghost var before := chunks[..];
    var schema := BuildSchemaLoop(Columns(specs));
    if schema.None? { return Err(NameTooLong), None; }
    var rawDict := BuildDictsLoop(DictColumns(specs));
    if rawDict.None? { return Err(DictTooLong), None; }
    var (dict, flags) := StoredDicts(codec, rawDict.value);
    var indexOff := HEADER_BYTES + |schema.value|;
    var dataOff := DataStart(|schema.value|, |dict|, |specs|, chunks.Length);
    var cursor := PlacePages(chunks, dataOff);
    var placed := chunks[..];
    var blocks := IndexBlocks(codec, placed);
    var toc, indexLen := TocLoop(blocks, indexOff);
    var header := HeaderFor(|specs|, chunks.Length, |schema.value|, indexLen, |dict|, |rawDict.value|, dataOff,
      totalRows, flags);
    var dictEnd := indexOff + indexLen + |dict|;
    var bytes := BuildHeader(header) + schema.value + TocBytes(toc);
    bytes := bytes + Concat(blocks);
    bytes := bytes + dict;
    if dataOff < dictEnd { return Err(DataOffsetUnderflow), Some(bytes); }
    var l := Layout(header, schema.value, toc, blocks, dict, dataOff - dictEnd, placed);
    bytes := bytes + Zeros(dataOff - dictEnd);
    bytes := bytes + DataBytes(placed);
    SevenParts(BuildHeader(header), schema.value, TocBytes(toc), Concat(blocks), dict, Zeros(dataOff - dictEnd),
      DataBytes(placed));
    assert FileParts(l) == [BuildHeader(header), schema.value, TocBytes(toc), Concat(blocks), dict,
      Zeros(dataOff - dictEnd), DataBytes(placed)];
    return Ok(bytes), Some(bytes);
  }

  lemma SevenParts(a: Bytes, b: Bytes, c: Bytes, d: Bytes, e: Bytes, f: Bytes, g: Bytes)
    ensures Concat([a, b, c, d, e, f, g]) == a + b + c + d + e + f + g
  {
    hide Concat;
    ConcatOne(a);
    assert [a] + [b] == [a, b] && [a, b] + [c] == [a, b, c] && [a, b, c] + [d] == [a, b, c, d];
    assert [a, b, c, d] + [e] == [a, b, c, d, e] && [a, b, c, d, e] + [f] == [a, b, c, d, e, f];
    assert [a, b, c, d, e, f] + [g] == [a, b, c, d, e, f, g];
    ConcatSnoc([a], b);
    ConcatSnoc([a, b], c);
    ConcatSnoc([a, b, c], d);
    ConcatSnoc([a, b, c, d], e);
    ConcatSnoc([a, b, c, d, e], f);
    ConcatSnoc([a, b, c, d, e, f], g);
  }
}

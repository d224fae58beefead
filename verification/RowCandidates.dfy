/** The wire form of row candidates, the plan that collects them, and the whole ORDER BY pipeline. */
module RowCandidates {
  import opened Wrappers
  import opened Ordering
  import opened LittleEndian
  import opened RowOrder
  import opened TopK
  import opened RowPhase

  const HEADER_SIZE: nat := 36

  // ---------- the wire form ----------

  function KeyLen(k: RowKey): nat {
    if k.Bytes? then |k.data| else 0
  }

  function KeyData(k: RowKey): seq<byte> {
    if k.Bytes? then k.data else []
  }

  function KeyNum(k: RowKey): F64 {
    if k.Num? then k.v else 0
  }

  function K1Type(k: RowKey): byte {
    match k
    case Num(_) => 0
    case Bytes(_) => 1
    case Null => 2
  }

  function K2Type(k: Option<RowKey>): byte {
    match k
    case None => 0
    case Some(Num(_)) => 1
    case Some(Bytes(_)) => 2
    case Some(Null) => 3
  }

  /** An absent second key is written like one without number and bytes. */
  function K2OrNull(k: Option<RowKey>): RowKey {
    if k.Some? then k.value else Null
  }

  /** A candidate whose key lengths fit their 32-bit fields. */
  predicate Encodable(c: Candidate) {
    KeyLen(c.k1) < 0x1_0000_0000 && KeyLen(K2OrNull(c.k2)) < 0x1_0000_0000
  }

  function Header(c: Candidate): (r: seq<byte>)
    ensures |r| == HEADER_SIZE
  {
    var k2 := K2OrNull(c.k2);
    ToLe(c.rowId, 8) + [K1Type(c.k1), K2Type(c.k2), 0, 0]
    + ToLe(KeyNum(c.k1), 8) + ToLe(KeyNum(k2), 8) + ToLe(KeyLen(c.k1), 4) + ToLe(KeyLen(k2), 4)
  }

  function Encode(c: Candidate): seq<byte> {
    Header(c) + KeyData(c.k1) + KeyData(K2OrNull(c.k2))
  }

  function EncodeAll(cs: seq<Candidate>): seq<byte> {
    if cs == [] then [] else EncodeAll(cs[..|cs| - 1]) + Encode(cs[|cs| - 1])
  }

  datatype Decoded = Got(c: Candidate, next: nat) | Bad

  /** Reads the candidate at `off`. */
  function DecodeAt(b: seq<byte>, off: nat): (r: Decoded)
    ensures r.Got? ==> off + HEADER_SIZE <= r.next <= |b|
  {
    if off + HEADER_SIZE > |b| then Bad
    else
      Widths();
      var rowId := ReadLe(b, off, 8);
      var k1Type, k2Type := b[off + 8], b[off + 9];
      var k1Num, k2Num := ReadLe(b, off + 12, 8), ReadLe(b, off + 20, 8);
      var k1Len, k2Len := ReadLe(b, off + 28, 4), ReadLe(b, off + 32, 4);
      var at1 := off + HEADER_SIZE;
      if k1Type > 2 || (k1Type == 1 && at1 + k1Len > |b|) then Bad
      else
        var at2 := if k1Type == 1 then at1 + k1Len else at1;
        var k1 := if k1Type == 0 then Num(k1Num) else if k1Type == 1 then Bytes(b[at1..at2]) else Null;
        if k2Type > 3 || (k2Type == 2 && at2 + k2Len > |b|) then Bad
        else
          var end := if k2Type == 2 then at2 + k2Len else at2;
          var k2 := if k2Type == 0 then None else if k2Type == 1 then Some(Num(k2Num))
                    else if k2Type == 2 then Some(Bytes(b[at2..end])) else Some(Null);
          Got(Candidate(k1, k2, rowId), end)
  }

  /** How many bytes of keys a header announces. */
  function KeyBytes(b: seq<byte>, off: nat): nat
    requires off + 36 <= |b|
  {
    (if b[off + 8] == 1 then ReadLe(b, off + 28, 4) else 0) + (if b[off + 9] == 2 then ReadLe(b, off + 32, 4) else 0)
  }

  /**
   What is refused: a header or keys that the buffer has no room for, and kinds of keys that do not exist. What is read
   ends behind its keys.
   */
  lemma RefusedExactly(b: seq<byte>, off: nat)
    ensures DecodeAt(b, off).Bad? <==>
      off + 36 > |b| || b[off + 8] > 2 || b[off + 9] > 3 || off + 36 + KeyBytes(b, off) > |b|
    ensures DecodeAt(b, off).Got? ==> DecodeAt(b, off).next == off + 36 + KeyBytes(b, off)
  {
    hide ReadLe;
  }

  /** Where each field lies in the header. */
  lemma HeaderFields(c: Candidate)
    ensures
      var h := Header(c);
      var k2 := K2OrNull(c.k2);
      && h[0..8] == ToLe(c.rowId, 8) && h[8] == K1Type(c.k1) && h[9] == K2Type(c.k2)
      && h[12..20] == ToLe(KeyNum(c.k1), 8) && h[20..28] == ToLe(KeyNum(k2), 8)
      && h[28..32] == ToLe(KeyLen(c.k1), 4) && h[32..36] == ToLe(KeyLen(k2), 4)
  {
    hide ToLe;
  }

  /** Slices of a buffer that holds `e` at `off` are slices of `e`. */
  lemma SliceOf(b: seq<byte>, off: nat, e: seq<byte>, lo: nat, hi: nat)
    requires lo <= hi <= |e| && off + |e| <= |b| && b[off..off + |e|] == e
    ensures b[off + lo..off + hi] == e[lo..hi]
  {
    forall i | 0 <= i < hi - lo ensures b[off + lo..off + hi][i] == e[lo..hi][i] {
      assert b[off..off + |e|][lo + i] == b[off + lo + i];
    }
  }

  /** Reading a candidate where it was written gives it back, and the place after it. */
  lemma DecodeEncoded(b: seq<byte>, off: nat, c: Candidate)
    requires Encodable(c) && off + |Encode(c)| <= |b| && b[off..off + |Encode(c)|] == Encode(c)
    ensures DecodeAt(b, off) == Got(c, off + |Encode(c)|)
  {
    hide Header, ReadLe, Encode, DecodeAt;
    DecodeFields(b, off, c);
    DecodeKeys(b, off, c);
    KeysDecoded(b, off, c);
  }

  /** Where the bytes of the keys lie. */
  lemma DecodeKeys(b: seq<byte>, off: nat, c: Candidate)
    requires off + |Encode(c)| <= |b| && b[off..off + |Encode(c)|] == Encode(c)
    ensures
      var at1, n1, n2 := off + HEADER_SIZE, |KeyData(c.k1)|, |KeyData(K2OrNull(c.k2))|;
      && |Encode(c)| == HEADER_SIZE + n1 + n2
      && b[at1..at1 + n1] == KeyData(c.k1) && b[at1 + n1..at1 + n1 + n2] == KeyData(K2OrNull(c.k2))
  {
    hide Header, KeyData;
    var e, n1, n2 := Encode(c), |KeyData(c.k1)|, |KeyData(K2OrNull(c.k2))|;
    SliceOf(b, off, e, HEADER_SIZE, HEADER_SIZE + n1);
    SliceOf(b, off, e, HEADER_SIZE + n1, HEADER_SIZE + n1 + n2);
    assert e[HEADER_SIZE..HEADER_SIZE + n1] == KeyData(c.k1);
    assert e[HEADER_SIZE + n1..HEADER_SIZE + n1 + n2] == KeyData(K2OrNull(c.k2));
  }

  /** Given the fields and the bytes of the keys, decoding puts the candidate together. */
  lemma KeysDecoded(b: seq<byte>, off: nat, c: Candidate)
    requires
      var k2, n1, n2 := K2OrNull(c.k2), KeyLen(c.k1), KeyLen(K2OrNull(c.k2));
      var at1 := off + HEADER_SIZE;
      && at1 + n1 + n2 <= |b|
      && ReadLe(b, off, 8) == c.rowId && b[off + 8] == K1Type(c.k1) && b[off + 9] == K2Type(c.k2)
      && ReadLe(b, off + 12, 8) == KeyNum(c.k1) && ReadLe(b, off + 20, 8) == KeyNum(k2)
      && ReadLe(b, off + 28, 4) == n1 && ReadLe(b, off + 32, 4) == n2
      && b[at1..at1 + n1] == KeyData(c.k1) && b[at1 + n1..at1 + n1 + n2] == KeyData(k2)
    ensures DecodeAt(b, off) == Got(c, off + HEADER_SIZE + KeyLen(c.k1) + KeyLen(K2OrNull(c.k2)))
  {
    hide ReadLe;
  }

  lemma DecodeFields(b: seq<byte>, off: nat, c: Candidate)
    requires Encodable(c) && off + |Encode(c)| <= |b| && b[off..off + |Encode(c)|] == Encode(c)
    ensures
      var k2 := K2OrNull(c.k2);
      && ReadLe(b, off, 8) == c.rowId && b[off + 8] == K1Type(c.k1) && b[off + 9] == K2Type(c.k2)
      && ReadLe(b, off + 12, 8) == KeyNum(c.k1) && ReadLe(b, off + 20, 8) == KeyNum(k2)
      && ReadLe(b, off + 28, 4) == KeyLen(c.k1) && ReadLe(b, off + 32, 4) == KeyLen(k2)
  {
    hide ToLe, FromLe;
    var e, h := Encode(c), Header(c);
    var k2 := K2OrNull(c.k2);
    Widths();
    HeaderFields(c);
    assert e[..HEADER_SIZE] == h;
    HeaderPart(b, off, e, h, 0, 8, c.rowId);
    HeaderPart(b, off, e, h, 12, 8, KeyNum(c.k1));
    HeaderPart(b, off, e, h, 20, 8, KeyNum(k2));
    HeaderPart(b, off, e, h, 28, 4, KeyLen(c.k1));
    HeaderPart(b, off, e, h, 32, 4, KeyLen(k2));
    assert b[off + 8] == b[off..off + |e|][8] == e[8] == h[8];
    assert b[off + 9] == b[off..off + |e|][9] == e[9] == h[9];
  }

  lemma HeaderPart(b: seq<byte>, off: nat, e: seq<byte>, h: seq<byte>, at: nat, n: nat, v: nat)
    requires off + |e| <= |b| && b[off..off + |e|] == e && |h| <= |e| && e[..|h|] == h
    requires at + n <= |h| && h[at..at + n] == ToLe(v, n) && v < Pow256(n)
    ensures ReadLe(b, off + at, n) == v
  {
    hide ToLe, FromLe;
    SliceOf(b, off, e, at, at + n);
    assert e[..|h|][at..at + n] == e[at..at + n];
    LeRoundTrip(v, n);
  }

  // ---------- merging a buffer ----------

  /** Pushes the candidates of a buffer from `off` on; a bad one ends with code -2 and keeps those before it. */
  ghost function MergeFrom(b: seq<byte>, off: nat, heap: multiset<Candidate>, take: nat): (multiset<Candidate>, int)
    requires off <= |b|
    decreases |b| - off
  {
    if off == |b| then (heap, 0)
    else
      match DecodeAt(b, off)
      case Bad => (heap, -2)
      case Got(c, next) => MergeFrom(b, next, Push(heap, c, take), take)
  }

  lemma {:induction false} EncodeAllPrefix(cs: seq<Candidate>, k: nat)
    requires k < |cs|
    ensures |EncodeAll(cs[..k])| + |Encode(cs[k])| <= |EncodeAll(cs)|
    ensures EncodeAll(cs)[|EncodeAll(cs[..k])|..|EncodeAll(cs[..k])| + |Encode(cs[k])|] == Encode(cs[k])
    ensures |EncodeAll(cs[..k + 1])| == |EncodeAll(cs[..k])| + |Encode(cs[k])|
    decreases |cs|
  {
    hide Encode;
    var n := |cs| - 1;
    assert cs[..k + 1][..k] == cs[..k];
    if k < n {
      EncodeAllPrefix(cs[..n], k);
      assert cs[..n][..k] == cs[..k];
    } else {
      assert cs[..k + 1] == cs;
    }
  }

  /** Merging encoded candidates pushes each of them, in the order they were written. */
  lemma {:induction false} MergeEncoded(cs: seq<Candidate>, k: nat, heap: multiset<Candidate>, take: nat)
    requires k <= |cs| && forall i :: 0 <= i < |cs| ==> Encodable(cs[i])
    ensures |EncodeAll(cs[..k])| <= |EncodeAll(cs)|
    ensures MergeFrom(EncodeAll(cs), |EncodeAll(cs[..k])|, PushAll(heap, cs[..k], take), take)
      == (PushAll(heap, cs, take), 0)
    decreases |cs| - k
  {
    hide Encode, Push, DecodeAt, Encodable;
    var b := EncodeAll(cs);
    if k == |cs| {
      assert cs[..k] == cs;
    } else {
      EncodeAllPrefix(cs, k);
      var off := |EncodeAll(cs[..k])|;
      assert Encodable(cs[k]);
      DecodeEncoded(b, off, cs[k]);
      HeaderLeads(cs[k]);
      MergeEncoded(cs, k + 1, heap, take);
      assert cs[..k + 1][..k] == cs[..k];
      assert PushAll(heap, cs[..k + 1], take) == Push(PushAll(heap, cs[..k], take), cs[k], take);
    }
  }

  lemma EncodeNone(cs: seq<Candidate>)
    ensures EncodeAll(cs[..0]) == []
  {
  }

  lemma EncodeMore(cs: seq<Candidate>, k: nat)
    requires k < |cs|
    ensures EncodeAll(cs[..k + 1]) == EncodeAll(cs[..k]) + Encode(cs[k])
  {
    hide Encode;
    assert cs[..k + 1][..k] == cs[..k];
  }

  lemma HeaderLeads(c: Candidate)
    ensures |Encode(c)| >= HEADER_SIZE
  {
  }

  // ---------- the plan ----------

  class Plan {
    const limit: nat
    const offset: nat
    const usizeMax: nat
    const rowOrderBy: seq<nat>
    var rowHeap: multiset<Candidate>
    var rows: seq<u64>

    constructor (limit: nat, offset: nat, usizeMax: nat, rowOrderBy: seq<nat>)
      ensures this.limit == limit && this.offset == offset && this.usizeMax == usizeMax && this.rowOrderBy == rowOrderBy
      ensures rowHeap == multiset{} && rows == []
    {
      this.limit, this.offset, this.usizeMax, this.rowOrderBy := limit, offset, usizeMax, rowOrderBy;
      rowHeap, rows := multiset{}, [];
    }

    /**
     The row phase over one chunk. A limit of 0 keeps nothing. With ORDER BY every selected row is
     offered to the heap; without it selected rows are appended while there is room.
     */
    method ExecuteRowPhase(ch: ChunkRows, rowsPerChunk: nat)
      requires InChunk(ch, rowsPerChunk)
      modifies this
      ensures limit == 0 ==> rowHeap == old(rowHeap) && rows == old(rows)
      ensures limit != 0 && rowOrderBy != [] ==>
        rowHeap == HeapAfter(old(rowHeap), [ch], rowsPerChunk, TakeCount(limit, offset, usizeMax)) && rows == old(rows)
      ensures limit != 0 && rowOrderBy == [] ==>
        rowHeap == old(rowHeap) && rows == RowsAfter(old(rows), [ch], rowsPerChunk, TakeCount(limit, offset, usizeMax))
    {
      if limit == 0 { return; }
      var rowTake := TakeCount(limit, offset, usizeMax);
      if rowOrderBy != [] {
        ConsiderRows(ch, rowsPerChunk, rowTake);
      } else if |rows| < rowTake {
        AppendRows(ch, rowsPerChunk, rowTake);
      }
    }

    method ConsiderRows(ch: ChunkRows, rowsPerChunk: nat, rowTake: nat)
      requires InChunk(ch, rowsPerChunk)
      modifies this`rowHeap
      ensures rowHeap == PushAll(old(rowHeap), Candidates(ch, rowsPerChunk), rowTake)
    {
      hide Push, InChunk;
      ghost var all := Candidates(ch, rowsPerChunk);
      if ch.keys.None? { return; }
      for i := 0 to |ch.selected|
        invariant rowHeap == PushAll(old(rowHeap), all[..i], rowTake)
      {
        assert all[..i + 1][..i] == all[..i];
        PushCandidate(CandidateOf(ch, rowsPerChunk, i), rowTake);
      }
      assert all[..|ch.selected|] == all;
    }

    method AppendRows(ch: ChunkRows, rowsPerChunk: nat, rowTake: nat)
      requires InChunk(ch, rowsPerChunk) && |rows| < rowTake
      modifies this`rows
      ensures rows == FirstOf(old(rows) + GlobalIds(ch, rowsPerChunk), rowTake)
    {
      ghost var all := GlobalIds(ch, rowsPerChunk);
      var remaining := rowTake - |rows|;
      for i := 0 to Min(remaining, |ch.selected|)
        invariant rows == old(rows) + all[..i]
      {
        rows := rows + [GlobalId(ch, rowsPerChunk, i)];
      }
    }

    /** Below capacity the candidate goes in; at capacity it replaces the root when it is less. */
    method PushCandidate(c: Candidate, take: nat)
      modifies this`rowHeap
      ensures rowHeap == Push(old(rowHeap), c, take)
    {
      if |rowHeap| < take {
        rowHeap := rowHeap + multiset{c};
        return;
      }
      if rowHeap != multiset{} {
        var worst := PeekRoot();
        if CmpCandidate(c, worst) == Less {
          rowHeap := rowHeap - multiset{worst};
          rowHeap := rowHeap + multiset{c};
        }
      }
    }

    /** The root of the heap, found here by scanning it. */
    method PeekRoot() returns (worst: Candidate)
      requires rowHeap != multiset{}
      ensures worst == Worst(rowHeap)
    {
      hide CandidateLe, TotalOrder;
      var left := rowHeap;
      worst :| worst in left;
      TakeOne(rowHeap, left, worst);
      GreaterOf(multiset{}, worst, worst);
      left := left - multiset{worst};
      while left != multiset{}
        invariant left <= rowHeap && worst in rowHeap
        invariant forall x :: x in rowHeap - left ==> CandidateLe(x, worst)
      {
        var c :| c in left;
        TakeOne(rowHeap, left, c);
        GreaterOf(rowHeap - left, worst, c);
        left := left - multiset{c};
        if CandidateLe(worst, c) { worst := c; }
      }
      assert rowHeap - left == rowHeap;
      OneWorst(rowHeap, worst);
    }

    method MergeRowCandidates(bytes: seq<byte>) returns (code: int)
      modifies this`rowHeap
      ensures TakeCount(limit, offset, usizeMax) == 0 || rowOrderBy == [] ==> rowHeap == old(rowHeap) && code == 0
      ensures TakeCount(limit, offset, usizeMax) != 0 && rowOrderBy != [] ==>
        (rowHeap, code) == MergeFrom(bytes, 0, old(rowHeap), TakeCount(limit, offset, usizeMax))
    {
      hide DecodeAt, Push;
      var take := TakeCount(limit, offset, usizeMax);
      if take == 0 || rowOrderBy == [] { return 0; }
      var at := 0;
      while at < |bytes|
        invariant at <= |bytes|
        invariant MergeFrom(bytes, at, rowHeap, take) == MergeFrom(bytes, 0, old(rowHeap), take)
      {
        var d := DecodeAt(bytes, at);
        if d.Bad? { return -2; }
        at := d.next;
        PushCandidate(d.c, take);
      }
      return 0;
    }

    /**
     Writes the heap in some order at the start of the buffer and answers with its size, or answers
     with the size needed and leaves the buffer alone.
     */
    method CopyRowCandidates(out: array<byte>) returns (r: Result<nat, nat>, ghost order: seq<Candidate>)
      modifies out
      ensures rowOrderBy == [] || TakeCount(limit, offset, usizeMax) == 0 ==> r == Ok(0) && out[..] == old(out[..])
      ensures rowOrderBy != [] && TakeCount(limit, offset, usizeMax) != 0 ==>
        && multiset(order) == rowHeap
        && (out.Length < |EncodeAll(order)| ==> r == Err(|EncodeAll(order)|) && out[..] == old(out[..]))
        && (out.Length >= |EncodeAll(order)| ==>
              r == Ok(|EncodeAll(order)|) && out[..] == EncodeAll(order) + old(out[|EncodeAll(order)|..]))
    {
      order := [];
      if rowOrderBy == [] || TakeCount(limit, offset, usizeMax) == 0 { return Ok(0), []; }
      hide EncodeAll;
      var items := ListHeap();
      var needed := BytesNeeded(items);
      order := items;
      if out.Length < needed { return Err(needed), order; }
      WriteCandidates(items, out);
      return Ok(needed), order;
    }

    /** The heap in the order its storage happens to have. */
    method ListHeap() returns (items: seq<Candidate>)
      ensures multiset(items) == rowHeap
    {
      items := [];
      var left := rowHeap;
      while left != multiset{}
        invariant left <= rowHeap && multiset(items) == rowHeap - left
      {
        var c :| c in left;
        TakeOne(rowHeap, left, c);
        left := left - multiset{c};
        items := items + [c];
      }
      assert rowHeap - left == rowHeap;
    }

    /** How long the encoded candidates are together. */
    static method BytesNeeded(items: seq<Candidate>) returns (needed: nat)
      ensures needed == |EncodeAll(items)|
    {
      hide Encode, EncodeAll;
      needed := 0;
      EncodeNone(items);
      for k := 0 to |items|
        invariant needed == |EncodeAll(items[..k])|
      {
        EncodeMore(items, k);
        needed := needed + |Encode(items[k])|;
      }
      assert items[..|items|] == items;
    }

    /** The write loop with its moving offset. */
    static method WriteCandidates(items: seq<Candidate>, out: array<byte>)
      requires |EncodeAll(items)| <= out.Length
      modifies out
      ensures out[..] == EncodeAll(items) + old(out[|EncodeAll(items)|..])
    {
      hide Encode, EncodeAll;
      var offset := 0;
      ghost var start := out[..];
      EncodeNone(items);
      for k := 0 to |items|
        invariant offset == |EncodeAll(items[..k])| <= |EncodeAll(items)|
        invariant out[..] == EncodeAll(items[..k]) + start[offset..]
      {
        EncodeAllPrefix(items, k);
        EncodeMore(items, k);
        var data := Encode(items[k]);
        ghost var done, here := EncodeAll(items[..k]), out[..];
        WriteBytes(out, offset, data);
        assert here[..offset] == done && here[offset + |data|..] == start[offset + |data|..];
        offset := offset + |data|;
      }
      assert items[..|items|] == items;
    }

    /** Drains the heap, sorts it, and keeps the page. An empty heap leaves the rows as they are. */
    method FinalizeRows()
      modifies this
      ensures old(rowHeap) == multiset{} ==> rows == old(rows)
      ensures old(rowHeap) != multiset{} ==> rows == RowIds(Page(SortedRows(old(rowHeap)), offset, limit))
      ensures rowHeap == multiset{}
    {
      if rowHeap == multiset{} { return; }
      hide SortedRows;
      var items := SortHeap();
      rowHeap := multiset{};
      rows := PageRows(items, offset, limit);
    }

    /** Walks the sorted items, skipping `offset` and keeping at most `limit` row ids. */
    static method PageRows(items: seq<Candidate>, offset: nat, limit: nat) returns (rows: seq<u64>)
      ensures rows == RowIds(Page(items, offset, limit))
    {
      rows := [];
      var from := Min(offset, |items|);
      var to := Min(from + limit, |items|);
      for k := from to to
        invariant rows == RowIds(items[from..k])
      {
        assert items[from..k + 1] == items[from..k] + [items[k]];
        rows := rows + [items[k].rowId];
      }
    }

    method SortHeap() returns (items: seq<Candidate>)
      ensures items == SortedRows(rowHeap)
    {
      hide CandidateLe, SortedSeq;
      CandidateTotalOrder();
      items := [];
      var left := rowHeap;
      while left != multiset{}
        invariant left <= rowHeap && multiset(items) == rowHeap - left && Sorted(CandidateLe, items)
      {
        var c :| c in left;
        TakeOne(rowHeap, left, c);
        left := left - multiset{c};
        InsertSorted(CandidateLe, c, items);
        items := Insert(CandidateLe, c, items);
      }
      assert rowHeap - left == rowHeap;
      SortedUnique(CandidateLe, items, SortedSeq(CandidateLe, rowHeap));
    }
  }

  // ---------- the whole pipeline ----------

  /** The candidates considered by all tasks. */
  function AllOf(tasks: seq<seq<Candidate>>): multiset<Candidate> {
    if tasks == [] then multiset{} else AllOf(tasks[..|tasks| - 1]) + multiset(tasks[|tasks| - 1])
  }

  /** The reducer's heap after merging the buffers of the tasks, each heap written in the given order. */
  ghost function ReducerHeap(orders: seq<seq<Candidate>>, take: nat): multiset<Candidate> {
    if orders == [] then multiset{}
    else MergeFrom(EncodeAll(orders[|orders| - 1]), 0, ReducerHeap(orders[..|orders| - 1], take), take).0
  }

  /** `order` lists the heap that one task's candidates leave. */
  ghost predicate ListsHeap(order: seq<Candidate>, task: seq<Candidate>, take: nat) {
    && multiset(order) == PushAll(multiset{}, task, take)
    && forall i :: 0 <= i < |order| ==> Encodable(order[i])
  }

  lemma {:induction false} ReducerHeapIsTop(tasks: seq<seq<Candidate>>, orders: seq<seq<Candidate>>, take: nat)
    requires |orders| == |tasks| && forall i :: 0 <= i < |tasks| ==> ListsHeap(orders[i], tasks[i], take)
    ensures IsTop(ReducerHeap(orders, take), AllOf(tasks), take)
    decreases |tasks|
  {
    if tasks == [] {
    } else {
      var n := |tasks| - 1;
      ReducerHeapIsTop(tasks[..n], orders[..n], take);
      hide IsTop;
      var g, order := ReducerHeap(orders[..n], take), orders[n];
      assert ListsHeap(orders[n], tasks[n], take);
      MergeEncoded(order, 0, g, take);
      assert order[..0] == [];
      assert ReducerHeap(orders, take) == PushAll(g, order, take);
      EmptyTop(take);
      PushAllKeepsTop(multiset{}, multiset{}, tasks[n], take);
      assert multiset{} + multiset(tasks[n]) == multiset(tasks[n]);
      TopOfItself(g, AllOf(tasks[..n]), take);
      PushAllKeepsTop(g, g, order, take);
      MergeTop(g, AllOf(tasks[..n]), multiset(order), multiset(tasks[n]), PushAll(g, order, take), take);
    }
  }

  lemma EmptyTop(take: nat)
    ensures IsTop(multiset{}, multiset{}, take)
  {
  }

  lemma TopOfItself(g: multiset<Candidate>, all: multiset<Candidate>, take: nat)
    requires IsTop(g, all, take)
    ensures IsTop(g, g, take)
  {
    hide CandidateLe;
    assert g - g == multiset{};
  }

  /**
   However the rows are split into tasks and in whatever order each heap is written, the page cut
   from the merged heap is the page of all candidates sorted. The row ids are those of that page.
   */
  lemma PageOfMergedHeaps(tasks: seq<seq<Candidate>>, orders: seq<seq<Candidate>>, limit: nat, offset: nat,
        usizeMax: nat)
    requires |orders| == |tasks|
    requires forall i :: 0 <= i < |tasks| ==> ListsHeap(orders[i], tasks[i], TakeCount(limit, offset, usizeMax))
    requires limit + offset <= usizeMax || |AllOf(tasks)| <= usizeMax
    ensures RowIds(Page(SortedRows(ReducerHeap(orders, TakeCount(limit, offset, usizeMax))), offset, limit))
         == RowIds(Page(SortedRows(AllOf(tasks)), offset, limit))
  {
    hide SortedRows, IsTop, Page;
    var take := TakeCount(limit, offset, usizeMax);
    ReducerHeapIsTop(tasks, orders, take);
    TopPage(ReducerHeap(orders, take), AllOf(tasks), limit, offset, usizeMax);
  }

  /** What each task considers. */
  function TaskCandidates(tasks: seq<seq<ChunkRows>>, rowsPerChunk: nat): (r: seq<seq<Candidate>>)
    requires forall i :: 0 <= i < |tasks| ==> InChunks(tasks[i], rowsPerChunk)
  {
    seq(|tasks|, i requires 0 <= i < |tasks| => Considered(tasks[i], rowsPerChunk))
  }

  lemma {:induction false} AllTaskCandidates(tasks: seq<seq<ChunkRows>>, rowsPerChunk: nat)
    requires forall i :: 0 <= i < |tasks| ==> InChunks(tasks[i], rowsPerChunk)
    ensures InChunks(Flat(tasks), rowsPerChunk)
    ensures AllOf(TaskCandidates(tasks, rowsPerChunk)) == multiset(Considered(Flat(tasks), rowsPerChunk))
    decreases |tasks|
  {
    hide Considered;
    if tasks == [] {
      assert Considered(Flat(tasks), rowsPerChunk) == [] by { EmptyConsidered(rowsPerChunk); }
    } else {
      var n := |tasks| - 1;
      hide InChunk;
      AllTaskCandidates(tasks[..n], rowsPerChunk);
      ConsideredConcat(Flat(tasks[..n]), tasks[n], rowsPerChunk);
      var all := TaskCandidates(tasks, rowsPerChunk);
      assert all[..n] == TaskCandidates(tasks[..n], rowsPerChunk);
    }
  }

  lemma EmptyConsidered(rowsPerChunk: nat)
    ensures Considered([], rowsPerChunk) == []
  {
  }

  /**
   The result of an ORDER BY query: whichever chunks each task runs, in whatever order, the rows are
   the page of all selected rows of the chunks sorted.
   */
  lemma PageOfAllRows(chs: seq<ChunkRows>, tasks: seq<seq<ChunkRows>>, orders: seq<seq<Candidate>>, rowsPerChunk: nat,
                      limit: nat, offset: nat, usizeMax: nat)
    requires InChunks(chs, rowsPerChunk)
    requires forall i :: 0 <= i < |tasks| ==> InChunks(tasks[i], rowsPerChunk)
    requires multiset(Flat(tasks)) == multiset(chs)
    requires |orders| == |tasks|
    requires forall i :: 0 <= i < |tasks| ==>
      && multiset(orders[i]) == HeapAfter(multiset{}, tasks[i], rowsPerChunk, TakeCount(limit, offset, usizeMax))
      && forall k :: 0 <= k < |orders[i]| ==> Encodable(orders[i][k])
    requires limit + offset <= usizeMax || |Considered(chs, rowsPerChunk)| <= usizeMax
    ensures RowIds(Page(SortedRows(ReducerHeap(orders, TakeCount(limit, offset, usizeMax))), offset, limit))
         == RowIds(Page(SortedRows(multiset(Considered(chs, rowsPerChunk))), offset, limit))
  {
    hide Considered, HeapAfter, Encodable, SortedRows, InChunk, PushAll;
    var take := TakeCount(limit, offset, usizeMax);
    var all := TaskCandidates(tasks, rowsPerChunk);
    forall i | 0 <= i < |tasks| ensures ListsHeap(orders[i], all[i], take) {
      HeapAfterChunks(multiset{}, tasks[i], rowsPerChunk, take);
    }
    AllTaskCandidates(tasks, rowsPerChunk);
    ConsideredInAnyOrder(Flat(tasks), chs, rowsPerChunk);
    assert |multiset(Considered(chs, rowsPerChunk))| == |Considered(chs, rowsPerChunk)|;
    PageOfMergedHeaps(all, orders, limit, offset, usizeMax);
  }
}

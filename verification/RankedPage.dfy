/** Pages sorted by dictionary ranks. */
module RankedPage {
  import opened LittleEndian
  import opened Ordering
  import opened RowOrder
  import opened TopK
  import opened Wrappers

  // ---------- rows and their two candidates ----------

  /** An ORDER BY column: one whose keys are read as they are, or a dictionary column with its values and ranks. */
  datatype KeyColumn = Direct | Ranked(values: seq<seq<byte>>, ranks: seq<nat>)

  /** What such a column holds in a row. */
  datatype KeyCell = NullCell | Key(key: RowKey) | Id(id: nat)

  /** A row: its cells in the one or two ORDER BY columns, and its id. */
  datatype Row = Row(c1: KeyCell, c2: Option<KeyCell>, rowId: u64)

  /** The dictionary has no value twice, its ranks are those of the byte order, and its ids have 32 bits. */
  ghost predicate GoodColumn(col: KeyColumn) {
    col.Ranked? ==>
      && IsRanking(col.values, col.ranks) && |col.values| <= 0x1_0000_0000
      && forall i, j :: 0 <= i < j < |col.values| ==> col.values[i] != col.values[j]
  }

  predicate IsCell(col: KeyColumn, cell: KeyCell) {
    match cell
    case NullCell => true
    case Key(_) => col.Direct?
    case Id(id) => col.Ranked? && id < |col.values|
  }

  /** The key that the code reads. */
  ghost function ByRank(col: KeyColumn, cell: KeyCell): RowKey {
    if !GoodColumn(col) || !IsCell(col, cell) then Null
    else
      match cell
      case NullCell => Null
      case Key(k) => k
      case Id(id) => RankKey(col.ranks, id)
  }

  /** The key that the clause means: the bytes of the value. */
  function ByBytes(col: KeyColumn, cell: KeyCell): RowKey {
    if !IsCell(col, cell) then Null
    else
      match cell
      case NullCell => Null
      case Key(k) => k
      case Id(id) => Bytes(col.values[id])
  }

  lemma SameComparison(col: KeyColumn, a: KeyCell, b: KeyCell)
    requires GoodColumn(col) && IsCell(col, a) && IsCell(col, b)
    ensures CmpRowKey(ByRank(col, a), ByRank(col, b)) == CmpRowKey(ByBytes(col, a), ByBytes(col, b))
  {
    hide CmpBytes, F64OfU32, TotalKey;
    if a.Id? && b.Id? {
      RankComparesBytes(col.values, col.ranks, a.id, b.id);
      if a.id < b.id { assert col.values[a.id] != col.values[b.id]; }
      if b.id < a.id { assert col.values[b.id] != col.values[a.id]; }
    }
  }

  /** Both columns are good, and each row has a cell of the second exactly when there is one. */
  ghost predicate IsRow(col1: KeyColumn, col2: Option<KeyColumn>, row: Row) {
    && GoodColumn(col1) && IsCell(col1, row.c1)
    && (row.c2.Some? <==> col2.Some?)
    && (col2.Some? ==> GoodColumn(col2.value) && IsCell(col2.value, row.c2.value))
  }

  ghost function RankCandidate(col1: KeyColumn, col2: Option<KeyColumn>, row: Row): Candidate {
    Candidate(ByRank(col1, row.c1),
      if col2.Some? && row.c2.Some? then Some(ByRank(col2.value, row.c2.value)) else None, row.rowId)
  }

  ghost function ByteCandidate(col1: KeyColumn, col2: Option<KeyColumn>, row: Row): Candidate {
    Candidate(ByBytes(col1, row.c1),
      if col2.Some? && row.c2.Some? then Some(ByBytes(col2.value, row.c2.value)) else None, row.rowId)
  }

  lemma SameOrder(col1: KeyColumn, col2: Option<KeyColumn>, a: Row, b: Row)
    requires IsRow(col1, col2, a) && IsRow(col1, col2, b)
    ensures CandidateLe(RankCandidate(col1, col2, a), RankCandidate(col1, col2, b))
      <==> CandidateLe(ByteCandidate(col1, col2, a), ByteCandidate(col1, col2, b))
  {
    hide CmpRowKey, ByRank, ByBytes, GoodColumn, IsCell;
    SameComparison(col1, a.c1, b.c1);
    if col2.Some? { SameComparison(col2.value, a.c2.value, b.c2.value); }
  }

  // ---------- sorting in step ----------

  function MapSeq<A, B>(f: A -> B, s: seq<A>): (r: seq<B>)
    ensures |r| == |s| && forall i :: 0 <= i < |s| ==> r[i] == f(s[i])
  {
    seq(|s|, i requires 0 <= i < |s| => f(s[i]))
  }

  lemma MapWithout<A, B>(f: A -> B, s: seq<A>, j: nat)
    requires j < |s|
    ensures MapSeq(f, Without(s, j)) == Without(MapSeq(f, s), j)
  {
  }

  lemma PutBack<T>(s: seq<T>, j: nat)
    requires j < |s|
    ensures multiset(s) == multiset(Without(s, j)) + multiset{s[j]}
  {
    assert s == s[..j] + [s[j]] + s[j + 1..];
  }

  lemma {:induction false} MapPermutes<A, B>(f: A -> B, a: seq<A>, b: seq<A>)
    requires multiset(a) == multiset(b)
    ensures multiset(MapSeq(f, a)) == multiset(MapSeq(f, b))
    decreases |a|
  {
    hide Without, MapSeq;
    assert |multiset(a)| == |a| && |multiset(b)| == |b|;
    if a != [] {
      assert a[0] in multiset(b);
      var j :| 0 <= j < |b| && b[j] == a[0];
      WithoutOne(a, 0);
      WithoutOne(b, j);
      MapPermutes(f, Without(a, 0), Without(b, j));
      MapWithout(f, a, 0);
      MapWithout(f, b, j);
      PutBack(MapSeq(f, a), 0);
      PutBack(MapSeq(f, b), j);
    } else {
      assert b == [];
    }
  }

  /** Puts `x` in front of the first element whose image its image does not exceed. */
  ghost function Place<A>(f: A -> Candidate, x: A, s: seq<A>): (r: seq<A>)
    ensures multiset(r) == multiset(s) + multiset{x}
    decreases |s|
  {
    if s == [] then [x]
    else if CandidateLe(f(x), f(s[0])) then [x] + s
    else
      assert s == [s[0]] + s[1..];
      [s[0]] + Place(f, x, s[1..])
  }

  lemma MapCons<A, B>(f: A -> B, x: A, s: seq<A>)
    ensures MapSeq(f, [x] + s) == [f(x)] + MapSeq(f, s)
  {
  }

  lemma {:induction false} PlaceInserts<A>(f: A -> Candidate, x: A, s: seq<A>)
    ensures MapSeq(f, Place(f, x, s)) == Insert(CandidateLe, f(x), MapSeq(f, s))
    decreases |s|
  {
    hide CandidateLe, MapSeq;
    if s == [] {
      MapCons(f, x, []);
      assert [x] + [] == [x];
    } else if CandidateLe(f(x), f(s[0])) {
      MapCons(f, x, s);
    } else {
      PlaceInserts(f, x, s[1..]);
      MapCons(f, s[0], Place(f, x, s[1..]));
      MapCons(f, s[0], s[1..]);
      assert s == [s[0]] + s[1..];
      assert ([f(s[0])] + MapSeq(f, s[1..]))[1..] == MapSeq(f, s[1..]);
    }
  }

  /** The elements, arranged by their images. */
  ghost function Arranged<A>(f: A -> Candidate, s: seq<A>): (r: seq<A>)
    ensures multiset(r) == multiset(s)
    decreases |s|
  {
    if s == [] then []
    else
      assert s == s[..|s| - 1] + [s[|s| - 1]];
      Place(f, s[|s| - 1], Arranged(f, s[..|s| - 1]))
  }

  lemma {:induction false} ArrangedSorts<A>(f: A -> Candidate, s: seq<A>)
    ensures Sorted(CandidateLe, MapSeq(f, Arranged(f, s)))
    decreases |s|
  {
    hide CandidateLe, Place;
    CandidateTotalOrder();
    if s == [] {
    } else {
      var front, last := s[..|s| - 1], s[|s| - 1];
      ArrangedSorts(f, front);
      PlaceInserts(f, last, Arranged(f, front));
      InsertSorted(CandidateLe, f(last), MapSeq(f, Arranged(f, front)));
    }
  }

  /** Two images that compare alike and keep the row ids have pages with the same rows. */
  lemma SortedInStep<A(!new)>(f: A -> Candidate, g: A -> Candidate, s: seq<A>, offset: nat, limit: nat)
    requires forall a, b :: a in s && b in s ==> (CandidateLe(f(a), f(b)) <==> CandidateLe(g(a), g(b)))
    requires forall a :: a in s ==> f(a).rowId == g(a).rowId
    ensures RowIds(Page(SortedRows(multiset(MapSeq(f, s))), offset, limit))
         == RowIds(Page(SortedRows(multiset(MapSeq(g, s))), offset, limit))
  {
    hide CandidateLe, Arranged, SortedSeq;
    CandidateTotalOrder();
    var t := Arranged(f, s);
    var x, y := MapSeq(f, t), MapSeq(g, t);
    ArrangedSorts(f, s);
    MapPermutes(f, t, s);
    MapPermutes(g, t, s);
    forall i | 0 <= i < |t| ensures t[i] in s { assert t[i] in multiset(t); }
    forall i, j | 0 <= i < j < |t| ensures CandidateLe(y[i], y[j]) {
      assert CandidateLe(x[i], x[j]);
    }
    SortedUnique(CandidateLe, x, SortedRows(multiset(x)));
    SortedUnique(CandidateLe, y, SortedRows(multiset(y)));
    assert RowIds(Page(x, offset, limit)) == RowIds(Page(y, offset, limit));
  }

  /**
   For dictionaries without repeats, the page cut after sorting by ranks has the rows of the page cut after sorting by
   bytes.
   */
  lemma PageByRanks(col1: KeyColumn, col2: Option<KeyColumn>, rows: seq<Row>, offset: nat, limit: nat)
    requires forall i :: 0 <= i < |rows| ==> IsRow(col1, col2, rows[i])
    ensures
      var byRank, byBytes := MapSeq(r => RankCandidate(col1, col2, r), rows),
        MapSeq(r => ByteCandidate(col1, col2, r), rows);
      RowIds(Page(SortedRows(multiset(byRank)), offset, limit))
        == RowIds(Page(SortedRows(multiset(byBytes)), offset, limit))
  {
    hide CandidateLe, IsRow, ByRank, ByBytes, SortedRows;
    forall a, b | a in rows && b in rows
      ensures CandidateLe(RankCandidate(col1, col2, a), RankCandidate(col1, col2, b))
        <==> CandidateLe(ByteCandidate(col1, col2, a), ByteCandidate(col1, col2, b))
    {
      SameOrder(col1, col2, a, b);
    }
    SortedInStep((r: Row) => RankCandidate(col1, col2, r), (r: Row) => ByteCandidate(col1, col2, r), rows, offset,
      limit);
  }
}

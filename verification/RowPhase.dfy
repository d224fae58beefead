/** The row phase of one chunk: which candidates it considers and which row ids it appends. */
module RowPhase {
  import opened Arithmetic
  import opened Ordering
  import opened Words
  import opened Wrappers
  import opened RowOrder
  import opened TopK

  const TWO32: nat := 0x1_0000_0000

  datatype RowKeys = RowKeys(k1: RowKey, k2: Option<RowKey>)

  /**
   One chunk: the rows its mask selects, in ascending order, and the keys of all its rows. No keys
   means that no ORDER BY column could be read.
   */
  datatype ChunkRows = ChunkRows(chunkId: nat, selected: seq<nat>, keys: Option<seq<RowKeys>>)

  /** Chunk ids and chunk sizes are 32-bit, and a selected row is a row of its chunk. */
  predicate InChunk(ch: ChunkRows, rowsPerChunk: nat) {
    && ch.chunkId < TWO32 && rowsPerChunk < TWO32
    && (forall i :: 0 <= i < |ch.selected| ==> ch.selected[i] < rowsPerChunk)
    && (ch.keys.Some? ==> forall i :: 0 <= i < |ch.selected| ==> ch.selected[i] < |ch.keys.value|)
  }

  predicate InChunks(chs: seq<ChunkRows>, rowsPerChunk: nat) {
    forall i :: 0 <= i < |chs| ==> InChunk(chs[i], rowsPerChunk)
  }

  lemma IdFits(chunkId: nat, rowsPerChunk: nat, row: nat)
    requires chunkId < TWO32 && rowsPerChunk < TWO32 && row < rowsPerChunk
    ensures rowsPerChunk * chunkId + row < TWO64
  {
    MulAscends(chunkId, TWO32 - 1, rowsPerChunk);
    assert rowsPerChunk * (TWO32 - 1) <= (TWO32 - 1) * (TWO32 - 1);
  }

  /** The row id counts rows over the whole file, every chunk but the last being full. */
  function GlobalId(ch: ChunkRows, rowsPerChunk: nat, i: nat): u64
    requires InChunk(ch, rowsPerChunk) && i < |ch.selected|
  {
    IdFits(ch.chunkId, rowsPerChunk, ch.selected[i]);
    rowsPerChunk * ch.chunkId + ch.selected[i]
  }

  /** Two rows of the file never share an id. */
  lemma IdsDiffer(rowsPerChunk: nat, c1: nat, r1: nat, c2: nat, r2: nat)
    requires r1 < rowsPerChunk && r2 < rowsPerChunk
    ensures rowsPerChunk * c1 + r1 == rowsPerChunk * c2 + r2 <==> c1 == c2 && r1 == r2
  {
    if rowsPerChunk * c1 + r1 == rowsPerChunk * c2 + r2 { QuotientUnique(rowsPerChunk, c1, r1, c2, r2); }
  }

  function CandidateOf(ch: ChunkRows, rowsPerChunk: nat, i: nat): Candidate
    requires InChunk(ch, rowsPerChunk) && i < |ch.selected| && ch.keys.Some?
  {
    var k := ch.keys.value[ch.selected[i]];
    Candidate(k.k1, k.k2, GlobalId(ch, rowsPerChunk, i))
  }

  function Candidates(ch: ChunkRows, rowsPerChunk: nat): seq<Candidate>
    requires InChunk(ch, rowsPerChunk)
  {
    if ch.keys.None? then [] else seq(|ch.selected|, i requires 0 <= i < |ch.selected| => CandidateOf(ch,
      rowsPerChunk, i))
  }

  function GlobalIds(ch: ChunkRows, rowsPerChunk: nat): seq<u64>
    requires InChunk(ch, rowsPerChunk)
  {
    seq(|ch.selected|, i requires 0 <= i < |ch.selected| => GlobalId(ch, rowsPerChunk, i))
  }

  /** The first `take` of a list, or all of it. */
  function FirstOf<T>(s: seq<T>, take: nat): seq<T> {
    s[..Min(take, |s|)]
  }

  // ---------- chunk after chunk ----------

  /** The candidates of a run over chunks, in the order they are considered. */
  function Considered(chs: seq<ChunkRows>, rowsPerChunk: nat): seq<Candidate>
    requires InChunks(chs, rowsPerChunk)
  {
    if chs == [] then []
    else Considered(chs[..|chs| - 1], rowsPerChunk) + Candidates(chs[|chs| - 1], rowsPerChunk)
  }

  /** The heap after a run of the row phase over chunks. */
  ghost function HeapAfter(heap: multiset<Candidate>, chs: seq<ChunkRows>, rowsPerChunk: nat,
        take: nat): multiset<Candidate>
    requires InChunks(chs, rowsPerChunk)
  {
    if chs == [] then heap
    else PushAll(HeapAfter(heap, chs[..|chs| - 1], rowsPerChunk, take), Candidates(chs[|chs| - 1], rowsPerChunk), take)
  }

  lemma {:induction false} PushAllConcat(heap: multiset<Candidate>, a: seq<Candidate>, b: seq<Candidate>, take: nat)
    ensures PushAll(heap, a + b, take) == PushAll(PushAll(heap, a, take), b, take)
    decreases |b|
  {
    hide Push;
    if b == [] {
      assert a + b == a;
    } else {
      var n := |b| - 1;
      assert (a + b)[..|a + b| - 1] == a + b[..n];
      PushAllConcat(heap, a, b[..n], take);
    }
  }

  /** Chunk after chunk is one long run of pushes. */
  lemma {:induction false} HeapAfterChunks(heap: multiset<Candidate>, chs: seq<ChunkRows>, rowsPerChunk: nat, take: nat)
    requires InChunks(chs, rowsPerChunk)
    ensures HeapAfter(heap, chs, rowsPerChunk, take) == PushAll(heap, Considered(chs, rowsPerChunk), take)
    decreases |chs|
  {
    hide Candidates;
    if chs == [] {
    } else {
      var n := |chs| - 1;
      HeapAfterChunks(heap, chs[..n], rowsPerChunk, take);
      PushAllConcat(heap, Considered(chs[..n], rowsPerChunk), Candidates(chs[n], rowsPerChunk), take);
    }
  }

  /** The row ids appended by a run without ORDER BY. */
  function RowsAfter(rows: seq<u64>, chs: seq<ChunkRows>, rowsPerChunk: nat, take: nat): seq<u64>
    requires InChunks(chs, rowsPerChunk)
  {
    if chs == [] then rows
    else
      var before := RowsAfter(rows, chs[..|chs| - 1], rowsPerChunk, take);
      if |before| < take then FirstOf(before + GlobalIds(chs[|chs| - 1], rowsPerChunk), take) else before
  }

  /** All selected row ids of the chunks, in chunk order. */
  function AllIds(chs: seq<ChunkRows>, rowsPerChunk: nat): seq<u64>
    requires InChunks(chs, rowsPerChunk)
  {
    if chs == [] then [] else AllIds(chs[..|chs| - 1], rowsPerChunk) + GlobalIds(chs[|chs| - 1], rowsPerChunk)
  }

  /** Without ORDER BY a run keeps the first `take` selected rows. */
  lemma {:induction false} FirstRowsKept(chs: seq<ChunkRows>, rowsPerChunk: nat, take: nat)
    requires InChunks(chs, rowsPerChunk)
    ensures RowsAfter([], chs, rowsPerChunk, take) == FirstOf(AllIds(chs, rowsPerChunk), take)
    decreases |chs|
  {
    hide GlobalIds;
    if chs == [] {
    } else {
      FirstRowsKept(chs[..|chs| - 1], rowsPerChunk, take);
    }
  }

  /** A plan without ORDER BY keeps as many rows as limit and offset ask for together, or all that there are. */
  lemma RowsOfPlan(chs: seq<ChunkRows>, rowsPerChunk: nat, limit: nat, offset: nat, usizeMax: nat)
    requires InChunks(chs, rowsPerChunk)
    ensures
      var rows, all := RowsAfter([], chs, rowsPerChunk, TakeCount(limit, offset, usizeMax)), AllIds(chs, rowsPerChunk);
      && rows <= all
      && (limit == 0 ==> rows == [])
      && (limit > 0 && limit + offset <= usizeMax ==>
            |rows| == if |all| < limit + offset then |all| else limit + offset)
      && (limit > 0 && limit + offset > usizeMax ==> |rows| == if |all| < usizeMax then |all| else usizeMax)
  {
    hide RowsAfter, AllIds;
    FirstRowsKept(chs, rowsPerChunk, TakeCount(limit, offset, usizeMax));
  }

  // ---------- which rows these are ----------

  /** The id of a row leads back to its chunk and its place in it. */
  lemma IdLeadsBack(ch: ChunkRows, rowsPerChunk: nat, i: nat)
    requires InChunk(ch, rowsPerChunk) && i < |ch.selected|
    ensures
      var id := GlobalId(ch, rowsPerChunk, i);
      rowsPerChunk > 0 && id / rowsPerChunk == ch.chunkId && id % rowsPerChunk == ch.selected[i]
  {
    var id := GlobalId(ch, rowsPerChunk, i);
    ModUnique(id, rowsPerChunk, ch.chunkId, ch.selected[i]);
  }

  /** Nothing of a row but its own keys and its own id makes up a candidate. */
  ghost predicate StandsFor(c: Candidate, ch: ChunkRows, rowsPerChunk: nat, i: nat)
    requires InChunk(ch, rowsPerChunk) && i < |ch.selected| && ch.keys.Some?
  {
    var keys := ch.keys.value[ch.selected[i]];
    && c.k1 == keys.k1 && c.k2 == keys.k2
    && rowsPerChunk > 0 && c.rowId / rowsPerChunk == ch.chunkId && c.rowId % rowsPerChunk == ch.selected[i]
  }

  /** Chunk after chunk and row after row, each selected row of a chunk with keys is considered once. */
  lemma {:induction false} ConsideredAt(chs: seq<ChunkRows>, rowsPerChunk: nat, c: nat, i: nat)
    requires InChunks(chs, rowsPerChunk) && c < |chs|
    ensures |Considered(chs[..c + 1], rowsPerChunk)|
      == |Considered(chs[..c], rowsPerChunk)| + (if chs[c].keys.None? then 0 else |chs[c].selected|)
    ensures |Considered(chs[..c + 1], rowsPerChunk)| <= |Considered(chs, rowsPerChunk)|
    ensures i < |chs[c].selected| && chs[c].keys.Some? ==>
      StandsFor(Considered(chs, rowsPerChunk)[|Considered(chs[..c], rowsPerChunk)| + i], chs[c], rowsPerChunk, i)
    decreases |chs|
  {
    hide InChunk, StandsFor, Considered, Candidates;
    var n := |chs| - 1;
    assert chs == chs[..n] + [chs[n]];
    ConsideredSnoc(chs[..n], chs[n], rowsPerChunk);
    if c == n {
      assert chs[..c + 1] == chs;
      CandidatesCount(chs[c], rowsPerChunk);
      if i < |chs[c].selected| && chs[c].keys.Some? { CandidateStands(chs[c], rowsPerChunk, i); }
    } else {
      ConsideredAt(chs[..n], rowsPerChunk, c, i);
      assert chs[..n][..c] == chs[..c] && chs[..n][..c + 1] == chs[..c + 1] && chs[..n][c] == chs[c];
      CandidatesCount(chs[c], rowsPerChunk);
    }
  }

  lemma CandidatesCount(ch: ChunkRows, rowsPerChunk: nat)
    requires InChunk(ch, rowsPerChunk)
    ensures |Candidates(ch, rowsPerChunk)| == if ch.keys.None? then 0 else |ch.selected|
  {
    hide CandidateOf;
  }

  lemma CandidateStands(ch: ChunkRows, rowsPerChunk: nat, i: nat)
    requires InChunk(ch, rowsPerChunk) && i < |ch.selected| && ch.keys.Some?
    ensures |Candidates(ch, rowsPerChunk)| == |ch.selected|
    ensures StandsFor(Candidates(ch, rowsPerChunk)[i], ch, rowsPerChunk, i)
  {
    hide GlobalId;
    IdLeadsBack(ch, rowsPerChunk, i);
  }

  /** Without ORDER BY, chunk after chunk and row after row, each selected row gives its id. */
  lemma {:induction false} IdAt(chs: seq<ChunkRows>, rowsPerChunk: nat, c: nat, i: nat)
    requires InChunks(chs, rowsPerChunk) && c < |chs|
    ensures |AllIds(chs[..c + 1], rowsPerChunk)| == |AllIds(chs[..c], rowsPerChunk)| + |chs[c].selected|
    ensures |AllIds(chs[..c + 1], rowsPerChunk)| <= |AllIds(chs, rowsPerChunk)|
    ensures i < |chs[c].selected| ==>
      var id := AllIds(chs, rowsPerChunk)[|AllIds(chs[..c], rowsPerChunk)| + i];
      rowsPerChunk > 0 && id / rowsPerChunk == chs[c].chunkId && id % rowsPerChunk == chs[c].selected[i]
    decreases |chs|
  {
    hide InChunk, GlobalId;
    var n := |chs| - 1;
    assert chs[..c + 1][..c] == chs[..c];
    if c == n {
      assert chs[..c + 1] == chs;
      if i < |chs[c].selected| { IdLeadsBack(chs[c], rowsPerChunk, i); }
    } else {
      IdAt(chs[..n], rowsPerChunk, c, i);
      assert chs[..n][..c] == chs[..c] && chs[..n][..c + 1] == chs[..c + 1];
    }
  }

  // ---------- the same chunks in another order ----------

  lemma ConsideredSnoc(chs: seq<ChunkRows>, ch: ChunkRows, rowsPerChunk: nat)
    requires InChunks(chs + [ch], rowsPerChunk)
    ensures InChunks(chs, rowsPerChunk) && InChunk(ch, rowsPerChunk)
    ensures Considered(chs + [ch], rowsPerChunk) == Considered(chs, rowsPerChunk) + Candidates(ch, rowsPerChunk)
  {
    hide Candidates, InChunk;
    assert (chs + [ch])[..|chs|] == chs;
    assert (chs + [ch])[|chs|] == ch;
  }

  lemma {:induction false} ConsideredWithout(chs: seq<ChunkRows>, j: nat, rowsPerChunk: nat)
    requires InChunks(chs, rowsPerChunk) && j < |chs|
    ensures InChunks(Without(chs, j), rowsPerChunk)
    ensures multiset(Considered(chs, rowsPerChunk))
         == multiset(Considered(Without(chs, j), rowsPerChunk)) + multiset(Candidates(chs[j], rowsPerChunk))
    decreases |chs|
  {
    hide Candidates, Considered, Without, InChunk;
    var n := |chs| - 1;
    assert chs == chs[..n] + [chs[n]];
    ConsideredSnoc(chs[..n], chs[n], rowsPerChunk);
    if j == n {
      WithoutLast(chs);
    } else {
      ConsideredWithout(chs[..n], j, rowsPerChunk);
      WithoutLater(chs, j);
      ConsideredSnoc(Without(chs[..n], j), chs[n], rowsPerChunk);
    }
  }

  /** The order of the chunks does not change which candidates are considered. */
  lemma {:induction false} ConsideredInAnyOrder(a: seq<ChunkRows>, b: seq<ChunkRows>, rowsPerChunk: nat)
    requires multiset(a) == multiset(b) && InChunks(a, rowsPerChunk) && InChunks(b, rowsPerChunk)
    ensures multiset(Considered(a, rowsPerChunk)) == multiset(Considered(b, rowsPerChunk))
    decreases |a|
  {
    hide Candidates, Considered, Without, InChunk;
    if a == [] {
      assert |multiset(b)| == |b|;
      assert b == [];
    } else {
      var n := |a| - 1;
      assert a[n] in multiset(b);
      var j :| 0 <= j < |b| && b[j] == a[n];
      WithoutOne(b, j);
      WithoutOne(a, n);
      ConsideredWithout(a, n, rowsPerChunk);
      ConsideredWithout(b, j, rowsPerChunk);
      WithoutLast(a);
      ConsideredInAnyOrder(Without(a, n), Without(b, j), rowsPerChunk);
    }
  }

  /** The chunks of all tasks, one task after the other. */
  function Flat(tasks: seq<seq<ChunkRows>>): seq<ChunkRows> {
    if tasks == [] then [] else Flat(tasks[..|tasks| - 1]) + tasks[|tasks| - 1]
  }

  lemma {:induction false} ConsideredConcat(a: seq<ChunkRows>, b: seq<ChunkRows>, rowsPerChunk: nat)
    requires InChunks(a + b, rowsPerChunk)
    ensures InChunks(a, rowsPerChunk) && InChunks(b, rowsPerChunk)
    ensures Considered(a + b, rowsPerChunk) == Considered(a, rowsPerChunk) + Considered(b, rowsPerChunk)
    decreases |b|
  {
    hide Candidates;
    Parts(a, b, rowsPerChunk);
    if b == [] {
      assert a + b == a;
    } else {
      var n := |b| - 1;
      assert (a + b)[..|a + b| - 1] == a + b[..n];
      ConsideredConcat(a, b[..n], rowsPerChunk);
    }
  }

  lemma Parts(a: seq<ChunkRows>, b: seq<ChunkRows>, rowsPerChunk: nat)
    requires InChunks(a + b, rowsPerChunk)
    ensures InChunks(a, rowsPerChunk) && InChunks(b, rowsPerChunk)
  {
    hide InChunk;
    assert a == (a + b)[..|a|];
    assert b == (a + b)[|a|..];
  }
}

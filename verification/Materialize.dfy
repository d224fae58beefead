/** Late materialisation. */
module Materialize {
  import opened Arithmetic
  import opened Wrappers

  // Row ids are grouped by chunk, and the cells of each chunk scattered to their output slots.

  /** A chunk's share of the rows: positions in the chunk, and the output slots they go to. */
  datatype Share = Share(local: seq<nat>, dst: seq<nat>)

  // ---------- grouping ----------

  /** The slots below `n` whose rows lie in a chunk, in ascending order. */
  function SlotsOf(rows: seq<nat>, perChunk: nat, chunk: nat, n: nat): seq<nat>
    requires perChunk >= 1 && n <= |rows|
  {
    if n == 0 then []
    else SlotsOf(rows, perChunk, chunk, n - 1) + if rows[n - 1] / perChunk == chunk then [n - 1] else []
  }

  function LocalsOf(rows: seq<nat>, perChunk: nat, slots: seq<nat>): seq<nat>
    requires perChunk >= 1 && forall i :: 0 <= i < |slots| ==> slots[i] < |rows|
  {
    seq(|slots|, i requires 0 <= i < |slots| => rows[slots[i]] % perChunk)
  }

  lemma {:induction false} SlotsAre(rows: seq<nat>, perChunk: nat, chunk: nat, n: nat)
    requires perChunk >= 1 && n <= |rows|
    ensures forall i :: 0 <= i < |SlotsOf(rows, perChunk, chunk, n)| ==>
      SlotsOf(rows, perChunk, chunk, n)[i] < n && rows[SlotsOf(rows, perChunk, chunk, n)[i]] / perChunk == chunk
    ensures forall i, j :: 0 <= i < j < |SlotsOf(rows, perChunk, chunk, n)| ==>
      SlotsOf(rows, perChunk, chunk, n)[i] < SlotsOf(rows, perChunk, chunk, n)[j]
    ensures forall d :: 0 <= d < n ==> (d in SlotsOf(rows, perChunk, chunk, n) <==> rows[d] / perChunk == chunk)
  {
    if n == 0 {
    } else {
      SlotsAre(rows, perChunk, chunk, n - 1);
    }
  }

  /** Every slot is in the share of exactly one chunk, at exactly one place. */
  lemma SlotOnce(rows: seq<nat>, perChunk: nat, slot: nat, chunk: nat)
    requires perChunk >= 1 && slot < |rows|
    ensures
      var slots := SlotsOf(rows, perChunk, chunk, |rows|);
      && (slot in slots <==> chunk == rows[slot] / perChunk)
      && (forall i, j :: 0 <= i < j < |slots| ==> slots[i] != slots[j])
  {
    SlotsAre(rows, perChunk, chunk, |rows|);
  }

  /** The share of a chunk after the first `n` rows. */
  function ShareOf(rows: seq<nat>, perChunk: nat, chunk: nat, n: nat): Share
    requires perChunk >= 1 && n <= |rows|
  {
    SlotsAre(rows, perChunk, chunk, n);
    var slots := SlotsOf(rows, perChunk, chunk, n);
    Share(LocalsOf(rows, perChunk, slots), slots)
  }

  lemma ShareStep(rows: seq<nat>, perChunk: nat, chunk: nat, n: nat)
    requires perChunk >= 1 && n < |rows|
    ensures
      var (a, b) := (ShareOf(rows, perChunk, chunk, n), ShareOf(rows, perChunk, chunk, n + 1));
      b == if rows[n] / perChunk == chunk then Share(a.local + [rows[n] % perChunk], a.dst + [n]) else a
  {
    hide SlotsOf;
    SlotsAre(rows, perChunk, chunk, n);
    SlotsAre(rows, perChunk, chunk, n + 1);
    var a, b := SlotsOf(rows, perChunk, chunk, n), SlotsOf(rows, perChunk, chunk, n + 1);
    SlotsStep(rows, perChunk, chunk, n);
    if rows[n] / perChunk == chunk {
      assert LocalsOf(rows, perChunk, b) == LocalsOf(rows, perChunk, a) + [rows[n] % perChunk];
    } else {
      assert a + [] == a;
    }
  }

  lemma SlotsStep(rows: seq<nat>, perChunk: nat, chunk: nat, n: nat)
    requires perChunk >= 1 && n < |rows|
    ensures SlotsOf(rows, perChunk, chunk, n + 1)
      == SlotsOf(rows, perChunk, chunk, n) + if rows[n] / perChunk == chunk then [n] else []
  {
  }

  /** A share is empty until a row of its chunk comes. */
  lemma {:induction false} EmptyShare(rows: seq<nat>, perChunk: nat, chunk: nat, n: nat)
    requires perChunk >= 1 && n <= |rows|
    ensures ShareOf(rows, perChunk, chunk, n) == Share([], [])
      <==> forall d :: 0 <= d < n ==> rows[d] / perChunk != chunk
  {
    hide SlotsOf;
    SlotsAre(rows, perChunk, chunk, n);
    var slots := SlotsOf(rows, perChunk, chunk, n);
    if slots == [] {
    } else {
      assert slots[0] in slots;
    }
  }

  /** The chunks that hold some of the first `n` rows. */
  ghost predicate Grouped(grouped: map<nat, Share>, rows: seq<nat>, perChunk: nat, n: nat)
    requires perChunk >= 1 && n <= |rows|
  {
    && (forall c :: c in grouped ==> grouped[c] == ShareOf(rows, perChunk, c, n))
    && (forall c :: c in grouped <==> exists d :: 0 <= d < n && rows[d] / perChunk == c)
  }

  lemma GroupedStep(before: map<nat, Share>, after: map<nat, Share>, rows: seq<nat>, perChunk: nat, n: nat)
    requires perChunk >= 1 && n < |rows| && Grouped(before, rows, perChunk, n)
    requires
      var c := rows[n] / perChunk;
      var share := if c in before then before[c] else Share([], []);
      after == before[c := Share(share.local + [rows[n] % perChunk], share.dst + [n])]
    ensures Grouped(after, rows, perChunk, n + 1)
  {
    hide ShareOf;
    var home := rows[n] / perChunk;
    forall c | c in after ensures after[c] == ShareOf(rows, perChunk, c, n + 1) {
      ShareStep(rows, perChunk, c, n);
      EmptyShare(rows, perChunk, c, n);
    }
    forall c ensures c in after <==> exists d :: 0 <= d < n + 1 && rows[d] / perChunk == c {
      if c in after && c != home {
        var d :| 0 <= d < n && rows[d] / perChunk == c;
      }
    }
  }

  method GroupRowIdsByChunk(rows: seq<nat>, perChunk: nat) returns (grouped: map<nat, Share>)
    requires perChunk >= 1
    ensures Grouped(grouped, rows, perChunk, |rows|)
  {
    hide Grouped;
    grouped := map[];
    NoneGrouped(rows, perChunk);
    for dst := 0 to |rows|
      invariant Grouped(grouped, rows, perChunk, dst)
    {
      var chunk, local := rows[dst] / perChunk, rows[dst] % perChunk;
      var entry := if chunk in grouped then grouped[chunk] else Share([], []);
      ghost var before := grouped;
      grouped := grouped[chunk := Share(entry.local + [local], entry.dst + [dst])];
      GroupedStep(before, grouped, rows, perChunk, dst);
    }
  }

  lemma NoneGrouped(rows: seq<nat>, perChunk: nat)
    requires perChunk >= 1
    ensures Grouped(map[], rows, perChunk, 0)
  {
  }

  // ---------- chunks ----------

  /** Rows in a chunk: none past the end, fewer in the last one. */
  function RowsInChunk(total: nat, perChunk: nat, chunk: nat): nat {
    var start := chunk * perChunk;
    if start >= total then 0 else if total - start < perChunk then total - start else perChunk
  }

  /** A row of the table lies within its chunk, and no other row id does. */
  lemma LocalInChunk(total: nat, perChunk: nat, row: nat)
    requires perChunk >= 1
    ensures row % perChunk < RowsInChunk(total, perChunk, row / perChunk) <==> row < total
    ensures row / perChunk * perChunk + row % perChunk == row
  {
    DivMod(row, perChunk);
  }

  // ---------- scattering ----------

  /** A column of the table: a value or null for every row. */
  type Table = seq<Option<nat>>

  /** What a slot holds: a value, and one when it is there. */
  datatype Slot = Slot(value: nat, flag: nat)

  const UNSET := Slot(0, 0)

  function SlotFor(cell: Option<nat>): Slot {
    match cell
    case Some(v) => Slot(v, 1)
    case None => UNSET
  }

  /** The slot of a row id: its cell when the row exists and its chunk was loaded. */
  ghost function Expected(table: Table, perChunk: nat, loaded: set<nat>, row: nat): Slot
    requires perChunk >= 1
  {
    if row < |table| && row / perChunk in loaded then SlotFor(table[row]) else UNSET
  }

  ghost function SlotAt(values: array<nat>, nulls: array<nat>, d: nat): Slot
    requires d < values.Length && d < nulls.Length
    reads values, nulls
  {
    Slot(values[d], nulls[d])
  }

  /** The slots are what is expected when the chunks in `done` have been gathered. */
  ghost predicate Filled(values: array<nat>, nulls: array<nat>, table: Table, rows: seq<nat>, perChunk: nat,
        done: set<nat>)
    requires perChunk >= 1 && values.Length == |rows| && nulls.Length == |rows|
    reads values, nulls
  {
    forall d :: 0 <= d < |rows| ==> SlotAt(values, nulls, d) == Expected(table, perChunk, done, rows[d])
  }

  /** One column of one chunk: the cells of the chunk go to their slots. */
  method GatherColumn(values: array<nat>, nulls: array<nat>, cells: seq<Option<nat>>, local: seq<nat>, dst: seq<nat>)
    requires values != nulls && values.Length == nulls.Length && |local| == |dst|
    requires forall i, j :: 0 <= i < j < |dst| ==> dst[i] != dst[j]
    requires forall d :: d in dst && d < values.Length ==> SlotAt(values, nulls, d) == UNSET
    modifies values, nulls
    ensures forall i :: 0 <= i < |dst| && dst[i] < values.Length ==>
      SlotAt(values, nulls, dst[i]) == if local[i] < |cells| then SlotFor(cells[local[i]]) else UNSET
    ensures forall d :: 0 <= d < values.Length && d !in dst ==>
      SlotAt(values, nulls, d) == old(SlotAt(values, nulls, d))
  {
    for i := 0 to |dst|
      invariant forall k :: 0 <= k < i && dst[k] < values.Length ==>
        SlotAt(values, nulls, dst[k]) == if local[k] < |cells| then SlotFor(cells[local[k]]) else UNSET
      invariant forall k :: i <= k < |dst| && dst[k] < values.Length ==> SlotAt(values, nulls, dst[k]) == UNSET
      invariant forall d :: 0 <= d < values.Length && d !in dst ==>
        SlotAt(values, nulls, d) == old(SlotAt(values, nulls, d))
    {
      var l, d := local[i], dst[i];
      if d >= values.Length || l >= |cells| { continue; }
      var present := cells[l].Some?;
      nulls[d] := if present then 1 else 0;
      if present { values[d] := cells[l].value; }
    }
  }

  /** The cells of a chunk. */
  function ChunkCells(table: Table, perChunk: nat, chunk: nat): (cells: seq<Option<nat>>)
    ensures |cells| == RowsInChunk(|table|, perChunk, chunk)
  {
    var start := chunk * perChunk;
    seq(RowsInChunk(|table|, perChunk, chunk), i requires 0 <= i < RowsInChunk(|table|, perChunk,
      chunk) => table[start + i])
  }

  /** Within its chunk, a row's cell is the table's. */
  lemma CellOfRow(table: Table, perChunk: nat, row: nat)
    requires perChunk >= 1
    ensures
      var cells := ChunkCells(table, perChunk, row / perChunk);
      && (row % perChunk < |cells| <==> row < |table|)
      && (row < |table| ==> cells[row % perChunk] == table[row])
  {
    LocalInChunk(|table|, perChunk, row);
  }

  /** Gathering a chunk that was not gathered before fills its slots and leaves the others. */
  method GatherChunk(values: array<nat>, nulls: array<nat>, table: Table, rows: seq<nat>, perChunk: nat, chunk: nat,
      share: Share, ghost done: set<nat>)
    requires perChunk >= 1 && values != nulls && values.Length == |rows| && nulls.Length == |rows|
    requires chunk !in done && share == ShareOf(rows, perChunk, chunk, |rows|)
    requires Filled(values, nulls, table, rows, perChunk, done)
    modifies values, nulls
    ensures Filled(values, nulls, table, rows, perChunk, done + {chunk})
  {
    hide SlotsOf, RowsInChunk;
    SlotsAre(rows, perChunk, chunk, |rows|);
    forall d | d in share.dst ensures SlotAt(values, nulls, d) == UNSET {
      assert SlotAt(values, nulls, d) == Expected(table, perChunk, done, rows[d]);
    }
    var cells := ChunkCells(table, perChunk, chunk);
    GatherColumn(values, nulls, cells, share.local, share.dst);
    forall d | 0 <= d < |rows|
      ensures SlotAt(values, nulls, d) == Expected(table, perChunk, done + {chunk}, rows[d])
    {
      if rows[d] / perChunk == chunk {
        assert d in share.dst;
        var i :| 0 <= i < |share.dst| && share.dst[i] == d;
        CellOfRow(table, perChunk, rows[d]);
      }
    }
  }

  /**
   The whole projection of one column. `order` lists the chunks, in the order they are gathered; a chunk whose payload
   did not load is passed over. Every slot ends up with the cell of its row.
   */
  method Materialize(table: Table, rows: seq<nat>, perChunk: nat, grouped: map<nat, Share>, order: seq<nat>,
        loaded: set<nat>)
    returns (values: array<nat>, nulls: array<nat>)
    requires perChunk >= 1 && Grouped(grouped, rows, perChunk, |rows|)
    requires (forall c :: c in order <==> c in grouped) && forall i, j :: 0 <= i < j < |order| ==> order[i] != order[j]
    ensures values.Length == |rows| && nulls.Length == |rows|
    ensures forall d :: 0 <= d < |rows| ==> SlotAt(values, nulls, d) == Expected(table, perChunk, loaded, rows[d])
  {
    hide ShareOf;
    values := new nat[|rows|](_ => 0);
    nulls := new nat[|rows|](_ => 0);
    ghost var done: set<nat> := {};
    for i := 0 to |order|
      invariant values != nulls && fresh(values) && fresh(nulls) && values.Length == |rows| && nulls.Length == |rows|
      invariant done == set c | c in order[..i] && c in loaded
      invariant Filled(values, nulls, table, rows, perChunk, done)
    {
      var chunk := order[i];
      assert chunk !in order[..i];
      assert order[..i + 1] == order[..i] + [chunk];
      if chunk !in loaded { continue; }
      GatherChunk(values, nulls, table, rows, perChunk, chunk, grouped[chunk], done);
      done := done + {chunk};
    }
    assert order[..|order|] == order;
    forall d | 0 <= d < |rows|
      ensures SlotAt(values, nulls, d) == Expected(table, perChunk, loaded, rows[d])
    {
      assert rows[d] / perChunk in grouped;
    }
  }
}

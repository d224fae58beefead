/** The synthetic GROUP BY runner. */
module SynthGroupBy {
  import opened Arithmetic
  import opened Ordering
  import opened SplitMix
  import opened Words

  // Four engines over the same rows, split among workers and partitions.

  datatype Workload = Workload(rows: nat, distinctKeys: nat, hotThreshold: nat, hotKeys: nat, seed: nat)

  /** Key counts are at least one, as the command line makes them. */
  predicate ValidWorkload(w: Workload) {
    w.distinctKeys >= 1 && w.hotKeys >= 1 && w.rows < TWO64
  }

  function SynthKey(row: nat, w: Workload): nat
    requires ValidWorkload(w)
  {
    var base := SplitMix64(Xor(row, w.seed));
    var hotDraw := SplitMix64(Xor(base, 0xD1B5_4A32_D192_ED03));
    if w.hotThreshold > 0 && hotDraw <= w.hotThreshold
    then SplitMix64(Xor(base, 0x94D0_49BB_1331_11EB)) % w.hotKeys
    else SplitMix64(Xor(base, 0xC6BC_2796_92B5_C323)) % w.distinctKeys
  }

  /** A key is below the number of keys it is drawn from: no row is hot at threshold zero, all are at the greatest. */
  lemma KeyDrawn(row: nat, w: Workload)
    requires ValidWorkload(w)
    ensures SynthKey(row, w) < if w.distinctKeys < w.hotKeys then w.hotKeys else w.distinctKeys
    ensures w.hotThreshold == 0 ==> SynthKey(row, w) < w.distinctKeys
    ensures w.hotThreshold >= MAX64 ==> SynthKey(row, w) < w.hotKeys
  {
    MixedIsWord(Xor(SplitMix64(Xor(row, w.seed)), 0xD1B5_4A32_D192_ED03));
  }

  /** The mask keeps the partition in range for every partition count. */
  function PartitionForKey(key: nat, partitions: nat): (p: nat)
    requires partitions >= 1
    ensures p < partitions
  {
    var mixed := SplitMix64(Xor(key, 0x9E37_79B9_7F4A_7C15));
    AndBelow(mixed, partitions - 1);
    And(mixed, partitions - 1)
  }

  /** The runner's partition counts are powers of two, for which the mask is a remainder. */
  lemma PartitionIsRemainder(key: nat, e: nat)
    ensures PartitionForKey(key, Pow2(e)) == SplitMix64(Xor(key, GAMMA)) % Pow2(e)
  {
    hide SplitMix64, And, Xor, Pow2;
    MaskIsRemainder(SplitMix64(Xor(key, GAMMA)), e);
  }

  /** Then every partition has keys. */
  lemma PartitionsReached(p: nat, e: nat)
    requires e <= 64 && p < Pow2(e)
    ensures exists key :: 0 <= key < TWO64 && PartitionForKey(key, Pow2(e)) == p
  {
    hide *;
    Powers();
    Pow2Mono(e, 64);
    MixingReachesAll(p);
    var x :| 0 <= x < TWO64 && SplitMix64(x) == p;
    UnmixedKey(x, GAMMA, p, e);
  }

  lemma UnmixedKey(x: nat, gamma: nat, p: nat, e: nat)
    requires x < TWO64 && gamma == GAMMA && SplitMix64(x) == p < Pow2(e)
    ensures exists key :: 0 <= key < TWO64 && PartitionForKey(key, Pow2(e)) == p
  {
    hide SplitMix64, PartitionForKey, Xor, Pow2;
    var key := Xor(x, gamma);
    XorTwice(x, gamma);
    XorWord(x, gamma);
    PartitionIsRemainder(key, e);
  }

  // ---------- splitting the rows ----------

  /** Start and end of a worker's rows; the products wrap at 64 bits. */
  function WorkerRowRange(totalRows: nat, workers: nat, worker: nat): (nat, nat)
    requires workers >= 1
  {
    (Times64(totalRows, worker) / workers, Times64(totalRows, worker + 1) / workers)
  }

  /** A 64-bit product. */
  function Times64(a: nat, b: nat): nat {
    MulAscends(0, b, a);
    Wrap(a * b)
  }

  lemma Times64Fits(a: nat, b: nat)
    requires a * b < TWO64
    ensures Times64(a, b) == a * b
  {
  }

  lemma Times64Below(a: nat, b: nat)
    ensures Times64(a, b) < TWO64
  {
  }

  /** The workers' ranges follow each other from row 0 to the last row. */
  ghost predicate Tiles(totalRows: nat, workers: nat)
    requires workers >= 1
  {
    && WorkerRowRange(totalRows, workers, 0).0 == 0
    && WorkerRowRange(totalRows, workers, workers - 1).1 == totalRows
    && forall k :: 0 <= k < workers ==>
         && WorkerRowRange(totalRows, workers, k).0 <= WorkerRowRange(totalRows, workers, k).1
         && (k + 1 < workers ==> WorkerRowRange(totalRows, workers, k).1 == WorkerRowRange(totalRows, workers, k + 1).0)
  }

  /** The ranges tile the rows exactly when the largest product does not wrap. */
  lemma RangesTile(totalRows: nat, workers: nat)
    requires workers >= 1 && totalRows < TWO64
    ensures Tiles(totalRows, workers) <==> totalRows * workers < TWO64
  {
    if totalRows * workers < TWO64 { RangesTileIf(totalRows, workers); }
    else { LastEndWraps(totalRows, workers); }
  }

  lemma RangesTileIf(totalRows: nat, workers: nat)
    requires workers >= 1 && totalRows * workers < TWO64
    ensures Tiles(totalRows, workers)
  {
    hide Times64;
    Times64Fits(totalRows, 0);
    Times64Fits(totalRows, workers);
    DivMul(totalRows, workers);
    DivMul(0, workers);
    forall k | 0 <= k < workers
      ensures WorkerRowRange(totalRows, workers, k).0 <= WorkerRowRange(totalRows, workers, k).1
    {
      RangeAscends(totalRows, workers, k);
    }
  }

  lemma RangeAscends(totalRows: nat, workers: nat, k: nat)
    requires totalRows * workers < TWO64 && k < workers
    ensures WorkerRowRange(totalRows, workers, k).0 <= WorkerRowRange(totalRows, workers, k).1
  {
    hide Times64;
    MulAscends(k, k + 1, totalRows);
    MulAscends(k + 1, workers, totalRows);
    Times64Fits(totalRows, k);
    Times64Fits(totalRows, k + 1);
    DivMono(Times64(totalRows, k), Times64(totalRows, k + 1), workers);
  }

  /** When the largest product wraps, the last worker stops short of the last row. */
  lemma LastEndWraps(totalRows: nat, workers: nat)
    requires workers >= 1 && totalRows * workers >= TWO64
    ensures WorkerRowRange(totalRows, workers, workers - 1).1 < totalRows
  {
    hide Times64;
    var last := Times64(totalRows, workers);
    Times64Below(totalRows, workers);
    QuotientBounds(last, workers);
    MulCancel(last / workers, totalRows, workers);
  }

  // ---------- key sets and count maps ----------

  /** The keys of rows `lo` to `hi - 1`. */
  ghost function KeySet(w: Workload, lo: nat, hi: nat): set<nat>
    requires ValidWorkload(w) && lo <= hi
    decreases hi - lo
  {
    if lo == hi then {} else KeySet(w, lo, hi - 1) + {SynthKey(hi - 1, w)}
  }

  ghost function SumValues(m: map<nat, nat>): nat
    decreases |m|
  {
    if m == map[] then 0
    else
      var k :| k in m;
      m[k] + SumValues(m - {k})
  }

  lemma {:induction false} SumRemove(m: map<nat, nat>, k: nat)
    requires k in m
    ensures SumValues(m) == m[k] + SumValues(m - {k})
    decreases |m|
  {
    var j :| j in m && SumValues(m) == m[j] + SumValues(m - {j});
    if j != k {
      SumRemove(m - {j}, k);
      SumRemove(m - {k}, j);
      assert m - {j} - {k} == m - {k} - {j};
    }
  }

  /** Adds to an entry of a count map, which starts at zero. */
  function Bump(m: map<nat, nat>, k: nat, d: nat): map<nat, nat> {
    m[k := (if k in m then m[k] else 0) + d]
  }

  lemma SumBump(m: map<nat, nat>, k: nat, d: nat)
    ensures SumValues(Bump(m, k, d)) == SumValues(m) + d
    ensures Bump(m, k, d).Keys == m.Keys + {k}
  {
    var n := Bump(m, k, d);
    SumRemove(n, k);
    if k in m {
      SumRemove(m, k);
      assert n - {k} == m - {k};
    } else {
      assert n - {k} == m;
    }
  }

  /** What a map of counts says of the rows `lo` to `hi - 1`: their keys, and how many rows there are. */
  ghost predicate Counts(m: map<nat, nat>, w: Workload, lo: nat, hi: nat)
    requires ValidWorkload(w) && lo <= hi
  {
    m.Keys == KeySet(w, lo, hi) && SumValues(m) == hi - lo
  }

  /** There are no more groups than rows, nor than keys to draw from. */
  lemma {:induction false} GroupsBounded(w: Workload, lo: nat, hi: nat)
    requires ValidWorkload(w) && lo <= hi
    ensures |KeySet(w, lo, hi)| <= hi - lo
    ensures w.hotKeys <= w.distinctKeys ==> |KeySet(w, lo, hi)| <= w.distinctKeys
    decreases hi - lo
  {
    hide SynthKey;
    if lo < hi { GroupsBounded(w, lo, hi - 1); }
    if w.hotKeys <= w.distinctKeys {
      KeysDrawn(w, lo, hi);
      SubsetSize(KeySet(w, lo, hi), Range(0, w.distinctKeys));
    }
  }

  lemma {:induction false} KeysDrawn(w: Workload, lo: nat, hi: nat)
    requires ValidWorkload(w) && lo <= hi && w.hotKeys <= w.distinctKeys
    ensures forall k <- KeySet(w, lo, hi) :: k < w.distinctKeys
    decreases hi - lo
  {
    hide SynthKey;
    if lo < hi {
      KeysDrawn(w, lo, hi - 1);
      KeyDrawn(hi - 1, w);
    }
  }

  lemma {:induction false} KeySetSplit(w: Workload, lo: nat, mid: nat, hi: nat)
    requires ValidWorkload(w) && lo <= mid <= hi
    ensures KeySet(w, lo, hi) == KeySet(w, lo, mid) + KeySet(w, mid, hi)
    decreases hi - mid
  {
    hide SynthKey;
    if mid < hi { KeySetSplit(w, lo, mid, hi - 1); }
  }

  // ---------- thread-local maps, then a merge ----------

  /** One worker's scan. */
  method ScanToMap(w: Workload, start: nat, end: nat) returns (m: map<nat, nat>)
    requires ValidWorkload(w)
    ensures start <= end ==> Counts(m, w, start, end)
  {
    hide SynthKey, SumValues;
    m := map[];
    SumEmpty();
    var row := start;
    while row < end
      invariant start <= end ==> row <= end
      invariant start <= row && Counts(m, w, start, row)
    {
      var key := SynthKey(row, w);
      SumBump(m, key, 1);
      m := Bump(m, key, 1);
      row := row + 1;
    }
  }

  lemma RemoveKey(m: map<nat, nat>, k: nat)
    requires k in m
    ensures (m - {k}).Keys == m.Keys - {k} && |(m - {k}).Keys| < |m.Keys|
  {
  }

  lemma SumEmpty()
    ensures SumValues(map[]) == 0
  {
  }

  lemma NothingCounted(w: Workload)
    requires ValidWorkload(w)
    ensures Counts(map[], w, 0, 0)
  {
    SumEmpty();
  }

  /** Adds every entry of `local` to `total`, in any order. */
  method MergeInto(total: map<nat, nat>, local: map<nat, nat>) returns (m: map<nat, nat>)
    ensures m.Keys == total.Keys + local.Keys && SumValues(m) == SumValues(total) + SumValues(local)
  {
    hide SumValues, Bump;
    m := total;
    var left := local;
    SumEmpty();
    while left.Keys != {}
      invariant left.Keys <= local.Keys
      invariant m.Keys + left.Keys == total.Keys + local.Keys
      invariant SumValues(m) + SumValues(left) == SumValues(total) + SumValues(local)
      decreases |left.Keys|
    {
      var k :| k in left.Keys;
      SumBump(m, k, left[k]);
      SumRemove(left, k);
      m := Bump(m, k, left[k]);
      RemoveKey(left, k);
      left := left - {k};
    }
    assert left == map[];
  }

  /** The number of groups and the row sum the run should report. */
  ghost predicate RightAnswer(w: Workload, groups: nat, rowSum: nat)
    requires ValidWorkload(w)
  {
    groups == |KeySet(w, 0, w.rows)| && rowSum == w.rows
  }

  lemma RangeFacts(totalRows: nat, workers: nat, k: nat)
    requires workers >= 1 && totalRows < TWO64 && totalRows * workers < TWO64 && k < workers
    ensures
      var (start, end) := WorkerRowRange(totalRows, workers, k);
      && start <= end
      && (k == 0 ==> start == 0)
      && (k + 1 < workers ==> end == WorkerRowRange(totalRows, workers, k + 1).0)
      && (k + 1 == workers ==> end == totalRows)
  {
    RangesTile(totalRows, workers);
  }

  /** Row count of the first `k` workers. */
  function RowsBefore(totalRows: nat, workers: nat, k: nat): nat
    requires workers >= 1
  {
    if k == 0 then 0 else WorkerRowRange(totalRows, workers, k - 1).1
  }

  /** Merging the counts of worker `k` extends the rows counted by that worker's range. */
  lemma CountsMerged(w: Workload, workers: nat, k: nat, total: map<nat, nat>, local: map<nat, nat>,
                     merged: map<nat, nat>)
    requires ValidWorkload(w) && workers >= 1 && w.rows * workers < TWO64 && k < workers
    requires Counts(total, w, 0, RowsBefore(w.rows, workers, k))
    requires
      var (start, end) := WorkerRowRange(w.rows, workers, k);
      start <= end && Counts(local, w, start, end)
    requires merged.Keys == total.Keys + local.Keys && SumValues(merged) == SumValues(total) + SumValues(local)
    ensures Counts(merged, w, 0, RowsBefore(w.rows, workers, k + 1))
  {
    hide SynthKey, SumValues, WorkerRowRange, KeySet;
    RangeFacts(w.rows, workers, k);
    if k > 0 { RangeFacts(w.rows, workers, k - 1); }
    var (start, end) := WorkerRowRange(w.rows, workers, k);
    KeySetSplit(w, 0, start, end);
  }

  method RunThreadLocalMerge(w: Workload, workers: nat) returns (groups: nat, rowSum: nat)
    requires ValidWorkload(w) && workers >= 1
    ensures w.rows * workers < TWO64 ==> RightAnswer(w, groups, rowSum)
  {
    hide SynthKey, SumValues, WorkerRowRange, KeySet;
    ghost var fits := w.rows * workers < TWO64;
    var finalMap: map<nat, nat> := map[];
    NothingCounted(w);
    for worker := 0 to workers
      invariant fits ==> Counts(finalMap, w, 0, RowsBefore(w.rows, workers, worker))
    {
      var (start, end) := WorkerRowRange(w.rows, workers, worker);
      if fits { RangeFacts(w.rows, workers, worker); }
      var local := ScanToMap(w, start, end);
      var merged := MergeInto(finalMap, local);
      if fits { CountsMerged(w, workers, worker, finalMap, local, merged); }
      finalMap := merged;
    }
    if fits { RangeFacts(w.rows, workers, workers - 1); }
    rowSum := SumMap(finalMap);
    groups := |finalMap|;
    assert |finalMap.Keys| == |finalMap|;
  }

  method SumMap(m: map<nat, nat>) returns (sum: nat)
    ensures sum == SumValues(m)
  {
    hide SumValues;
    sum := 0;
    var left := m;
    SumEmpty();
    while left.Keys != {}
      invariant sum + SumValues(left) == SumValues(m)
      decreases |left.Keys|
    {
      var k :| k in left.Keys;
      SumRemove(left, k);
      sum := sum + left[k];
      RemoveKey(left, k);
      left := left - {k};
    }
    assert left == map[];
  }

  // ---------- partitions ----------

  datatype Record = Record(key: nat, count: nat)

  /** The records of rows `lo` to `hi - 1` that fall into partition `p`, in row order. */
  ghost function PartOf(w: Workload, partitions: nat, lo: nat, hi: nat, p: nat): seq<Record>
    requires ValidWorkload(w) && partitions >= 1 && lo <= hi
    decreases hi - lo
  {
    if lo == hi then []
    else
      var rest := PartOf(w, partitions, lo, hi - 1, p);
      var key := SynthKey(hi - 1, w);
      if PartitionForKey(key, partitions) == p then rest + [Record(key, 1)] else rest
  }

  lemma {:induction false} PartOfSplit(w: Workload, partitions: nat, lo: nat, mid: nat, hi: nat, p: nat)
    requires ValidWorkload(w) && partitions >= 1 && lo <= mid <= hi
    ensures PartOf(w, partitions, lo, hi, p) == PartOf(w, partitions, lo, mid, p) + PartOf(w, partitions, mid, hi, p)
    decreases hi - mid
  {
    hide SynthKey, PartitionForKey;
    if mid < hi { PartOfSplit(w, partitions, lo, mid, hi - 1, p); }
  }

  ghost function KeysOf(records: seq<Record>): set<nat> {
    if records == [] then {} else KeysOf(records[..|records| - 1]) + {records[|records| - 1].key}
  }

  function SumCounts(records: seq<Record>): nat {
    if records == [] then 0 else SumCounts(records[..|records| - 1]) + records[|records| - 1].count
  }

  /** The keys of a partition are the keys that belong there, and its counts add up to its rows. */
  lemma {:induction false} PartKeys(w: Workload, partitions: nat, lo: nat, hi: nat, p: nat)
    requires ValidWorkload(w) && partitions >= 1 && lo <= hi
    ensures KeysOf(PartOf(w, partitions, lo, hi, p)) == set k | k in KeySet(w, lo, hi)
      && PartitionForKey(k, partitions) == p
    ensures SumCounts(PartOf(w, partitions, lo, hi, p)) == |PartOf(w, partitions, lo, hi, p)|
    decreases hi - lo
  {
    hide SynthKey, PartitionForKey;
    if lo < hi {
      PartKeys(w, partitions, lo, hi - 1, p);
      var rest := PartOf(w, partitions, lo, hi - 1, p);
      var key := SynthKey(hi - 1, w);
      assert (rest + [Record(key, 1)])[..|rest|] == rest;
    }
  }

  /** Rows in the first `n` partitions. */
  ghost function RowsIn(w: Workload, partitions: nat, lo: nat, hi: nat, n: nat): nat
    requires ValidWorkload(w) && partitions >= 1 && lo <= hi
  {
    if n == 0 then 0 else RowsIn(w, partitions, lo, hi, n - 1) + |PartOf(w, partitions, lo, hi, n - 1)|
  }

  lemma {:induction false} RowsInStep(w: Workload, partitions: nat, lo: nat, hi: nat, n: nat)
    requires ValidWorkload(w) && partitions >= 1 && lo < hi
    ensures RowsIn(w, partitions, lo, hi, n) == RowsIn(w, partitions, lo, hi - 1, n)
      + (if PartitionForKey(SynthKey(hi - 1, w), partitions) < n then 1 else 0)
    decreases n
  {
    hide SynthKey, PartitionForKey;
    if n == 0 {
    } else {
      RowsInStep(w, partitions, lo, hi, n - 1);
    }
  }

  /** Every row is in exactly one partition. */
  lemma {:induction false} RowsInAll(w: Workload, partitions: nat, lo: nat, hi: nat)
    requires ValidWorkload(w) && partitions >= 1 && lo <= hi
    ensures RowsIn(w, partitions, lo, hi, partitions) == hi - lo
    decreases hi - lo
  {
    hide SynthKey, PartitionForKey, PartOf, RowsIn;
    if lo == hi {
      RowsInNone(w, partitions, lo, partitions);
    } else {
      RowsInStep(w, partitions, lo, hi, partitions);
      assert PartitionForKey(SynthKey(hi - 1, w), partitions) < partitions;
      RowsInAll(w, partitions, lo, hi - 1);
    }
  }

  lemma {:induction false} RowsInNone(w: Workload, partitions: nat, lo: nat, n: nat)
    requires ValidWorkload(w) && partitions >= 1
    ensures RowsIn(w, partitions, lo, lo, n) == 0
  {
    if n == 0 {
    } else {
      RowsInNone(w, partitions, lo, n - 1);
    }
  }

  ghost function KeysBelow(keys: set<nat>, partitions: nat, n: nat): set<nat>
    requires partitions >= 1
  {
    set k | k in keys && PartitionForKey(k, partitions) < n
  }

  /** The keys of different partitions differ, so partition group counts add up. */
  lemma KeysBelowStep(keys: set<nat>, partitions: nat, n: nat)
    requires partitions >= 1
    ensures |KeysBelow(keys, partitions, n + 1)|
      == |KeysBelow(keys, partitions, n)| + |set k | k in keys && PartitionForKey(k, partitions) == n|
  {
    hide PartitionForKey;
    var here := set k | k in keys && PartitionForKey(k, partitions) == n;
    assert KeysBelow(keys, partitions, n + 1) == KeysBelow(keys, partitions, n) + here;
    assert KeysBelow(keys, partitions, n) !! here;
  }

  /** One worker's scan into partition vectors. */
  method ScanToParts(w: Workload, partitions: nat, start: nat, end: nat) returns (parts: seq<seq<Record>>)
    requires ValidWorkload(w) && partitions >= 1
    ensures |parts| == partitions
    ensures start <= end ==> forall p :: 0 <= p < partitions ==> parts[p] == PartOf(w, partitions, start, end, p)
  {
    hide SynthKey, PartitionForKey;
    parts := seq(partitions, _ => []);
    var row := start;
    while row < end
      invariant start <= row && (start <= end ==> row <= end)
      invariant |parts| == partitions
      invariant forall p :: 0 <= p < partitions ==> parts[p] == PartOf(w, partitions, start, row, p)
    {
      var key := SynthKey(row, w);
      var p := PartitionForKey(key, partitions);
      parts := parts[p := parts[p] + [Record(key, 1)]];
      row := row + 1;
    }
  }

  datatype Summary = Summary(groups: nat, rowSum: nat)

  /** What a partition's records should summarise to. */
  ghost predicate Summarises(s: Summary, records: seq<Record>) {
    s.groups == |KeysOf(records)| && s.rowSum == SumCounts(records)
  }

  /** Counting by hashing. */
  method SummariseByHash(records: seq<Record>) returns (s: Summary)
    ensures Summarises(s, records)
  {
    hide SumValues, Bump;
    var m: map<nat, nat> := map[];
    SumEmpty();
    for i := 0 to |records|
      invariant m.Keys == KeysOf(records[..i]) && SumValues(m) == SumCounts(records[..i])
    {
      assert records[..i + 1][..i] == records[..i];
      SumBump(m, records[i].key, records[i].count);
      m := Bump(m, records[i].key, records[i].count);
    }
    assert records[..|records|] == records;
    var rowSum := SumMap(m);
    assert |m.Keys| == |m|;
    s := Summary(|m|, rowSum);
  }

  predicate RecordLe(a: Record, b: Record) {
    a.key < b.key || (a.key == b.key && a.count <= b.count)
  }

  lemma {:induction false} KeysOfIn(records: seq<Record>)
    ensures forall k :: k in KeysOf(records) <==> exists i :: 0 <= i < |records| && records[i].key == k
  {
    if records == [] {
    } else {
      var front, last := records[..|records| - 1], records[|records| - 1];
      KeysOfIn(front);
      assert records == front + [last];
    }
  }

  lemma {:induction false} SumCountsConcat(a: seq<Record>, b: seq<Record>)
    ensures SumCounts(a + b) == SumCounts(a) + SumCounts(b)
    ensures KeysOf(a + b) == KeysOf(a) + KeysOf(b)
    decreases |b|
  {
    if b == [] {
      assert a + b == a;
    } else {
      assert (a + b)[..|a + b| - 1] == a + b[..|b| - 1];
      SumCountsConcat(a, b[..|b| - 1]);
    }
  }

  /** Reordering records changes neither their keys nor their counts. */
  lemma KeysPermute(a: seq<Record>, b: seq<Record>)
    requires multiset(a) == multiset(b)
    ensures KeysOf(a) == KeysOf(b)
  {
    KeysOfIn(a);
    KeysOfIn(b);
    forall i | 0 <= i < |a| ensures a[i] in b { assert a[i] in multiset(b); }
    forall i | 0 <= i < |b| ensures b[i] in a { assert b[i] in multiset(a); }
  }

  lemma SumOne(x: Record)
    ensures SumCounts([x]) == x.count
  {
    assert [x][..0] == [];
  }

  lemma SumWithout(b: seq<Record>, i: nat)
    requires i < |b|
    ensures SumCounts(b) == SumCounts(b[..i] + b[i + 1..]) + b[i].count
    ensures multiset(b) == multiset(b[..i] + b[i + 1..]) + multiset{b[i]}
  {
    hide KeysOf, SumCounts;
    var x, front, back := b[i], b[..i], b[i + 1..];
    assert b == front + ([x] + back);
    SumCountsConcat(front, [x] + back);
    SumCountsConcat([x], back);
    SumCountsConcat(front, back);
    SumOne(x);
  }

  lemma CancelOne<T>(a: multiset<T>, b: multiset<T>, x: T)
    requires a + multiset{x} == b + multiset{x}
    ensures a == b
  {
    assert a == a + multiset{x} - multiset{x};
    assert b == b + multiset{x} - multiset{x};
  }

  lemma {:induction false} SumPermutes(a: seq<Record>, b: seq<Record>)
    requires multiset(a) == multiset(b)
    ensures SumCounts(a) == SumCounts(b)
    decreases |a|
  {
    hide SumCounts;
    assert |multiset(a)| == |a| && |multiset(b)| == |b|;
    if a == [] {
      assert a == b;
    } else {
      assert a[0] in multiset(b);
      var i :| 0 <= i < |b| && b[i] == a[0];
      SumWithout(a, 0);
      SumWithout(b, i);
      CancelOne(multiset(a[..0] + a[1..]), multiset(b[..i] + b[i + 1..]), a[0]);
      SumPermutes(a[..0] + a[1..], b[..i] + b[i + 1..]);
    }
  }

  lemma RecordOrder()
    ensures TotalOrder(RecordLe)
  {
  }

  method SortRecords(records: seq<Record>) returns (sorted: seq<Record>)
    ensures multiset(sorted) == multiset(records)
    ensures Sorted(RecordLe, sorted)
  {
    RecordOrder();
    sorted := [];
    for i := 0 to |records|
      invariant multiset(sorted) == multiset(records[..i]) && Sorted(RecordLe, sorted)
    {
      assert records[..i + 1] == records[..i] + [records[i]];
      InsertSorted(RecordLe, records[i], sorted);
      sorted := Insert(RecordLe, records[i], sorted);
    }
    assert records[..|records|] == records;
  }

  /** A run of equal keys starts at `i`. */
  ghost predicate RunStarts(part: seq<Record>, i: nat)
    requires i <= |part|
  {
    i == 0 || i == |part| || part[i - 1].key < part[i].key
  }

  /** At the start of a run the key has not occurred before. */
  lemma NewRun(part: seq<Record>, i: nat)
    requires Sorted(RecordLe, part) && i < |part| && RunStarts(part, i)
    ensures part[i].key !in KeysOf(part[..i])
  {
    KeysOfIn(part[..i]);
    forall j | 0 <= j < i ensures part[..i][j].key < part[i].key {
      if j < i - 1 { assert RecordLe(part[j], part[i - 1]); }
    }
  }

  /** The inner loop: one run of equal keys. */
  method CountRun(part: seq<Record>, begin: nat) returns (count: nat, i: nat)
    requires Sorted(RecordLe, part) && begin < |part|
    ensures begin < i <= |part| && RunStarts(part, i)
    ensures KeysOf(part[..i]) == KeysOf(part[..begin]) + {part[begin].key}
    ensures SumCounts(part[..i]) == SumCounts(part[..begin]) + count
  {
    var key := part[begin].key;
    count, i := 0, begin;
    while i < |part| && part[i].key == key
      invariant begin <= i <= |part|
      invariant i > begin ==> part[i - 1].key == key
      invariant KeysOf(part[..i]) == KeysOf(part[..begin]) + (if i == begin then {} else {key})
      invariant SumCounts(part[..i]) == SumCounts(part[..begin]) + count
      decreases |part| - i
    {
      assert part[..i + 1][..i] == part[..i];
      count := count + part[i].count;
      i := i + 1;
    }
    if i < |part| { assert RecordLe(part[i - 1], part[i]); }
  }

  /** Counting runs of equal keys in sorted records. */
  method SummariseBySort(records: seq<Record>) returns (s: Summary)
    ensures Summarises(s, records)
  {
    hide KeysOf, SumCounts;
    var part := SortRecords(records);
    KeysPermute(part, records);
    SumPermutes(part, records);
    var groups, rowSum, i := 0, 0, 0;
    NoRecords(part);
    while i < |part|
      invariant 0 <= i <= |part| && RunStarts(part, i)
      invariant groups == |KeysOf(part[..i])| && rowSum == SumCounts(part[..i])
    {
      NewRun(part, i);
      var count, end := CountRun(part, i);
      i := end;
      groups := groups + 1;
      rowSum := rowSum + count;
    }
    assert part[..|part|] == part;
    s := Summary(groups, rowSum);
  }

  lemma NoRecords(part: seq<Record>)
    ensures KeysOf(part[..0]) == {} && SumCounts(part[..0]) == 0
  {
  }

  /** Each partition's summary, added up over the partitions, is the right answer. */
  method AddUp(w: Workload, partitions: nat, parts: seq<seq<Record>>, useSort: bool) returns (groups: nat, rowSum: nat)
    requires ValidWorkload(w) && partitions >= 1 && |parts| == partitions
    ensures (forall p :: 0 <= p < partitions ==> parts[p] == PartOf(w, partitions, 0, w.rows, p))
      ==> RightAnswer(w, groups, rowSum)
  {
    hide SynthKey, PartitionForKey, PartOf, KeysOf, SumCounts;
    ghost var right := forall p :: 0 <= p < partitions ==> parts[p] == PartOf(w, partitions, 0, w.rows, p);
    groups, rowSum := 0, 0;
    for p := 0 to partitions
      invariant right ==> groups == |KeysBelow(KeySet(w, 0, w.rows), partitions, p)|
      invariant right ==> rowSum == RowsIn(w, partitions, 0, w.rows, p)
    {
      var s: Summary;
      if useSort { s := SummariseBySort(parts[p]); } else { s := SummariseByHash(parts[p]); }
      groups := groups + s.groups;
      rowSum := rowSum + s.rowSum;
      PartKeys(w, partitions, 0, w.rows, p);
      KeysBelowStep(KeySet(w, 0, w.rows), partitions, p);
    }
    RowsInAll(w, partitions, 0, w.rows);
    assert KeysBelow(KeySet(w, 0, w.rows), partitions, partitions) == KeySet(w, 0, w.rows);
  }

  /** The workers' scans, gathered partition by partition in worker order. */
  method GatherParts(w: Workload, workers: nat, partitions: nat) returns (byPartition: seq<seq<Record>>)
    requires ValidWorkload(w) && workers >= 1 && partitions >= 1
    ensures |byPartition| == partitions
    ensures w.rows * workers < TWO64 ==>
      forall p :: 0 <= p < partitions ==> byPartition[p] == PartOf(w, partitions, 0, w.rows, p)
  {
    hide SynthKey, PartitionForKey, WorkerRowRange;
    byPartition := seq(partitions, _ => []);
    for worker := 0 to workers
      invariant |byPartition| == partitions
      invariant w.rows * workers < TWO64 ==>
        forall p :: 0 <= p < partitions ==>
          byPartition[p] == PartOf(w, partitions, 0, RowsBefore(w.rows, workers, worker), p)
    {
      var (start, end) := WorkerRowRange(w.rows, workers, worker);
      var workerParts := ScanToParts(w, partitions, start, end);
      ghost var before := byPartition;
      for p := 0 to partitions
        invariant |byPartition| == partitions
        invariant forall q :: 0 <= q < partitions ==>
          byPartition[q] == if q < p then before[q] + workerParts[q] else before[q]
      {
        byPartition := byPartition[p := byPartition[p] + workerParts[p]];
      }
      if w.rows * workers < TWO64 {
        RangeFacts(w.rows, workers, worker);
        if worker > 0 { RangeFacts(w.rows, workers, worker - 1); }
        forall p | 0 <= p < partitions ensures byPartition[p] == PartOf(w, partitions, 0, end, p) {
          PartOfSplit(w, partitions, 0, start, end, p);
        }
      }
    }
    if w.rows * workers < TWO64 { RangeFacts(w.rows, workers, workers - 1); }
  }

  /** Partition vectors, gathered and then summarised by hashing or by sorting. */
  method RunPartitionOwner(w: Workload, workers: nat, partitions: nat, useSort: bool) returns (groups: nat, rowSum: nat)
    requires ValidWorkload(w) && workers >= 1 && partitions >= 1
    ensures w.rows * workers < TWO64 ==> RightAnswer(w, groups, rowSum)
  {
    var byPartition := GatherParts(w, workers, partitions);
    groups, rowSum := AddUp(w, partitions, byPartition, useSort);
  }

  /** The part of one partition that the first `n` workers hold. */
  ghost function HeldBy(perWorker: seq<seq<seq<Record>>>, p: nat, n: nat): seq<Record>
    requires n <= |perWorker| && forall i :: 0 <= i < |perWorker| ==> p < |perWorker[i]|
  {
    if n == 0 then [] else HeldBy(perWorker, p, n - 1) + perWorker[n - 1][p]
  }

  lemma TakeMore(held: seq<Record>, records: seq<Record>, j: nat)
    requires j < |records|
    ensures KeysOf(held + records[..j + 1]) == KeysOf(held + records[..j]) + {records[j].key}
    ensures SumCounts(held + records[..j + 1]) == SumCounts(held + records[..j]) + records[j].count
  {
    assert (held + records[..j + 1])[..|held| + j] == held + records[..j];
  }

  lemma TakeNone(held: seq<Record>, records: seq<Record>)
    ensures held + records[..0] == held && held + records[..|records|] == held + records
  {
  }

  /** Adds one worker's records of a partition to the map. */
  method HashRecords(total: map<nat, nat>, records: seq<Record>, ghost held: seq<Record>) returns (m: map<nat, nat>)
    requires total.Keys == KeysOf(held) && SumValues(total) == SumCounts(held)
    ensures m.Keys == KeysOf(held + records) && SumValues(m) == SumCounts(held + records)
  {
    hide SumValues, Bump, KeysOf, SumCounts;
    m := total;
    TakeNone(held, records);
    for j := 0 to |records|
      invariant m.Keys == KeysOf(held + records[..j]) && SumValues(m) == SumCounts(held + records[..j])
    {
      TakeMore(held, records, j);
      SumBump(m, records[j].key, records[j].count);
      m := Bump(m, records[j].key, records[j].count);
    }
  }

  lemma NoneHeld()
    ensures KeysOf([]) == {} && SumCounts([]) == 0
  {
  }

  /** Hashes one partition straight from the workers' vectors, without gathering them. */
  method SummariseDirect(perWorker: seq<seq<seq<Record>>>, p: nat) returns (s: Summary)
    requires forall i :: 0 <= i < |perWorker| ==> p < |perWorker[i]|
    ensures Summarises(s, HeldBy(perWorker, p, |perWorker|))
  {
    hide SumValues, Bump, KeysOf, SumCounts;
    var m: map<nat, nat> := map[];
    SumEmpty();
    NoneHeld();
    for i := 0 to |perWorker|
      invariant m.Keys == KeysOf(HeldBy(perWorker, p, i)) && SumValues(m) == SumCounts(HeldBy(perWorker, p, i))
    {
      m := HashRecords(m, perWorker[i][p], HeldBy(perWorker, p, i));
    }
    var rowSum := SumMap(m);
    assert |m.Keys| == |m|;
    s := Summary(|m|, rowSum);
  }

  /** Worker `i` holds, in vector `p`, the records of its own rows that belong to partition `p`. */
  ghost predicate HoldsPart(w: Workload, workers: nat, partitions: nat, parts: seq<seq<Record>>, i: nat, p: nat)
    requires ValidWorkload(w) && workers >= 1 && partitions >= 1 && |parts| == partitions && p < partitions
  {
    var (start, end) := WorkerRowRange(w.rows, workers, i);
    start <= end && parts[p] == PartOf(w, partitions, start, end, p)
  }

  lemma HeldStep(w: Workload, workers: nat, partitions: nat, parts: seq<seq<Record>>, n: nat, p: nat)
    requires ValidWorkload(w) && workers >= 1 && partitions >= 1 && w.rows * workers < TWO64
    requires |parts| == partitions && n < workers && p < partitions
    requires HoldsPart(w, workers, partitions, parts, n, p)
    ensures PartOf(w, partitions, 0, RowsBefore(w.rows, workers, n + 1), p)
      == PartOf(w, partitions, 0, RowsBefore(w.rows, workers, n), p) + parts[p]
  {
    hide WorkerRowRange, SynthKey, PartitionForKey, PartOf;
    RangeFacts(w.rows, workers, n);
    if n > 0 { RangeFacts(w.rows, workers, n - 1); }
    var (start, end) := WorkerRowRange(w.rows, workers, n);
    PartOfSplit(w, partitions, 0, start, end, p);
  }

  lemma {:induction false} HeldIsPart(w: Workload, workers: nat, partitions: nat, perWorker: seq<seq<seq<Record>>>,
        p: nat, n: nat)
    requires ValidWorkload(w) && workers >= 1 && partitions >= 1 && w.rows * workers < TWO64
    requires |perWorker| == workers && n <= workers && p < partitions
    requires forall i :: 0 <= i < workers ==> |perWorker[i]| == partitions
    requires forall i :: 0 <= i < workers ==> HoldsPart(w, workers, partitions, perWorker[i], i, p)
    ensures HeldBy(perWorker, p, n) == PartOf(w, partitions, 0, RowsBefore(w.rows, workers, n), p)
  {
    hide WorkerRowRange, SynthKey, PartitionForKey, HoldsPart;
    if n == 0 {
    } else {
      HeldIsPart(w, workers, partitions, perWorker, p, n - 1);
      HeldStep(w, workers, partitions, perWorker[n - 1], n - 1, p);
    }
  }

  /** All the workers' partition vectors. */
  method ScanAll(w: Workload, workers: nat, partitions: nat) returns (perWorker: seq<seq<seq<Record>>>)
    requires ValidWorkload(w) && workers >= 1 && partitions >= 1
    ensures |perWorker| == workers
    ensures forall i :: 0 <= i < workers ==> |perWorker[i]| == partitions
    ensures w.rows * workers < TWO64 ==> forall i, p :: 0 <= i < workers && 0 <= p < partitions ==>
      HoldsPart(w, workers, partitions, perWorker[i], i, p)
  {
    hide SynthKey, PartitionForKey, WorkerRowRange, PartOf;
    perWorker := [];
    for worker := 0 to workers
      invariant |perWorker| == worker
      invariant forall i :: 0 <= i < worker ==> |perWorker[i]| == partitions
      invariant w.rows * workers < TWO64 ==> forall i, p :: 0 <= i < worker && 0 <= p < partitions ==>
        HoldsPart(w, workers, partitions, perWorker[i], i, p)
    {
      var (start, end) := WorkerRowRange(w.rows, workers, worker);
      if w.rows * workers < TWO64 { RangeFacts(w.rows, workers, worker); }
      var parts := ScanToParts(w, partitions, start, end);
      perWorker := perWorker + [parts];
    }
  }

  method RunPartitionOwnerDirectHash(w: Workload, workers: nat, partitions: nat) returns (groups: nat, rowSum: nat)
    requires ValidWorkload(w) && workers >= 1 && partitions >= 1
    ensures w.rows * workers < TWO64 ==> RightAnswer(w, groups, rowSum)
  {
    hide SynthKey, PartitionForKey, WorkerRowRange, HoldsPart, PartOf, KeysOf, SumCounts, HeldBy;
    ghost var fits := w.rows * workers < TWO64;
    var perWorker := ScanAll(w, workers, partitions);
    groups, rowSum := 0, 0;
    for p := 0 to partitions
      invariant fits ==> groups == |KeysBelow(KeySet(w, 0, w.rows), partitions, p)|
      invariant fits ==> rowSum == RowsIn(w, partitions, 0, w.rows, p)
    {
      var s := SummariseDirect(perWorker, p);
      groups := groups + s.groups;
      rowSum := rowSum + s.rowSum;
      if fits {
        HeldIsPart(w, workers, partitions, perWorker, p, workers);
        RangeFacts(w.rows, workers, workers - 1);
        PartKeys(w, partitions, 0, w.rows, p);
        KeysBelowStep(KeySet(w, 0, w.rows), partitions, p);
      }
    }
    RowsInAll(w, partitions, 0, w.rows);
    assert KeysBelow(KeySet(w, 0, w.rows), partitions, partitions) == KeySet(w, 0, w.rows);
  }
}

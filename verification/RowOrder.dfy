/** Sort keys of rows, the total order on row candidates, and dictionary ranks that stand for strings. */
module RowOrder {
  import opened Arithmetic
  import opened Wrappers
  import opened Ordering
  import opened Words
  import opened LittleEndian

  const TWO63: nat := 0x8000_0000_0000_0000

  /** A double as its bit pattern. */
  type F64 = x: int | 0 <= x < TWO64
  type u64 = x: int | 0 <= x < TWO64

  datatype Cmp = Less | Equal | Greater

  function CmpInt(a: int, b: int): Cmp {
    if a < b then Less else if a == b then Equal else Greater
  }

  /** The signed integer that orders bit patterns by the IEEE 754 total order. */
  function TotalKey(x: F64): int {
    if x < TWO63 then x else -1 - (x - TWO63)
  }

  datatype RowKey = Null | Num(v: F64) | Bytes(data: seq<byte>)

  function CmpBytes(a: seq<byte>, b: seq<byte>): Cmp {
    if a == b then Equal else if LexLe(a, b) then Less else Greater
  }

  /** Nulls last, numbers before byte strings. */
  function CmpRowKey(a: RowKey, b: RowKey): Cmp {
    match (a, b)
    case (Null, Null) => Equal
    case (Null, _) => Greater
    case (_, Null) => Less
    case (Num(x), Num(y)) => CmpInt(TotalKey(x), TotalKey(y))
    case (Bytes(x), Bytes(y)) => CmpBytes(x, y)
    case (Num(_), Bytes(_)) => Less
    case (Bytes(_), Num(_)) => Greater
  }

  function CmpOptKey(a: Option<RowKey>, b: Option<RowKey>): Cmp {
    match (a, b)
    case (Some(x), Some(y)) => CmpRowKey(x, y)
    case (None, None) => Equal
    case (None, Some(_)) => Less
    case (Some(_), None) => Greater
  }

  datatype Candidate = Candidate(k1: RowKey, k2: Option<RowKey>, rowId: u64)

  function Then(a: Cmp, b: Cmp): Cmp {
    if a == Equal then b else a
  }

  function CmpCandidate(a: Candidate, b: Candidate): Cmp {
    Then(CmpRowKey(a.k1, b.k1), CmpRest(a, b))
  }

  /** The tie-breakers: the second key, then the row id. */
  function CmpRest(a: Candidate, b: Candidate): Cmp {
    Then(CmpOptKey(a.k2, b.k2), CmpInt(a.rowId, b.rowId))
  }

  predicate CandidateLe(a: Candidate, b: Candidate) {
    CmpCandidate(a, b) != Greater
  }

  // ---------- comparisons that agree with a total order ----------

  /** The laws of a three-way comparison at three values. */
  ghost predicate CmpLaws<T>(cmp: (T, T) -> Cmp, a: T, b: T, c: T) {
    && (cmp(a, b) == Equal <==> a == b)
    && (cmp(a, b) == Less <==> cmp(b, a) == Greater)
    && (cmp(a, b) != Greater && cmp(b, c) != Greater ==> cmp(a, c) != Greater)
  }

  lemma BytesLaws(a: seq<byte>, b: seq<byte>, c: seq<byte>)
    ensures CmpLaws(CmpBytes, a, b, c)
  {
    LexTotal(a, b);
    if LexLe(a, b) && LexLe(b, a) { LexAntisym(a, b); }
    if LexLe(a, b) && LexLe(b, c) { LexTrans(a, b, c); }
    if LexLe(c, a) && LexLe(a, b) { LexTrans(c, a, b); }
    if LexLe(a, c) && LexLe(c, a) { LexAntisym(a, c); }
    LexRefl(a);
  }

  lemma RowKeyLaws(a: RowKey, b: RowKey, c: RowKey)
    ensures CmpLaws(CmpRowKey, a, b, c)
  {
    hide LexLe, CmpBytes;
    if a.Bytes? && b.Bytes? {
      BytesLaws(a.data, b.data, if c.Bytes? then c.data else []);
    }
  }

  lemma OptKeyLaws(a: Option<RowKey>, b: Option<RowKey>, c: Option<RowKey>)
    ensures CmpLaws(CmpOptKey, a, b, c)
  {
    hide CmpRowKey;
    if a.Some? && b.Some? {
      RowKeyLaws(a.value, b.value, if c.Some? then c.value else Null);
    }
  }

  /** Three results that can come from comparing a with b, b with c, and a with c. */
  predicate Chain(ab: Cmp, bc: Cmp, ac: Cmp) {
    && (ab != Greater && bc != Greater ==> ac != Greater)
    && (ab != Greater && bc != Greater && ac == Equal ==> ab == Equal && bc == Equal)
  }

  lemma LawsChain<T>(cmp: (T, T) -> Cmp, a: T, b: T, c: T)
    requires CmpLaws(cmp, a, b, c) && CmpLaws(cmp, a, c, a) && CmpLaws(cmp, b, c, a)
    ensures Chain(cmp(a, b), cmp(b, c), cmp(a, c))
  {
    if cmp(a, c) == Equal { assert a == c; }
  }

  lemma ThenChain(ab: Cmp, bc: Cmp, ac: Cmp, ab': Cmp, bc': Cmp, ac': Cmp)
    requires Chain(ab, bc, ac) && Chain(ab', bc', ac')
    requires ab == Equal && bc == Equal ==> ac == Equal
    ensures Chain(Then(ab, ab'), Then(bc, bc'), Then(ac, ac'))
  {
  }

  lemma CandidateLaws(a: Candidate, b: Candidate, c: Candidate)
    ensures CmpLaws(CmpCandidate, a, b, c)
  {
    hide CmpRowKey, CmpOptKey;
    RowKeyLaws(a.k1, b.k1, c.k1); RowKeyLaws(a.k1, c.k1, a.k1); RowKeyLaws(b.k1, c.k1, a.k1);
    OptKeyLaws(a.k2, b.k2, c.k2); OptKeyLaws(a.k2, c.k2, a.k2); OptKeyLaws(b.k2, c.k2, a.k2);
    RowKeyLaws(b.k1, a.k1, c.k1); OptKeyLaws(b.k2, a.k2, c.k2);
    LawsChain(CmpRowKey, a.k1, b.k1, c.k1);
    LawsChain(CmpOptKey, a.k2, b.k2, c.k2);
    ThenChain(CmpOptKey(a.k2, b.k2), CmpOptKey(b.k2, c.k2), CmpOptKey(a.k2, c.k2),
      CmpInt(a.rowId, b.rowId), CmpInt(b.rowId, c.rowId), CmpInt(a.rowId, c.rowId));
    ThenChain(CmpRowKey(a.k1, b.k1), CmpRowKey(b.k1, c.k1), CmpRowKey(a.k1, c.k1), CmpRest(a, b), CmpRest(b, c),
      CmpRest(a, c));
  }

  /** The order of the heap is a total order in which only identical candidates tie. */
  lemma CandidateTotalOrder()
    ensures TotalOrder(CandidateLe)
  {
    hide CmpCandidate;
    forall a, b, c ensures CmpLaws(CmpCandidate, a, b, c) { CandidateLaws(a, b, c); }
    forall a ensures CandidateLe(a, a) { assert CmpLaws(CmpCandidate, a, a, a); }
    forall a, b | CandidateLe(a, b) && CandidateLe(b, a) ensures a == b { assert CmpLaws(CmpCandidate, a, b, a); }
    forall a, b, c | CandidateLe(a, b) && CandidateLe(b, c) ensures CandidateLe(a, c) {
      assert CmpLaws(CmpCandidate, a, b, c);
    }
    forall a, b ensures CandidateLe(a, b) || CandidateLe(b, a) {
      assert CmpLaws(CmpCandidate, a, b, a) && CmpLaws(CmpCandidate, b, a, b);
    }
  }

  // ---------- dictionary ranks ----------

  const TWO52: nat := 0x10_0000_0000_0000

  lemma Pow2At52()
    ensures Pow2(52) == TWO52
  {
    assert Pow2(13) == 0x2000;
    Pow2Add(13, 13);
    Pow2Add(26, 26);
  }

  /** The exponent of a 32-bit integer is at most 31. */
  lemma SmallLog(n: nat)
    requires 0 < n < 0x1_0000_0000
    ensures Log2(n) <= 31
  {
    Log2Bounds(n);
    if Log2(n) >= 32 {
      Pow2Mono(32, Log2(n));
      assert Pow2(8) == 0x100;
      Pow2Add(8, 8);
      Pow2Add(16, 16);
    }
  }

  /** The exponent field and the fraction field of the double that holds a 32-bit integer. */
  lemma FractionFits(n: nat)
    requires 0 < n < 0x1_0000_0000
    ensures Log2(n) <= 31
    ensures 0 <= (n - Pow2(Log2(n))) * Pow2(52 - Log2(n)) < TWO52
  {
    SmallLog(n);
    Log2Bounds(n);
    var e := Log2(n);
    Pow2Add(e, 52 - e);
    Pow2At52();
    var f, w := n - Pow2(e), Pow2(52 - e);
    assert 0 <= f < Pow2(e);
    MulLess(f, Pow2(e), w);
  }

  lemma MulLess(a: nat, b: nat, w: nat)
    requires a < b && w > 0
    ensures 0 <= a * w < b * w
  {
  }

  /** `n as f64` for a 32-bit integer: exact, since 52 fraction bits hold it. */
  function F64OfU32(n: nat): F64
    requires n < 0x1_0000_0000
  {
    if n == 0 then 0
    else
      FractionFits(n);
      (1023 + Log2(n)) * TWO52 + (n - Pow2(Log2(n))) * Pow2(52 - Log2(n))
  }

  lemma {:induction false} Log2Mono(m: nat, n: nat)
    requires 0 < m <= n
    ensures Log2(m) <= Log2(n)
  {
    if m > 1 { Log2Mono(m / 2, n / 2); }
  }

  /** Fields of a double: a smaller exponent wins, then a smaller fraction. */
  lemma FieldOrder(em: nat, fm: nat, en: nat, fn: nat)
    requires em <= en < 2000 && fm < TWO52 && fn < TWO52 && (em == en ==> fm < fn)
    ensures em * TWO52 + fm < en * TWO52 + fn < TWO63
  {
  }

  /** The cast keeps the order, under the total order of doubles. */
  lemma CastMonotone(m: nat, n: nat)
    requires m < n < 0x1_0000_0000
    ensures CmpRowKey(Num(F64OfU32(m)), Num(F64OfU32(n))) == Less
  {
    hide Log2, Pow2;
    FractionFits(n);
    var en, fn := Log2(n), (n - Pow2(Log2(n))) * Pow2(52 - Log2(n));
    if m == 0 {
      FieldOrder(0, 0, 1023 + en, fn);
    } else {
      FractionFits(m);
      Log2Mono(m, n);
      var em, fm := Log2(m), (m - Pow2(Log2(m))) * Pow2(52 - Log2(m));
      if em == en {
        Log2Bounds(m);
        MulLess(m - Pow2(em), n - Pow2(em), Pow2(52 - em));
      }
      FieldOrder(1023 + em, fm, 1023 + en, fn);
    }
  }

  /** The order of dictionary ids: by value bytes, then by id. */
  predicate IdLe(values: seq<seq<byte>>, a: nat, b: nat)
    requires a < |values| && b < |values|
  {
    CmpBytes(values[a], values[b]) == Less || (values[a] == values[b] && a <= b)
  }

  /** Different ids, all below `n`, in ascending order. */
  ghost predicate Ascends(values: seq<seq<byte>>, ids: seq<nat>, n: nat)
    requires n <= |values|
  {
    && (forall i :: 0 <= i < |ids| ==> ids[i] < n)
    && (forall i, j :: 0 <= i < j < |ids| ==> ids[i] != ids[j] && IdLe(values, ids[i], ids[j]))
  }

  /** Puts `id` in its place among sorted ids. */
  function InsertId(values: seq<seq<byte>>, ids: seq<nat>, id: nat): (r: seq<nat>)
    requires id < |values| && forall i :: 0 <= i < |ids| ==> ids[i] < |values|
    ensures |r| == |ids| + 1
    ensures forall k :: k in r <==> k == id || k in ids
    ensures forall i :: 0 <= i < |r| ==> r[i] < |values|
  {
    if ids == [] then [id]
    else if IdLe(values, id, ids[0]) then [id] + ids
    else [ids[0]] + InsertId(values, ids[1..], id)
  }

  /** The ids listed in ascending order, and each id's place in the list. */
  method BuildDictLexRanks(values: seq<seq<byte>>) returns (ranks: array<nat>)
    ensures ranks.Length == |values|
    ensures IsRanking(values, ranks[..])
    ensures fresh(ranks)
  {
    var ids: seq<nat> := [];
    for n := 0 to |values|
      invariant |ids| == n && Ascends(values, ids, n)
    {
      InsertIdAscends(values, ids, n);
      ids := InsertId(values, ids, n);
    }
    ranks := new nat[|values|](_ => 0);
    for rank := 0 to |ids|
      invariant forall i :: 0 <= i < rank ==> ranks[ids[i]] == i
    {
      ranks[ids[rank]] := rank;
    }
    RankingFromSorted(values, ids, ranks[..]);
  }

  lemma {:induction false} InsertIdAscends(values: seq<seq<byte>>, ids: seq<nat>, id: nat)
    requires id < |values| && Ascends(values, ids, id)
    ensures Ascends(values, InsertId(values, ids, id), id + 1)
  {
    hide CmpBytes;
    var r := InsertId(values, ids, id);
    if ids == [] {
    } else {
      if IdLe(values, id, ids[0]) {
        forall j | 0 <= j < |ids| ensures id != ids[j] && IdLe(values, id, ids[j]) {
          if j > 0 { IdLeTrans(values, id, ids[0], ids[j]); }
        }
        PrependAscends(values, id, ids, id + 1);
      } else {
        IdLeTotal(values, ids[0], id);
        var t := InsertId(values, ids[1..], id);
        InsertIdAscends(values, ids[1..], id);
        forall j | 0 <= j < |t| ensures ids[0] != t[j] && IdLe(values, ids[0], t[j]) {
          assert t[j] in t;
          if t[j] != id {
            var k :| 0 <= k < |ids[1..]| && ids[1..][k] == t[j];
            assert t[j] == ids[k + 1];
          }
        }
        PrependAscends(values, ids[0], t, id + 1);
      }
    }
  }

  lemma PrependAscends(values: seq<seq<byte>>, x: nat, t: seq<nat>, n: nat)
    requires n <= |values| && x < n && Ascends(values, t, n)
    requires forall j :: 0 <= j < |t| ==> x != t[j] && IdLe(values, x, t[j])
    ensures Ascends(values, [x] + t, n)
  {
    hide IdLe;
    var r := [x] + t;
    forall i, j | 0 <= i < j < |r| ensures r[i] != r[j] && IdLe(values, r[i], r[j]) {
      assert r[j] == t[j - 1];
      if i > 0 { assert r[i] == t[i - 1]; }
    }
  }

  lemma IdLeTrans(values: seq<seq<byte>>, a: nat, b: nat, c: nat)
    requires a < |values| && b < |values| && c < |values|
    requires IdLe(values, a, b) && IdLe(values, b, c)
    ensures IdLe(values, a, c)
  {
    hide CmpBytes;
    BytesLaws(values[a], values[b], values[c]);
    BytesLaws(values[a], values[c], values[a]);
    BytesLaws(values[b], values[c], values[a]);
    LawsChain(CmpBytes, values[a], values[b], values[c]);
  }

  lemma IdLeTotal(values: seq<seq<byte>>, a: nat, b: nat)
    requires a < |values| && b < |values|
    ensures IdLe(values, a, b) || IdLe(values, b, a)
  {
    hide CmpBytes;
    BytesLaws(values[a], values[b], values[a]);
    BytesLaws(values[b], values[a], values[b]);
  }

  /** Ranks are different numbers below the id count, in the order of value bytes and then ids. */
  ghost predicate IsRanking(values: seq<seq<byte>>, ranks: seq<nat>) {
    && |ranks| == |values|
    && (forall a :: 0 <= a < |ranks| ==> ranks[a] < |values|)
    && (forall a, b :: 0 <= a < |ranks| && 0 <= b < |ranks| ==> (ranks[a] <= ranks[b] <==> IdLe(values, a, b)))
  }

  lemma RankingFromSorted(values: seq<seq<byte>>, ids: seq<nat>, ranks: seq<nat>)
    requires |ids| == |values| && Ascends(values, ids, |values|) && |ranks| == |values|
    requires forall i :: 0 <= i < |ids| ==> ranks[ids[i]] == i
    ensures IsRanking(values, ranks)
  {
    hide CmpBytes;
    forall a | 0 <= a < |ranks| ensures ranks[a] < |values| {
      AllListed(ids, |values|, a);
    }
    forall a, b | 0 <= a < |ranks| && 0 <= b < |ranks| ensures ranks[a] <= ranks[b] <==> IdLe(values, a, b) {
      AllListed(ids, |values|, a);
      AllListed(ids, |values|, b);
      var i :| 0 <= i < |ids| && ids[i] == a;
      var j :| 0 <= j < |ids| && ids[j] == b;
      BytesLaws(values[a], values[b], values[a]);
      BytesLaws(values[b], values[a], values[b]);
    }
  }

  /** `n` different numbers below `n` are all of them. */
  lemma AllListed(ids: seq<nat>, n: nat, a: nat)
    requires |ids| == n && a < n
    requires forall i :: 0 <= i < |ids| ==> ids[i] < n
    requires forall i, j :: 0 <= i < j < |ids| ==> ids[i] != ids[j]
    ensures exists i :: 0 <= i < |ids| && ids[i] == a
  {
    if a !in ids {
      var s := Elements(ids);
      assert Lists(ids, s);
      ListsLength(ids, s);
      var below := Range(0, n);
      assert s <= below - {a};
      SubsetSize(s, below - {a});
    }
  }

  /** The key read for a row of a dictionary column that has ranks. */
  function RankKey(ranks: seq<nat>, id: nat): RowKey
    requires forall i :: 0 <= i < |ranks| ==> ranks[i] < 0x1_0000_0000
  {
    Num(F64OfU32(if id < |ranks| then ranks[id] else 0xffff_ffff))
  }

  /**
   Comparing two dictionary ids by rank is comparing their value bytes, with equal bytes ordered by
   id; so it is the byte comparison exactly when two different ids do not hold equal bytes.
   */
  lemma RankComparesBytes(values: seq<seq<byte>>, ranks: seq<nat>, a: nat, b: nat)
    requires IsRanking(values, ranks) && |values| <= 0x1_0000_0000 && a < |values| && b < |values|
    ensures CmpRowKey(RankKey(ranks, a), RankKey(ranks, b)) == Then(CmpBytes(values[a], values[b]), CmpInt(a, b))
    ensures CmpRowKey(RankKey(ranks, a), RankKey(ranks, b)) == CmpRowKey(Bytes(values[a]), Bytes(values[b]))
      <==> values[a] != values[b] || a == b
  {
    hide CmpBytes, F64OfU32;
    BytesLaws(values[a], values[b], values[a]);
    BytesLaws(values[b], values[a], values[b]);
    if ranks[a] < ranks[b] {
      CastMonotone(ranks[a], ranks[b]);
    } else if ranks[b] < ranks[a] {
      CastMonotone(ranks[b], ranks[a]);
    }
  }
}

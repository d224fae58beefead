/** String dictionaries: built while scanning, written, read back, and searched. */
module Dictionaries {
  import opened LittleEndian
  import opened Ordering
  import opened Sections
  import opened Wrappers

  /** `__wcol_other__`, the reserved value that stands for what is past the cap. */
  const OTHER: Bytes := [95, 95, 119, 99, 111, 108, 95, 111, 116, 104, 101, 114, 95, 95]

  // ---------- scanning ----------

  /** The dictionary fields of a column. `index` is gone once the column has too many values. */
  datatype Dict = Dict(index: Option<map<Bytes, nat>>, values: seq<Bytes>, other: Option<nat>)

  const NO_VALUES := Dict(Some(map[]), [], None)

  function WithOther(d: Dict): Dict {
    if d.index.None? then d
    else if OTHER in d.index.value then d.(other := Some(d.index.value[OTHER]))
    else Dict(Some(d.index.value[OTHER := |d.values|]), d.values + [OTHER], Some(|d.values|))
  }

  /** What happens to a column that has reached its cap. */
  function AtCap(d: Dict, large: bool): Dict {
    if large then WithOther(d) else d.(index := None)
  }

  function AddValue(d: Dict, value: Bytes, limit: nat, large: bool): Dict {
    if value == OTHER || d.index.None? || value in d.index.value then d
    else if |d.values| >= limit then AtCap(d, large)
    else
      var added := d.(index := Some(d.index.value[value := |d.values|]), values := d.values + [value]);
      if |added.values| >= limit then AtCap(added, large) else added
  }

  function Scan(scanned: seq<Bytes>, limit: nat, large: bool): Dict
    decreases |scanned|
  {
    if scanned == [] then NO_VALUES
    else AddValue(Scan(scanned[..|scanned| - 1], limit, large), scanned[|scanned| - 1], limit, large)
  }

  class ColumnSpec {
    const limit: nat
    const large: bool
    var dictMap: Option<map<Bytes, nat>>
    var dictValues: seq<Bytes>
    var otherDictId: Option<nat>

    ghost function State(): Dict
      reads this
    {
      Dict(dictMap, dictValues, otherDictId)
    }

    constructor (limit: nat, large: bool)
      ensures this.limit == limit && this.large == large && State() == NO_VALUES
    {
      this.limit, this.large := limit, large;
      dictMap, dictValues, otherDictId := Some(map[]), [], None;
    }

    method EnsureOtherDictBucket()
      modifies this
      ensures State() == WithOther(old(State()))
    {
      if dictMap.None? { return; }
      if OTHER in dictMap.value {
        otherDictId := Some(dictMap.value[OTHER]);
        return;
      }
      var id := |dictValues|;
      dictValues := dictValues + [OTHER];
      dictMap := Some(dictMap.value[OTHER := id]);
      otherDictId := Some(id);
    }

    method AddDictValue(value: Bytes)
      modifies this
      ensures State() == AddValue(old(State()), value, limit, large)
    {
      if value == OTHER { return; }
      if dictMap.None? { return; }
      if value in dictMap.value { return; }
      if |dictValues| >= limit {
        if large { EnsureOtherDictBucket(); } else { dictMap := None; }
        return;
      }
      var id := |dictValues|;
      dictValues := dictValues + [value];
      dictMap := Some(dictMap.value[value := id]);
      if |dictValues| >= limit {
        if large { EnsureOtherDictBucket(); } else { dictMap := None; }
      }
    }

    method ScanColumn(scanned: seq<Bytes>)
      requires State() == NO_VALUES
      modifies this
      ensures State() == Scan(scanned, limit, large)
    {
      hide AddValue;
      for i := 0 to |scanned|
        invariant State() == Scan(scanned[..i], limit, large)
      {
        assert scanned[..i + 1][..i] == scanned[..i];
        AddDictValue(scanned[i]);
      }
      assert scanned[..|scanned|] == scanned;
    }
  }

  /** The id a value is encoded with; `None` where the encoder panics. */
  function IdForValue(d: Dict, value: Bytes): Option<nat> {
    if d.index.None? then None
    else if value in d.index.value then Some(d.index.value[value])
    else d.other
  }

  function Kept(scanned: seq<Bytes>): seq<Bytes>
    decreases |scanned|
  {
    if scanned == [] then []
    else Kept(scanned[..|scanned| - 1]) + if scanned[|scanned| - 1] == OTHER then [] else [scanned[|scanned| - 1]]
  }

  /** The different values scanned, in the order they first appear. */
  function Distinct(scanned: seq<Bytes>): seq<Bytes> {
    FirstSeen(Kept(scanned))
  }

  /** What the dictionary of a column with the distinct values `distinct` is. */
  ghost predicate IsDictOf(d: Dict, distinct: seq<Bytes>, limit: nat, large: bool) {
    && (d.index.Some? <==> large || distinct == [] || |distinct| < limit)
    && (d.index.Some? ==>
          && d.values == (if distinct != [] && |distinct| >= limit then distinct[..limit] + [OTHER] else distinct)
          && (d.other.Some? <==> distinct != [] && |distinct| >= limit)
          && (d.other.Some? ==> d.other.value == limit)
          && Indexes(d.index.value, d.values))
  }

  /** The index and the value list are inverse to each other. */
  ghost predicate Indexes(index: map<Bytes, nat>, values: seq<Bytes>) {
    && (forall i :: 0 <= i < |values| ==> values[i] in index && index[values[i]] == i)
    && (forall v :: v in index ==> index[v] < |values| && values[index[v]] == v)
  }

  lemma IndexesSnoc(index: map<Bytes, nat>, values: seq<Bytes>, value: Bytes)
    requires Indexes(index, values) && value !in index
    ensures Indexes(index[value := |values|], values + [value])
  {
  }

  lemma IndexHolds(index: map<Bytes, nat>, values: seq<Bytes>, value: Bytes)
    requires Indexes(index, values)
    ensures value in index <==> value in values
  {
  }

  lemma AddIsDict(d: Dict, distinct: seq<Bytes>, value: Bytes, limit: nat, large: bool)
    requires IsDictOf(d, distinct, limit, large) && OTHER !in distinct && value != OTHER
    ensures IsDictOf(AddValue(d, value, limit, large), if value in distinct then distinct else distinct + [value],
      limit, large)
  {
    hide Indexes;
    if d.index.Some? {
      var index := d.index.value;
      IndexHolds(index, d.values, value);
      IndexHolds(index, d.values, OTHER);
      if value in index {
      } else if distinct != [] && |distinct| >= limit {
        IndexLast(index, distinct[..limit], OTHER);
        assert (distinct + [value])[..limit] == distinct[..limit];
      } else if |distinct| < limit {
        IndexesSnoc(index, distinct, value);
        IndexHolds(index[value := |distinct|], distinct + [value], OTHER);
        if |distinct| + 1 >= limit && large {
          IndexesSnoc(index[value := |distinct|], distinct + [value], OTHER);
          assert (distinct + [value])[..limit] == distinct + [value];
        }
      } else {
        if large { IndexesSnoc(index, [], OTHER); }
        assert [value][..0] == [] && distinct + [value] == [value];
      }
    }
  }

  lemma IndexLast(index: map<Bytes, nat>, values: seq<Bytes>, last: Bytes)
    requires Indexes(index, values + [last])
    ensures last in index && index[last] == |values|
  {
    assert (values + [last])[|values|] == last;
  }

  lemma {:induction false} KeptIn(scanned: seq<Bytes>, v: Bytes)
    ensures v in Kept(scanned) <==> v in scanned && v != OTHER
    decreases |scanned|
  {
    if scanned == [] {
    } else {
      KeptIn(scanned[..|scanned| - 1], v);
      assert scanned == scanned[..|scanned| - 1] + [scanned[|scanned| - 1]];
    }
  }

  /**
   The dictionary after a scan: below the cap it lists the distinct values in first-seen order. At the cap a
   column with a large dictionary keeps the first `limit` of them and the reserved value, and any other column
   has none.
   */
  lemma {:induction false} ScanResult(scanned: seq<Bytes>, limit: nat, large: bool)
    ensures IsDictOf(Scan(scanned, limit, large), Distinct(scanned), limit, large)
    decreases |scanned|
  {
    hide IsDictOf, AddValue;
    if scanned == [] {
      NoneScanned(limit, large);
    } else {
      var front, value := scanned[..|scanned| - 1], scanned[|scanned| - 1];
      ScanResult(front, limit, large);
      FirstSeenListsOnce(Kept(front));
      KeptIn(front, OTHER);
      if value == OTHER {
        Unchanged(Scan(front, limit, large), limit, large);
        assert Kept(front) + [] == Kept(front);
      } else {
        FirstSeenSnoc(Kept(front), value);
        AddIsDict(Scan(front, limit, large), Distinct(front), value, limit, large);
      }
    }
  }

  lemma Unchanged(d: Dict, limit: nat, large: bool)
    ensures AddValue(d, OTHER, limit, large) == d
  {
  }

  lemma NoneScanned(limit: nat, large: bool)
    ensures IsDictOf(NO_VALUES, [], limit, large)
  {
  }

  /** The bytes per id that the encoder picks. */
  function DictIndexWidth(size: nat): nat {
    if size <= 0xFF then 1 else if size <= 0xFFFF then 2 else 4
  }

  /** It is the least of one, two and four bytes that can hold the number of values, or four. */
  lemma WidthIsLeast(size: nat)
    ensures
      var w := DictIndexWidth(size);
      && w in {1, 2, 4} && (w < 4 ==> size < Pow256(w))
      && forall v :: v in {1, 2} && v < w ==> size >= Pow256(v)
  {
    Widths();
  }

  /** The value an id stands for when `v` was scanned: `v` itself, or the reserved value past the cap. */
  function Decoded(scanned: seq<Bytes>, limit: nat, v: Bytes): Bytes {
    var distinct := Distinct(scanned);
    if v in distinct && (|distinct| < limit || v in distinct[..limit]) then v else OTHER
  }

  /**
   Every scanned value gets an id that fits the index width and stands for it, or for the reserved value past the cap.
   */
  lemma ScannedValueHasId(scanned: seq<Bytes>, limit: nat, large: bool, v: Bytes)
    requires v in scanned && v != OTHER
    requires Scan(scanned, limit, large).index.Some?
    ensures
      var d := Scan(scanned, limit, large);
      var id := IdForValue(d, v);
      && id.Some? && id.value < |d.values|
      && d.values[id.value] == Decoded(scanned, limit, v)
      && (|d.values| < Pow256(4) ==> id.value < Pow256(DictIndexWidth(|d.values|)))
  {
    hide Scan, Distinct;
    ScanResult(scanned, limit, large);
    KeptIn(scanned, v);
    DistinctLists(scanned);
    Widths();
    var d := Scan(scanned, limit, large);
    IndexHolds(d.index.value, d.values, v);
  }

  lemma DistinctLists(scanned: seq<Bytes>)
    ensures forall v :: v in Distinct(scanned) <==> v in Kept(scanned)
    ensures OTHER !in Distinct(scanned)
  {
    FirstSeenListsOnce(Kept(scanned));
    KeptIn(scanned, OTHER);
  }

  /** The reserved value itself gets an id exactly when the column has overflowed. */
  lemma ReservedValueId(scanned: seq<Bytes>, limit: nat, large: bool)
    requires Scan(scanned, limit, large).index.Some?
    ensures
      var d := Scan(scanned, limit, large);
      IdForValue(d, OTHER).Some? <==> Distinct(scanned) != [] && |Distinct(scanned)| >= limit
  {
    hide Scan, Distinct;
    ScanResult(scanned, limit, large);
    DistinctLists(scanned);
    var d := Scan(scanned, limit, large);
    IndexHolds(d.index.value, d.values, OTHER);
  }
}

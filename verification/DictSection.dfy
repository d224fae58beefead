/** The dictionary section of a file: written, parsed, and searched. */
module DictSection {
  import opened Dictionaries
  import opened LittleEndian
  import opened Sections
  import opened Wrappers

  /** A dictionary column: its id and its values. */
  datatype DictColumn = DictColumn(id: u32, values: seq<Bytes>)

  // ---------- writing ----------

  function MaxLen(values: seq<Bytes>): (m: nat)
    ensures forall i :: 0 <= i < |values| ==> |values[i]| <= m
    decreases |values|
  {
    if values == [] then 0
    else
      var front, last := MaxLen(values[..|values| - 1]), |values[|values| - 1]|;
      assert forall i :: 0 <= i < |values| - 1 ==> values[i] == values[..|values| - 1][i];
      if front < last then last else front
  }

  function LenWidth(values: seq<Bytes>): byte {
    if MaxLen(values) <= 0xFFFF then 2 else 4
  }

  /** Two bytes for each length exactly when no value is longer than they can say. */
  lemma {:induction false} LenWidthExactly(values: seq<Bytes>)
    ensures LenWidth(values) == 2 <==> forall i :: 0 <= i < |values| ==> |values[i]| < 0x1_0000
    ensures LenWidth(values) == 2 || LenWidth(values) == 4
    decreases |values|
  {
    if values != [] {
      LenWidthExactly(values[..|values| - 1]);
      assert forall i :: 0 <= i < |values| - 1 ==> values[i] == values[..|values| - 1][i];
    }
  }

  function LengthParts(values: seq<Bytes>, width: nat): (parts: seq<Bytes>)
    ensures |parts| == |values|
  {
    seq(|values|, i requires 0 <= i < |values| => ToLe(|values[i]|, width))
  }

  function DictHead(c: DictColumn): (head: Bytes)
    ensures |head| == 12
  {
    ToLe(c.id, 4) + ToLe(|c.values|, 4) + [LenWidth(c.values)] + [0] + ToLe(0, 2)
  }

  function DictBytes(c: DictColumn): Bytes {
    DictHead(c) + Concat(LengthParts(c.values, LenWidth(c.values))) + Concat(c.values)
  }

  function DictParts(cols: seq<DictColumn>): (parts: seq<Bytes>)
    ensures |parts| == |cols|
  {
    seq(|cols|, i requires 0 <= i < |cols| => DictBytes(cols[i]))
  }

  /** `None` when the values of a column are too long together. */
  function BuildDicts(cols: seq<DictColumn>): Option<Bytes> {
    if cols == [] then Some([])
    else if exists i :: 0 <= i < |cols| && |Concat(cols[i].values)| > MAX32 then None
    else Some(ToLe(|cols|, 4) + Concat(DictParts(cols)))
  }

  /** The blob length as the writer sums it up. */
  method TotalLen(values: seq<Bytes>) returns (total: nat, maxLen: nat)
    ensures total == |Concat(values)| && maxLen == MaxLen(values)
  {
    total, maxLen := 0, 0;
    for i := 0 to |values|
      invariant total == |Concat(values[..i])| && maxLen == MaxLen(values[..i])
    {
      assert values[..i + 1][..i] == values[..i];
      total := total + |values[i]|;
      if maxLen < |values[i]| { maxLen := |values[i]|; }
    }
    assert values[..|values|] == values;
  }

  method BuildDictsLoop(cols: seq<DictColumn>) returns (r: Option<Bytes>)
    ensures r == BuildDicts(cols)
  {
    hide DictBytes, Concat;
    if cols == [] { return Some([]); }
    var out := ToLe(|cols|, 4);
    assert DictParts(cols)[..0] == [];
    StartEnds([]);
    for i := 0 to |cols|
      invariant out == ToLe(|cols|, 4) + Concat(DictParts(cols)[..i])
      invariant forall j :: 0 <= j < i ==> |Concat(cols[j].values)| <= MAX32
    {
      var total, maxLen := TotalLen(cols[i].values);
      if total > MAX32 { return None; }
      ghost var parts := DictParts(cols);
      assert parts[..i + 1] == parts[..i] + [parts[i]];
      ConcatSnoc(parts[..i], parts[i]);
      Assoc(ToLe(|cols|, 4), Concat(parts[..i]), parts[i]);
      out := out + DictBytes(cols[i]);
    }
    assert DictParts(cols)[..|cols|] == DictParts(cols);
    return Some(out);
  }

  // ---------- reading ----------

  /** A parsed dictionary: the offsets of the values in the blob, with the end as the last one. */
  datatype Dictionary = Dictionary(offsets: seq<nat>, blob: Bytes)

  /** `n` lengths from `off` on, whose sum must stay below 2^32; and the offset after them. */
  function ParseLens(b: Bytes, off: nat, width: nat, n: nat, total: nat): Option<(seq<nat>, nat)>
    requires width == 2 || width == 4
    decreases n
  {
    if n == 0 then Some(([], off))
    else if off + width > |b| then None
    else
      var len := ReadLe(b, off, width);
      if total + len > MAX32 then None
      else
        var rest := ParseLens(b, off + width, width, n - 1, total + len);
        if rest.None? then None else Some(([len] + rest.value.0, rest.value.1))
  }

  method ParseLensLoop(b: Bytes, off: nat, width: nat, n: nat) returns (r: Option<(seq<nat>, nat)>)
    requires width == 2 || width == 4
    ensures r == ParseLens(b, off, width, n, 0)
  {
    hide ReadLe;
    var lengths: seq<nat> := [];
    var offset: nat, total: nat := off, 0;
    ghost var all := ParseLens(b, off, width, n, 0);
    assert all.Some? ==> [] + all.value.0 == all.value.0;
    for i := 0 to n
      invariant all ==
        var rest := ParseLens(b, offset, width, n - i, total);
        if rest.None? then None else Some((lengths + rest.value.0, rest.value.1))
    {
      if offset + width > |b| { return None; }
      var len := ReadLe(b, offset, width);
      if total + len > MAX32 { return None; }
      ghost var rest := ParseLens(b, offset + width, width, n - i - 1, total + len);
      if rest.Some? { Assoc(lengths, [len], rest.value.0); }
      lengths, offset, total := lengths + [len], offset + width, total + len;
    }
    assert lengths + [] == lengths;
    return Some((lengths, offset));
  }

  function Sum(lens: seq<nat>): nat
    decreases |lens|
  {
    if lens == [] then 0 else Sum(lens[..|lens| - 1]) + lens[|lens| - 1]
  }

  /** The running sums of the lengths, from zero on. */
  function Offsets(lens: seq<nat>): (offsets: seq<nat>)
    ensures |offsets| == |lens| + 1
  {
    seq(|lens| + 1, i requires 0 <= i <= |lens| => Sum(lens[..i]))
  }

  method RunningSums(lens: seq<nat>) returns (offsets: seq<nat>)
    ensures offsets == Offsets(lens)
  {
    var running := 0;
    offsets := [0];
    for i := 0 to |lens|
      invariant |offsets| == i + 1 && running == Sum(lens[..i])
      invariant forall j :: 0 <= j <= i ==> offsets[j] == Sum(lens[..j])
    {
      assert lens[..i + 1][..i] == lens[..i];
      running := running + lens[i];
      offsets := offsets + [running];
    }
    assert offsets == Offsets(lens);
  }

  /** One dictionary at `off`: its id, the dictionary, and the offset after it. */
  function ParseDict(b: Bytes, off: nat): Option<(u32, Dictionary, nat)> {
    if off + 12 > |b| then None
    else
      var width := b[off + 8];
      if width != 2 && width != 4 then None
      else
        var lens := ParseLens(b, off + 12, width, U32At(b, off + 4), 0);
        if lens.None? || lens.value.1 + Sum(lens.value.0) > |b| then None
        else
          var start := lens.value.1;
          var end := start + Sum(lens.value.0);
          Some((U32At(b, off), Dictionary(Offsets(lens.value.0), b[start..end]), end))
  }

  function ParseAll(b: Bytes, off: nat, n: nat, dicts: map<u32, Dictionary>): Option<map<u32, Dictionary>>
    decreases n
  {
    if n == 0 then Some(dicts)
    else
      var next := ParseDict(b, off);
      if next.None? then None
      else ParseAll(b, next.value.2, n - 1, dicts[next.value.0 := next.value.1])
  }

  function ParseDicts(b: Bytes): Option<map<u32, Dictionary>> {
    if b == [] then Some(map[])
    else if |b| < 4 then None
    else ParseAll(b, 4, U32At(b, 0), map[])
  }

  method ParseDictsLoop(b: Bytes) returns (r: Option<map<u32, Dictionary>>)
    ensures r == ParseDicts(b)
  {
    hide ParseLens, ReadLe, Sum, Offsets, U32At;
    if b == [] { return Some(map[]); }
    if |b| < 4 { return None; }
    var count, offset := U32At(b, 0), 4;
    var dicts: map<u32, Dictionary> := map[];
    for i := 0 to count
      invariant ParseDicts(b) == ParseAll(b, offset, count - i, dicts)
    {
      if offset + 12 > |b| { return None; }
      var id := U32At(b, offset);
      var valueCount := U32At(b, offset + 4);
      var width := b[offset + 8];
      if width != 2 && width != 4 { return None; }
      var lens := ParseLensLoop(b, offset + 12, width, valueCount);
      if lens.None? { return None; }
      var start, end := lens.value.1, lens.value.1 + Sum(lens.value.0);
      if end > |b| { return None; }
      var offsets := RunningSums(lens.value.0);
      dicts := dicts[id := Dictionary(offsets, b[start..end])];
      offset := end;
    }
    return Some(dicts);
  }

  // ---------- looking up ----------

  function ValueBytes(d: Dictionary, id: nat): Option<Bytes> {
    if id + 1 >= |d.offsets| || d.offsets[id] > d.offsets[id + 1] || d.offsets[id + 1] > |d.blob| then None
    else Some(d.blob[d.offsets[id]..d.offsets[id + 1]])
  }

  /** The first id from `i` on whose bytes are `s`. */
  function FirstIdFrom(d: Dictionary, s: seq<int>, i: nat): (id: Option<nat>)
    ensures id.Some? ==> i <= id.value && id.value + 1 < |d.offsets| && ValueBytes(d, id.value) == Some(s)
    ensures id.Some? ==> forall j :: i <= j < id.value ==> ValueBytes(d, j) != Some(s)
    ensures id.None? ==> forall j: nat :: i <= j ==> ValueBytes(d, j) != Some(s)
    decreases |d.offsets| - i
  {
    if i + 1 >= |d.offsets| then None
    else if ValueBytes(d, i) == Some(s) then Some(i)
    else FirstIdFrom(d, s, i + 1)
  }

  function FirstId(d: Dictionary, s: seq<int>): Option<nat> {
    FirstIdFrom(d, s, 0)
  }

  /** The first id whose bytes are `s`, by scanning the blob. */
  method StringId(d: Dictionary, s: Bytes) returns (id: Option<nat>)
    requires d.offsets != []
    ensures id == FirstId(d, s)
    ensures id.Some? ==> ValueBytes(d, id.value) == Some(s)
    ensures id.Some? ==> forall j :: 0 <= j < id.value ==> ValueBytes(d, j) != Some(s)
    ensures id.None? ==> forall j: nat :: ValueBytes(d, j) != Some(s)
  {
    for i := 0 to |d.offsets| - 1
      invariant FirstIdFrom(d, s, i) == FirstId(d, s)
    {
      if ValueBytes(d, i) == Some(s) { return Some(i); }
    }
    return None;
  }

  // ---------- round trip ----------

  /** The dictionary that should come back for a column. */
  function Stored(c: DictColumn): Dictionary {
    Dictionary(seq(|c.values| + 1, i requires 0 <= i <= |c.values| => Start(c.values, i)), Concat(c.values))
  }

  /** A stored dictionary gives back every value under its id, and nothing under any other id. */
  lemma StoredValues(c: DictColumn, id: nat)
    ensures ValueBytes(Stored(c), id) == if id < |c.values| then Some(c.values[id]) else None
  {
    hide Concat, Start;
    if id < |c.values| {
      PartAt(c.values, id);
      StartStep(c.values, id);
    }
  }

  /** Searching for the bytes of an id finds that id again when no value is listed twice. */
  lemma IdsInvert(c: DictColumn, id: nat, found: nat)
    requires id < |c.values|
    requires forall i, j :: 0 <= i < j < |c.values| ==> c.values[i] != c.values[j]
    requires ValueBytes(Stored(c), found) == ValueBytes(Stored(c), id)
    ensures found == id
  {
    hide Stored, ValueBytes;
    StoredValues(c, id);
    StoredValues(c, found);
  }

  /** Searching a stored dictionary without repeats finds a listed value's place, and no other value. */
  lemma FirstIdInverts(c: DictColumn, s: seq<int>)
    requires forall i, j :: 0 <= i < j < |c.values| ==> c.values[i] != c.values[j]
    ensures FirstId(Stored(c), s).None? <==> s !in c.values
    ensures forall i :: 0 <= i < |c.values| && c.values[i] == s ==> FirstId(Stored(c), s) == Some(i)
  {
    hide Stored, ValueBytes;
    var found := FirstId(Stored(c), s);
    forall i | 0 <= i < |c.values| && c.values[i] == s ensures found == Some(i) {
      StoredValues(c, i);
      if found.Some? {
        StoredValues(c, found.value);
        IdsInvert(c, i, found.value);
      }
    }
    if found.Some? { StoredValues(c, found.value); }
  }

  function Lengths(values: seq<Bytes>): (lens: seq<nat>)
    ensures |lens| == |values|
  {
    seq(|values|, i requires 0 <= i < |values| => |values[i]|)
  }

  lemma {:induction false} SumOfLengths(values: seq<Bytes>, k: nat)
    requires k <= |values|
    ensures Sum(Lengths(values)[..k]) == Start(values, k)
    decreases k
  {
    hide Start, Concat;
    StartEnds(values);
    if k == 0 {
    } else {
      SumOfLengths(values, k - 1);
      StartStep(values, k - 1);
      assert Lengths(values)[..k][..k - 1] == Lengths(values)[..k - 1];
    }
  }

  lemma {:induction false} LengthStart(values: seq<Bytes>, width: nat, k: nat)
    requires k <= |values|
    ensures Start(LengthParts(values, width), k) == k * width
    decreases k
  {
    hide Start, Concat;
    StartEnds(LengthParts(values, width));
    if k == 0 {
    } else {
      LengthStart(values, width, k - 1);
      StartStep(LengthParts(values, width), k - 1);
      assert (k - 1) * width + width == k * width;
    }
  }

  /** The `k`-th length is found among the written lengths. */
  lemma LengthFound(head: Bytes, values: seq<Bytes>, width: nat, tail: Bytes, k: nat)
    requires k < |values| && |values[k]| < Pow256(width)
    ensures
      var b, off := head + Concat(LengthParts(values, width)) + tail, |head| + k * width;
      off + width <= |b| && ReadLe(b, off, width) == |values[k]|
  {
    hide Concat, Start, ToLe, FromLe;
    PartWithin(head, LengthParts(values, width), tail, k);
    LengthStart(values, width, k);
    LeRoundTrip(|values[k]|, width);
  }

  lemma {:induction false} LensFound(head: Bytes, values: seq<Bytes>, width: nat, tail: Bytes, k: nat)
    requires k <= |values| && (width == 2 || width == 4)
    requires forall i :: 0 <= i < |values| ==> |values[i]| < Pow256(width)
    requires |Concat(values)| <= MAX32
    ensures ParseLens(head + Concat(LengthParts(values, width)) + tail, |head| + k * width, width, |values| - k,
      Start(values, k))
      == Some((Lengths(values)[k..], |head| + |values| * width))
    decreases |values| - k
  {
    hide Concat, Start, ToLe, ReadLe, Pow256;
    if k < |values| {
      LensFound(head, values, width, tail, k + 1);
      LengthFound(head, values, width, tail, k);
      StartStep(values, k);
      StartMonotone(values, k + 1, |values|);
      StartEnds(values);
      assert (k + 1) * width == k * width + width;
      assert Lengths(values)[k..] == [|values[k]|] + Lengths(values)[k + 1..];
    } else {
      assert Lengths(values)[k..] == [];
    }
  }

  lemma ValueBelow(values: seq<Bytes>, i: nat)
    requires i < |values| && |Concat(values)| <= MAX32
    ensures |values[i]| < Pow256(LenWidth(values))
  {
    hide Concat, Start;
    Widths();
    PartAt(values, i);
    assert |values[i]| <= MaxLen(values);
  }

  lemma HeadFound(head: Bytes, c: DictColumn, tail: Bytes)
    requires |c.values| <= MAX32
    ensures
      var b, off := head + DictHead(c) + tail, |head|;
      && off + 12 <= |b| && U32At(b, off) == c.id && U32At(b, off + 4) == |c.values| && b[off + 8] == LenWidth(c.values)
  {
    hide ToLe, LenWidth;
    Widths();
    var id, count := ToLe(c.id, 4), ToLe(|c.values|, 4);
    var width: Bytes, pad: Bytes := [LenWidth(c.values)], [0] + ToLe(0, 2);
    var b := head + DictHead(c) + tail;
    assert DictHead(c) == id + count + width + pad;
    assert b == head + id + (count + width + pad + tail);
    ReadAfter(head, c.id, 4, count + width + pad + tail);
    assert b == (head + id) + count + (width + pad + tail);
    ReadAfter(head + id, |c.values|, 4, width + pad + tail);
  }

  lemma OffsetsStored(c: DictColumn)
    ensures Dictionary(Offsets(Lengths(c.values)), Concat(c.values)) == Stored(c)
    ensures Sum(Lengths(c.values)) == |Concat(c.values)|
  {
    hide Concat, Start, Sum;
    forall i | 0 <= i <= |c.values| ensures Offsets(Lengths(c.values))[i] == Start(c.values, i) {
      SumOfLengths(c.values, i);
    }
    assert Lengths(c.values)[..|c.values|] == Lengths(c.values);
    SumOfLengths(c.values, |c.values|);
    StartEnds(c.values);
    assert Offsets(Lengths(c.values)) == Stored(c).offsets;
  }

  /** A written dictionary is parsed back, wherever it stands. */
  lemma DictFound(head: Bytes, c: DictColumn, tail: Bytes)
    requires |c.values| <= MAX32 && |Concat(c.values)| <= MAX32
    ensures ParseDict(head + DictBytes(c) + tail, |head|) == Some((c.id, Stored(c), |head| + |DictBytes(c)|))
  {
    hide Concat, Start, ToLe, ReadLe, Pow256, DictHead, LenWidth, LengthParts, Sum, ParseLens, Stored, Offsets;
    var width := LenWidth(c.values);
    var lens, blob := Concat(LengthParts(c.values, width)), Concat(c.values);
    var b := head + DictBytes(c) + tail;
    WidthIs(c.values);
    assert b == head + DictHead(c) + (lens + blob + tail);
    HeadFound(head, c, lens + blob + tail);
    var start := head + DictHead(c);
    assert b == start + lens + (blob + tail);
    forall i | 0 <= i < |c.values| ensures |c.values[i]| < Pow256(width) { ValueBelow(c.values, i); }
    StartEnds(c.values);
    LensFound(start, c.values, width, blob + tail, 0);
    LengthStart(c.values, width, |c.values|);
    StartEnds(LengthParts(c.values, width));
    assert Lengths(c.values)[0..] == Lengths(c.values);
    OffsetsStored(c);
    assert b == (start + lens) + blob + tail;
    assert |start| + |c.values| * width == |start + lens|;
  }

  lemma WidthIs(values: seq<Bytes>)
    ensures LenWidth(values) == 2 || LenWidth(values) == 4
  {
  }

  /** The dictionaries of the columns from `k` on, added to those before. */
  function StoredFrom(cols: seq<DictColumn>, k: nat, dicts: map<u32, Dictionary>): map<u32, Dictionary>
    requires k <= |cols|
    decreases |cols| - k
  {
    if k == |cols| then dicts else StoredFrom(cols, k + 1, dicts[cols[k].id := Stored(cols[k])])
  }

  lemma {:induction false} AllFound(head: Bytes, cols: seq<DictColumn>, k: nat, dicts: map<u32, Dictionary>)
    requires k <= |cols|
    requires forall i :: 0 <= i < |cols| ==> |cols[i].values| <= MAX32 && |Concat(cols[i].values)| <= MAX32
    ensures ParseAll(head + Concat(DictParts(cols)), |head| + Start(DictParts(cols), k), |cols| - k, dicts)
      == Some(StoredFrom(cols, k, dicts))
    decreases |cols| - k
  {
    hide Concat, Start, DictBytes, ParseDict, Stored;
    if k < |cols| {
      var parts := DictParts(cols);
      AllFound(head, cols, k + 1, dicts[cols[k].id := Stored(cols[k])]);
      StartStep(parts, k);
      Around(parts, k);
      var before, after := Concat(parts[..k]), Concat(parts[k + 1..]);
      DictFound(head + before, cols[k], after);
      assert head + Concat(parts) == head + before + parts[k] + after by {
        assert Concat(parts) == before + parts[k] + after;
        Assoc(head, before + parts[k], after);
        Assoc(head, before, parts[k]);
      }
    }
  }

  lemma {:induction false} StoredFromAt(cols: seq<DictColumn>, k: nat, dicts: map<u32, Dictionary>, id: u32)
    requires k <= |cols|
    requires forall i, j :: 0 <= i < j < |cols| ==> cols[i].id != cols[j].id
    ensures (forall i :: k <= i < |cols| ==> cols[i].id != id) ==>
      && (id in StoredFrom(cols, k, dicts) <==> id in dicts)
      && (id in dicts ==> StoredFrom(cols, k, dicts)[id] == dicts[id])
    ensures forall i :: k <= i < |cols| && cols[i].id == id ==>
      id in StoredFrom(cols, k, dicts) && StoredFrom(cols, k, dicts)[id] == Stored(cols[i])
    decreases |cols| - k
  {
    hide Stored;
    if k < |cols| { StoredFromAt(cols, k + 1, dicts[cols[k].id := Stored(cols[k])], id); }
  }

  /** The writer gives up exactly when the values of some column are together longer than 2^32 - 1 bytes. */
  lemma DictsBuild(cols: seq<DictColumn>)
    ensures BuildDicts(cols).None? <==> exists i :: 0 <= i < |cols| && |Concat(cols[i].values)| > MAX32
  {
  }

  /** Reading a written section gives every column's dictionary under its id, and no other dictionary. */
  lemma DictsRoundTrip(cols: seq<DictColumn>, i: nat)
    requires BuildDicts(cols).Some? && |cols| <= MAX32 && i < |cols|
    requires forall k :: 0 <= k < |cols| ==> |cols[k].values| <= MAX32
    requires forall j, k :: 0 <= j < k < |cols| ==> cols[j].id != cols[k].id
    ensures
      var dicts := ParseDicts(BuildDicts(cols).value);
      && dicts.Some? && cols[i].id in dicts.value && dicts.value[cols[i].id] == Stored(cols[i])
      && forall id :: id in dicts.value ==> exists k :: 0 <= k < |cols| && cols[k].id == id
  {
    hide Concat, Start, DictBytes, ParseAll, Stored, ToLe, ReadLe, StoredFrom;
    Widths();
    var count := ToLe(|cols|, 4);
    var body := Concat(DictParts(cols));
    AllFound(count, cols, 0, map[]);
    StartEnds(DictParts(cols));
    assert count + body == [] + count + body;
    ReadAfter([], |cols|, 4, body);
    StoredFromAt(cols, 0, map[], cols[i].id);
    forall id: u32 | id in StoredFrom(cols, 0, map[]) ensures exists k :: 0 <= k < |cols| && cols[k].id == id {
      StoredFromAt(cols, 0, map[], id);
    }
  }

  /**
   From scan to bytes and back: in the dictionaries read from the written section, the id a scanned value was encoded
   with leads to the value itself, or to the reserved value when it is past the cap, and searching for what it leads to
   finds the id again.
   */
  lemma ScannedValueReadsBack(scanned: seq<Bytes>, limit: nat, large: bool, v: Bytes, cols: seq<DictColumn>, i: nat)
    requires v in scanned && v != OTHER && Scan(scanned, limit, large).index.Some?
    requires i < |cols| && cols[i].values == Scan(scanned, limit, large).values
    requires BuildDicts(cols).Some? && |cols| <= MAX32
    requires forall k :: 0 <= k < |cols| ==> |cols[k].values| <= MAX32
    requires forall j, k :: 0 <= j < k < |cols| ==> cols[j].id != cols[k].id
    ensures
      var dicts := ParseDicts(BuildDicts(cols).value);
      var id := IdForValue(Scan(scanned, limit, large), v);
      && id.Some? && dicts.Some? && cols[i].id in dicts.value
      && ValueBytes(dicts.value[cols[i].id], id.value) == Some(Decoded(scanned, limit, v))
      && FirstId(dicts.value[cols[i].id], Decoded(scanned, limit, v)) == id
  {
    hide Scan, IdForValue, Decoded, Stored, ValueBytes, FirstId, BuildDicts, ParseDicts;
    ScannedValueHasId(scanned, limit, large, v);
    DictsRoundTrip(cols, i);
    StoredValues(cols[i], IdForValue(Scan(scanned, limit, large), v).value);
    ScanHasNoRepeats(scanned, limit, large);
    FirstIdInverts(cols[i], Decoded(scanned, limit, v));
  }

  lemma ScanHasNoRepeats(scanned: seq<Bytes>, limit: nat, large: bool)
    requires Scan(scanned, limit, large).index.Some?
    ensures
      var values := Scan(scanned, limit, large).values;
      forall i, j :: 0 <= i < j < |values| ==> values[i] != values[j]
  {
    hide Scan, Distinct;
    ScanResult(scanned, limit, large);
  }
}

/**
 Ids packed without gaps, a fixed number of bits each: the decoder's loop over bits against the
 integer that the bytes spell, the two packers, and the page that stores a dictionary with its ids.
 */
module BitPacked {
  import opened Arithmetic
  import opened LittleEndian
  import opened Sections
  import opened Wrappers

  /** Bit `k` of a byte string: `(data[k >> 3] >> (k & 7)) & 1`. */
  function BitAt(data: Bytes, k: nat): nat
    requires k < 8 * |data|
  {
    Bit(data[k / 8], k % 8)
  }

  lemma Pow2At8()
    ensures Pow2(8) == 256
  {
    assert Pow2(4) == 16;
  }

  /** The bits of a byte are not touched by the bytes above it. */
  lemma LowByteBit(b: byte, rest: nat, k: nat)
    requires k < 8
    ensures Bit(b + 256 * rest, k) == Bit(b, k)
  {
    Pow2At8();
    Pow2Add(k, 8 - k);
    assert Pow2(8 - k) == 2 * Pow2(7 - k);
    hide Pow2;
    Regroup(Pow2(k), Pow2(8 - k), rest);
    AddMultiple(b, Pow2(8 - k) * rest, Pow2(k));
    Regroup(2, Pow2(7 - k), rest);
    AddMultiple(b / Pow2(k), Pow2(7 - k) * rest, 2);
  }

  lemma HighByteBit(b: byte, rest: nat, k: nat)
    requires k >= 8
    ensures Bit(b + 256 * rest, k) == Bit(rest, k - 8)
  {
    Pow2At8();
    Pow2Add(8, k - 8);
    hide Pow2;
    DivDiv(b + 256 * rest, 256, Pow2(k - 8));
    SplitByte(b, rest);
  }

  /** The bits of a byte string are the bits of the little-endian number it holds. */
  lemma {:induction false} BitOfNumber(data: Bytes, k: nat)
    requires k < 8 * |data|
    ensures BitAt(data, k) == Bit(FromLe(data), k)
    decreases |data|
  {
    hide Bit;
    var b, rest := data[0], FromLe(data[1..]);
    if k < 8 {
      LowByteBit(b, rest, k);
    } else {
      BitOfNumber(data[1..], k - 8);
      HighByteBit(b, rest, k);
      assert data[1..][(k - 8) / 8] == data[k / 8] by { assert k / 8 == (k - 8) / 8 + 1; }
    }
  }

  // ---------- the decoder ----------

  /** The `n` bits of a number from bit `at` on. */
  function Field(v: nat, at: nat, n: nat): nat {
    v / Pow2(at) % Pow2(n)
  }

  lemma FieldBit(v: nat, at: nat, n: nat)
    ensures Field(v, at, n + 1) == Field(v, at, n) + Pow2(n) * Bit(v, at + n)
    ensures Field(v, at, n) < Pow2(n)
  {
    hide Pow2;
    LowBit(v / Pow2(at), n);
    Pow2Add(at, n);
    DivDiv(v, Pow2(at), Pow2(n));
  }

  /** Sets bit `k` of a 32-bit word when `bit` is one; the shift count is taken modulo 32. */
  function OrBit(value: nat, bit: nat, k: nat): nat {
    if bit == 1 && Bit(value, k % 32) == 0 then value + Pow2(k % 32) else value
  }

  lemma HighBitClear(value: nat, k: nat)
    requires value < Pow2(k)
    ensures Bit(value, k) == 0
  {
    hide Pow2;
    ModUnique(value, Pow2(k), 0, value);
  }

  lemma OrFresh(value: nat, bit: nat, k: nat)
    requires value < Pow2(k) && bit <= 1 && k < 32
    ensures OrBit(value, bit, k) == if bit == 0 then value else value + Pow2(k)
  {
    hide Pow2, Bit;
    HighBitClear(value, k);
    assert k % 32 == k;
  }

  /** The bytes that `rows` ids take. */
  function BytesFor(rows: nat, width: nat): nat {
    (At(rows, width) + 7) / 8
  }

  /** Where row `i` starts, in bits. */
  function At(i: nat, width: nat): nat {
    i * width
  }

  /** Decodes ids of `width` bits. `None`: not enough bytes. */
  method DecodeIds(width: nat, data: Bytes, rows: nat) returns (ids: Option<seq<nat>>)
    ensures ids.Some? <==> width == 0 || |data| >= BytesFor(rows, width)
    ensures ids.Some? ==> |ids.value| == rows
    ensures ids.Some? && width <= 32 ==>
      forall i :: 0 <= i < rows ==> ids.value[i] == Field(FromLe(data), At(i, width), width)
  {
    hide Field, Pow2, Bit, FromLe, OrBit, At;
    RowFits(0, 1, width);
    if width == 0 {
      forall i | 0 <= i < rows ensures Field(FromLe(data), At(i, width), width)
        == 0 { NoBits(FromLe(data), At(i, width)); }
      return Some(seq(rows, _ => 0));
    }
    if |data| < BytesFor(rows, width) { return None; }
    var out: seq<nat> := [];
    var bitPos := 0;
    for row := 0 to rows
      invariant bitPos == At(row, width) && |out| == row
      invariant width <= 32 ==> forall i :: 0 <= i < row ==> out[i] == Field(FromLe(data), At(i, width), width)
    {
      RowFits(row, rows, width);
      var value := DecodeOne(width, data, bitPos);
      bitPos := bitPos + width;
      out := out + [value];
    }
    return Some(out);
  }

  lemma RowFits(row: nat, rows: nat, width: nat)
    requires row < rows
    ensures At(row, width) + width <= At(rows, width) && At(row + 1, width) == At(row, width) + width
    ensures At(0, width) == 0
  {
    MulLess(width, row, rows);
  }

  lemma NoBits(v: nat, at: nat)
    ensures Field(v, at, 0) == 0
  {
  }

  /** The inner loop: one id. */
  method DecodeOne(width: nat, data: Bytes, start: nat) returns (value: nat)
    requires start + width <= 8 * |data|
    ensures width <= 32 ==> value == Field(FromLe(data), start, width)
  {
    hide Field, Pow2, Bit, FromLe, OrBit;
    value := 0;
    NoBits(FromLe(data), start);
    var bitPos := start;
    for bit := 0 to width
      invariant bitPos == start + bit
      invariant width <= 32 ==> value == Field(FromLe(data), start, bit)
    {
      var bitVal := BitAt(data, bitPos);
      if width <= 32 {
        BitOfNumber(data, bitPos);
        FieldBit(FromLe(data), start, bit);
        BitIsBit(FromLe(data), bitPos);
        OrFresh(value, bitVal, bit);
      }
      value := OrBit(value, bitVal, bit);
      bitPos := bitPos + 1;
    }
  }

  lemma BitIsBit(v: nat, k: nat)
    ensures Bit(v, k) <= 1
  {
  }

  // ---------- the packer ----------

  /** The number whose bits are the ids, each cut to `width` bits, lowest first. */
  function Packed(ids: seq<nat>, width: nat): nat
    decreases |ids|
  {
    if ids == [] then 0
    else
      var n := |ids| - 1;
      Packed(ids[..n], width) + Pow2(At(n, width)) * (ids[n] % Pow2(width))
  }

  lemma {:induction false} PackedBelow(ids: seq<nat>, width: nat)
    ensures Packed(ids, width) < Pow2(At(|ids|, width))
    decreases |ids|
  {
    hide Pow2, At;
    RowFits(0, 1, width);
    if ids == [] {
      Pow2Zero();
    } else {
      var n := |ids| - 1;
      PackedBelow(ids[..n], width);
      RowFits(n, |ids|, width);
      Pow2Add(At(n, width), width);
      MulLess(Pow2(At(n, width)), ids[n] % Pow2(width), Pow2(width));
    }
  }

  lemma Pow2Zero()
    ensures Pow2(0) == 1
  {
  }

  /** A field is not changed by what is added above it. */
  lemma FieldUnder(low: nat, id: nat, at: nat, width: nat, gap: nat)
    ensures Field(low + Pow2(at + width + gap) * id, at, width) == Field(low, at, width)
  {
    hide Pow2;
    Pow2Add(at, width + gap);
    Pow2Add(width, gap);
    Regroup(Pow2(at), Pow2(width + gap), id);
    AddMultiple(low, Pow2(width + gap) * id, Pow2(at));
    Regroup(Pow2(width), Pow2(gap), id);
    AddMultiple(low / Pow2(at), Pow2(gap) * id, Pow2(width));
  }

  lemma FieldTop(low: nat, id: nat, at: nat, width: nat)
    requires low < Pow2(at) && id < Pow2(width)
    ensures Field(low + Pow2(at) * id, at, width) == id
  {
    hide Pow2;
    AddMultiple(low, id, Pow2(at));
    ModUnique(low, Pow2(at), 0, low);
    ModUnique(id, Pow2(width), 0, id);
  }

  /** The field of an id in the packed number is the id, cut to its width. */
  lemma {:induction false} PackedField(ids: seq<nat>, width: nat, i: nat)
    requires i < |ids|
    ensures Field(Packed(ids, width), At(i, width), width) == ids[i] % Pow2(width)
    decreases |ids|
  {
    hide Pow2, Field, At, Packed;
    var n := |ids| - 1;
    var low, id := Packed(ids[..n], width), ids[n] % Pow2(width);
    PackedSplits(ids, width);
    if i == n {
      PackedBelow(ids[..n], width);
      FieldTop(low, id, At(n, width), width);
    } else {
      PackedField(ids[..n], width, i);
      FieldLower(low, id, i, n, width);
    }
  }

  lemma PackedSplits(ids: seq<nat>, width: nat)
    requires ids != []
    ensures
      var n := |ids| - 1;
      Packed(ids, width) == Packed(ids[..n], width) + Pow2(At(n, width)) * (ids[n] % Pow2(width))
  {
  }

  /** A field below the last id does not depend on it. */
  lemma FieldLower(low: nat, id: nat, i: nat, n: nat, width: nat)
    requires i < n
    ensures Field(low + Pow2(At(n, width)) * id, At(i, width), width) == Field(low, At(i, width), width)
  {
    hide Pow2, Field, At;
    RowFits(i, n, width);
    FieldUnder(low, id, At(i, width), width, At(n, width) - At(i, width) - width);
  }

  /** Setting a bit above everything that is set adds its weight. */
  lemma {:induction false} SetBit(b: Bytes, k: nat)
    requires k < 8 * |b| && FromLe(b) < Pow2(k)
    ensures Bit(b[k / 8], k % 8) == 0 && b[k / 8] + Pow2(k % 8) < 256
    ensures FromLe(b[k / 8 := b[k / 8] + Pow2(k % 8)]) == FromLe(b) + Pow2(k)
    decreases |b|
  {
    hide Bit;
    if k < 8 {
      SetLow(b, k);
    } else {
      Pow2At8();
      Pow2Add(8, k - 8);
      assert FromLe(b[1..]) < Pow2(k - 8);
      SetBit(b[1..], k - 8);
      assert k / 8 == (k - 8) / 8 + 1 && k % 8 == (k - 8) % 8;
    }
  }

  lemma SetLow(b: Bytes, k: nat)
    requires k < 8 && b != [] && FromLe(b) < Pow2(k)
    ensures Bit(b[0], k) == 0 && b[0] + Pow2(k) < 256
    ensures FromLe(b[0 := b[0] + Pow2(k)]) == FromLe(b) + Pow2(k)
  {
    Pow2Mono(k, 7);
    assert Pow2(7) == 128;
    HighBitClear(b[0], k);
    assert b[0 := b[0] + Pow2(k)][1..] == b[1..];
  }

  /** The inner loop of the packer: the bits of one id, from bit `start` on. */
  method PackOne(out: array<byte>, id: nat, width: nat, start: nat)
    requires start + width <= 8 * out.Length && FromLe(out[..]) < Pow2(start)
    modifies out
    ensures FromLe(out[..]) == old(FromLe(out[..])) + Pow2(start) * (id % Pow2(width))
  {
    hide Pow2, Bit, FromLe;
    var value, bitPos := id, start;
    ghost var low := FromLe(out[..]);
    Pow2Zero();
    for t := 0 to width
      invariant bitPos == start + t && value == id / Pow2(t)
      invariant FromLe(out[..]) == low + Pow2(start) * (id % Pow2(t))
    {
      PackStep(low, id, start, t);
      if value % 2 != 0 {
        SetBit(out[..], bitPos);
        var byteIdx, bitIdx := bitPos / 8, bitPos % 8;
        ghost var before := out[..];
        if Bit(out[byteIdx], bitIdx) == 0 { out[byteIdx] := out[byteIdx] + Pow2(bitIdx); }
        assert out[..] == before[byteIdx := before[byteIdx] + Pow2(bitIdx)];
      }
      value := value / 2;
      bitPos := bitPos + 1;
    }
  }

  /** The numbers before and after one bit of an id. */
  lemma PackStep(low: nat, id: nat, start: nat, t: nat)
    requires low < Pow2(start)
    ensures low + Pow2(start) * (id % Pow2(t)) < Pow2(start + t)
    ensures low + Pow2(start) * (id % Pow2(t + 1))
      == low + Pow2(start) * (id % Pow2(t)) + Pow2(start + t) * (id / Pow2(t) % 2)
    ensures id / Pow2(t) / 2 == id / Pow2(t + 1)
  {
    LowBit(id, t);
    Pow2Add(start, t);
    Distribute(Pow2(start), id % Pow2(t), Pow2(t) * (id / Pow2(t) % 2));
    Regroup(Pow2(start), Pow2(t), id / Pow2(t) % 2);
    MulLess(Pow2(start), id % Pow2(t), Pow2(t));
    DivDiv(id, Pow2(t), 2);
    assert Pow2(t) * 2 == Pow2(t + 1);
  }

  lemma {:induction false} ZerosAreZero(b: Bytes)
    requires forall i :: 0 <= i < |b| ==> b[i] == 0
    ensures FromLe(b) == 0
    decreases |b|
  {
    if b == [] {
    } else {
      ZerosAreZero(b[1..]);
    }
  }

  /** The packer, for the encoder's ids. */
  method PackIds(ids: seq<nat>, width: nat) returns (packed: Bytes)
    ensures |packed| == BytesFor(|ids|, width)
    ensures FromLe(packed) == Packed(ids, width)
  {
    hide Pow2, FromLe, At;
    RowFits(0, 1, width);
    var out := new byte[BytesFor(|ids|, width)](_ => 0);
    if width == 0 {
      NothingPacked(ids);
      ZerosAreZero(out[..]);
      return out[..];
    }
    ZerosAreZero(out[..]);
    var bitPos := 0;
    for i := 0 to |ids|
      invariant bitPos == At(i, width)
      invariant FromLe(out[..]) == Packed(ids[..i], width)
    {
      RowFits(i, |ids|, width);
      PackedBelow(ids[..i], width);
      assert ids[..i + 1][..i] == ids[..i];
      PackOne(out, ids[i], width, bitPos);
      bitPos := bitPos + width;
    }
    assert ids[..|ids|] == ids;
    return out[..];
  }

  lemma {:induction false} NothingPacked(ids: seq<nat>)
    ensures Packed(ids, 0) == 0
    decreases |ids|
  {
    if ids == [] {
    } else {
      NothingPacked(ids[..|ids| - 1]);
    }
  }

  // ---------- numeric dictionary pages ----------

  /** Unpacking the packer's bytes gives back every id that fits the width. */
  lemma UnpackPacked(ids: seq<nat>, width: nat, packed: Bytes)
    requires FromLe(packed) == Packed(ids, width)
    ensures forall i :: 0 <= i < |ids| ==>
      (Field(FromLe(packed), At(i, width), width) == ids[i] <==> ids[i] < Pow2(width))
  {
    hide Field, FromLe, Pow2, At;
    forall i | 0 <= i < |ids|
      ensures Field(FromLe(packed), At(i, width), width) == ids[i] <==> ids[i] < Pow2(width)
    {
      PackedField(ids, width, i);
      CutIsSame(ids[i], Pow2(width));
    }
  }

  lemma CutIsSame(v: nat, m: nat)
    requires m >= 1
    ensures v % m == v <==> v < m
  {
  }

  /** The width the encoder picks for a dictionary of `len` values. */
  function WidthForLen(len: nat): nat {
    if len <= 1 then 0 else Log2(len - 1) + 1
  }

  lemma Pow2At16()
    ensures Pow2(16) == 0x1_0000
  {
    Pow2At8();
    Pow2Add(8, 8);
  }

  /** Every id of a dictionary fits the width picked for it. */
  lemma WidthHolds(len: nat, id: nat)
    requires id < len
    ensures id < Pow2(WidthForLen(len))
    ensures len <= 0x1_0000 ==> WidthForLen(len) <= 16
  {
    if len > 1 {
      Log2Bounds(len - 1);
      Pow2At16();
      if len <= 0x1_0000 && Log2(len - 1) > 15 { Pow2Mono(16, Log2(len - 1)); }
    }
  }

  /** It is the least such width: another width has room for `len` ids exactly when it is no smaller. */
  lemma WidthIsLeast(len: nat, w: nat)
    ensures len <= Pow2(w) <==> WidthForLen(len) <= w
  {
    if len > 1 {
      Log2Bounds(len - 1);
      if w < WidthForLen(len) { Pow2Mono(w, Log2(len - 1)); } else { Pow2Mono(WidthForLen(len), w); }
    }
  }

  /** The physical integer types; the tag is the one stored in the schema. */
  function TypeWidth(ty: nat): Option<nat> {
    match ty
    case 0 => Some(1)  // u8
    case 9 => Some(1)  // i8
    case 1 => Some(2)  // u16
    case 8 => Some(2)  // i16
    case 2 => Some(4)  // u32
    case 3 => Some(4)  // i32
    case 4 => Some(8)  // i64
    case _ => None
  }

  datatype DictLayout = DictLayout(dictRaw: Bytes, idsRaw: Bytes, valueWidth: nat)

  /** Splits a page into dictionary and ids. `None`: it is too short. */
  function ParseDictLayout(raw: Bytes, idsLen: nat): Option<DictLayout> {
    if |raw| < 4 then None
    else
      var idsOff := 4 + U16At(raw, 0) * raw[3];
      if idsOff + idsLen > |raw| then None
      else Some(DictLayout(raw[4..idsOff], raw[idsOff..idsOff + idsLen], raw[3]))
  }

  /** The value at an id: the word in the dictionary, which a signed type reads as two's complement. */
  function WordAt(dictRaw: Bytes, width: nat, id: nat): Option<nat>
    requires width >= 1
  {
    if id < |dictRaw| / width then
      assert id * width + width <= |dictRaw| by { WordFits(|dictRaw|, width, id); }
      Some(ReadLe(dictRaw, id * width, width))
    else None
  }

  lemma WordFits(len: nat, width: nat, id: nat)
    requires width >= 1 && id < len / width
    ensures id * width + width <= len
  {
    DivMod(len, width);
    MulLess(width, id, len / width);
  }

  /** Looks every id up. `None`: some id is not in the dictionary. */
  method Gather(dictRaw: Bytes, width: nat, ids: seq<nat>) returns (r: Option<seq<nat>>)
    requires width >= 1
    ensures r.Some? <==> forall i :: 0 <= i < |ids| ==> WordAt(dictRaw, width, ids[i]).Some?
    ensures r.Some? ==> |r.value| == |ids|
    ensures r.Some? ==> forall i :: 0 <= i < |ids| ==> WordAt(dictRaw, width, ids[i]) == Some(r.value[i])
  {
    hide WordAt;
    var out: seq<nat> := [];
    for i := 0 to |ids|
      invariant |out| == i && forall j :: 0 <= j < i ==> WordAt(dictRaw, width, ids[j]) == Some(out[j])
    {
      var word := WordAt(dictRaw, width, ids[i]);
      if word.None? { return None; }
      out := out + [word.value];
    }
    return Some(out);
  }

  /** What a page of dictionary values and packed ids holds. */
  ghost predicate IsPage(raw: Bytes, dict: seq<nat>, ids: seq<nat>, bitWidth: byte, valueWidth: byte, packed: Bytes) {
    && |packed| == BytesFor(|ids|, bitWidth) && FromLe(packed) == Packed(ids, bitWidth)
    && raw == ToLe(|dict|, 2) + [bitWidth, valueWidth] + Concat(Words(dict, valueWidth)) + packed
  }

  function Words(dict: seq<nat>, width: nat): (parts: seq<Bytes>)
    ensures |parts| == |dict|
  {
    seq(|dict|, i requires 0 <= i < |dict| => ToLe(dict[i], width))
  }

  /** The encoder's bit-packed payload. */
  method EncodeBitPacked(dict: seq<nat>, ids: seq<nat>, valueWidth: byte) returns (raw: Bytes, ghost packed: Bytes)
    requires |dict| <= 0xFFFF
    ensures WidthForLen(|dict|) <= 16 && IsPage(raw, dict, ids, WidthForLen(|dict|), valueWidth, packed)
  {
    hide Packed, Concat, FromLe;
    if |dict| > 0 { WidthHolds(|dict|, 0); }
    var width: byte := WidthForLen(|dict|);
    var bits := PackIds(ids, width);
    packed := bits;
    raw := ToLe(|dict|, 2);
    raw := raw + [width, valueWidth];
    raw := raw + Concat(Words(dict, valueWidth));
    raw := raw + bits;
  }

  /** Decodes a bit-packed page. `None`: the page is malformed. */
  method DecodeBitPacked(ty: nat, raw: Bytes, rows: nat) returns (r: Option<seq<nat>>)
    ensures
      var width := if |raw| >= 3 then raw[2] else 0;
      var layout := ParseDictLayout(raw, BytesFor(rows, width));
      && (layout.None? || TypeWidth(ty) != Some(layout.value.valueWidth) ==> r.None?)
      && (layout.Some? && TypeWidth(ty) == Some(layout.value.valueWidth) && width <= 32 ==>
            (r.Some? <==> forall i :: 0 <= i < rows ==>
               WordAt(layout.value.dictRaw, layout.value.valueWidth,
                 Field(FromLe(layout.value.idsRaw), At(i, width), width)).Some?)
            && (r.Some? ==> |r.value| == rows && forall i :: 0 <= i < rows ==>
               WordAt(layout.value.dictRaw, layout.value.valueWidth,
                 Field(FromLe(layout.value.idsRaw), At(i, width), width))
               == Some(r.value[i])))
  {
    hide Field, FromLe, WordAt;
    var width: nat := if |raw| >= 3 then raw[2] else 0;
    var layout := ParseDictLayout(raw, BytesFor(rows, width));
    if layout.None? { return None; }
    var ids := DecodeIds(width, layout.value.idsRaw, rows);
    if ids.None? { return None; }
    if TypeWidth(ty) != Some(layout.value.valueWidth) { return None; }
    r := Gather(layout.value.dictRaw, layout.value.valueWidth, ids.value);
  }

  lemma {:induction false} WordStart(dict: seq<nat>, width: nat, k: nat)
    requires k <= |dict|
    ensures Start(Words(dict, width), k) == At(k, width)
    decreases k
  {
    hide Start, Concat, At;
    StartEnds(Words(dict, width));
    RowFits(0, 1, width);
    if k == 0 {
    } else {
      WordStart(dict, width, k - 1);
      StartStep(Words(dict, width), k - 1);
      RowFits(k - 1, k, width);
    }
  }

  lemma WordFound(dict: seq<nat>, width: nat, id: nat)
    requires width >= 1 && id < |dict| && dict[id] < Pow256(width)
    ensures WordAt(Concat(Words(dict, width)), width, id) == Some(dict[id])
  {
    hide Concat, Start, FromLe, ToLe;
    var b := Concat(Words(dict, width));
    WordStart(dict, width, |dict|);
    StartEnds(Words(dict, width));
    ModUnique(|b|, width, |dict|, 0);
    WordStart(dict, width, id);
    PartAt(Words(dict, width), id);
    LeRoundTrip(dict[id], width);
  }

  lemma PageSplits(raw: Bytes, dict: seq<nat>, ids: seq<nat>, bitWidth: byte, valueWidth: byte, packed: Bytes)
    requires IsPage(raw, dict, ids, bitWidth, valueWidth, packed) && |dict| <= 0xFFFF
    ensures |raw| >= 4 && raw[2] == bitWidth
    ensures ParseDictLayout(raw, BytesFor(|ids|, bitWidth))
      == Some(DictLayout(Concat(Words(dict, valueWidth)), packed, valueWidth))
  {
    hide Concat, Start, ToLe, FromLe, Packed;
    Widths();
    var len: Bytes, two: Bytes, words := ToLe(|dict|, 2), [bitWidth, valueWidth], Concat(Words(dict, valueWidth));
    assert raw == [] + len + (two + words + packed);
    ReadAfter([], |dict|, 2, two + words + packed);
    assert raw[2] == bitWidth && raw[3] == valueWidth;
    WordStart(dict, valueWidth, |dict|);
    StartEnds(Words(dict, valueWidth));
    assert raw == (len + two) + words + packed;
    assert raw[4 + |words|..4 + |words| + |packed|] == packed;
  }

  /** The decoder finds `value` for row `i`. */
  ghost predicate RowReads(raw: Bytes, rows: nat, valueWidth: nat, i: nat, value: nat)
    requires |raw| >= 3 && valueWidth >= 1
  {
    var layout := ParseDictLayout(raw, BytesFor(rows, raw[2]));
    && layout.Some? && layout.value.valueWidth == valueWidth
    && WordAt(layout.value.dictRaw, valueWidth, Field(FromLe(layout.value.idsRaw), At(i, raw[2]), raw[2]))
         == Some(value)
  }

  /**
   A bit-packed page decodes to the values its ids stand for: what the decoder reads for row `i` is the dictionary
   value of id `i`.
   */
  lemma PageRoundTrip(raw: Bytes, dict: seq<nat>, ids: seq<nat>, valueWidth: byte, packed: Bytes, i: nat)
    requires |dict| <= 0xFFFF && valueWidth >= 1 && i < |ids|
    requires forall k :: 0 <= k < |dict| ==> dict[k] < Pow256(valueWidth)
    requires forall k :: 0 <= k < |ids| ==> ids[k] < |dict|
    requires WidthForLen(|dict|) <= 16 && IsPage(raw, dict, ids, WidthForLen(|dict|), valueWidth, packed)
    ensures |raw| >= 3 && raw[2] == WidthForLen(|dict|)
    ensures RowReads(raw, |ids|, valueWidth, i, dict[ids[i]])
  {
    hide Concat, Start, ToLe, FromLe, Packed, WordAt, ParseDictLayout, Field, Pow2, Pow256, WidthForLen, At;
    var width := WidthForLen(|dict|);
    PageSplits(raw, dict, ids, width, valueWidth, packed);
    PackedIds(raw, dict, ids, width, valueWidth, packed);
    UnpackPacked(ids, width, packed);
    WidthHolds(|dict|, ids[i]);
    WordFound(dict, valueWidth, ids[i]);
  }

  lemma PackedIds(raw: Bytes, dict: seq<nat>, ids: seq<nat>, bitWidth: byte, valueWidth: byte, packed: Bytes)
    requires IsPage(raw, dict, ids, bitWidth, valueWidth, packed)
    ensures FromLe(packed) == Packed(ids, bitWidth)
  {
  }

  /** The decoder of a written page succeeds, and gives the values in row order. */
  method RoundTripPage(ty: nat, dict: seq<nat>, ids: seq<nat>, valueWidth: byte) returns (values: Option<seq<nat>>)
    requires |dict| <= 0xFFFF && TypeWidth(ty) == Some(valueWidth as nat)
    requires forall k :: 0 <= k < |dict| ==> dict[k] < Pow256(valueWidth)
    requires forall k :: 0 <= k < |ids| ==> ids[k] < |dict|
    ensures values == Some(seq(|ids|, i requires 0 <= i < |ids| => dict[ids[i]]))
  {
    hide Concat, FromLe, Packed, WordAt, ParseDictLayout, Field, Pow256, WidthForLen, At, IsPage;
    var raw, packed := EncodeBitPacked(dict, ids, valueWidth);
    ghost var width := WidthForLen(|dict|);
    PageSplits(raw, dict, ids, width, valueWidth, packed);
    ghost var dictRaw := Concat(Words(dict, valueWidth));
    forall i | 0 <= i < |ids|
      ensures WordAt(dictRaw, valueWidth, Field(FromLe(packed), At(i, width), width)) == Some(dict[ids[i]])
    {
      PageRoundTrip(raw, dict, ids, valueWidth, packed, i);
    }
    values := DecodeBitPacked(ty, raw, |ids|);
    assert values.Some?;
    assert values.value == seq(|ids|, i requires 0 <= i < |ids| => dict[ids[i]]);
  }
}

/**
 Byte strings laid end to end, and where each of them starts. A part of known position and length is
 found again by slicing, a field of a record is found at the sum of the widths before it, and writing
 one part leaves the others alone. The file format, the dictionaries and the projection blob are all
 read back through these facts.
 */
module Sections {
  import opened LittleEndian

  type Bytes = seq<byte>
  type u16 = x: nat | x < 0x1_0000
  type u32 = x: nat | x < 0x1_0000_0000
  type u64 = x: nat | x < 0x1_0000_0000_0000_0000

  function Concat(parts: seq<Bytes>): Bytes
    decreases |parts|
  {
    if parts == [] then [] else Concat(parts[..|parts| - 1]) + parts[|parts| - 1]
  }

  /** The offset at which part `k` starts. */
  function Start(parts: seq<Bytes>, k: nat): nat
    requires k <= |parts|
  {
    |Concat(parts[..k])|
  }

  lemma ConcatSnoc(parts: seq<Bytes>, last: Bytes)
    ensures Concat(parts + [last]) == Concat(parts) + last
  {
    assert (parts + [last])[..|parts|] == parts;
  }

  lemma Assoc<T>(a: seq<T>, b: seq<T>, c: seq<T>)
    ensures a + b + c == a + (b + c)
  {
  }

  lemma {:induction false} ConcatAppend(a: seq<Bytes>, b: seq<Bytes>)
    ensures Concat(a + b) == Concat(a) + Concat(b)
    decreases |b|
  {
    if b == [] {
      assert a + b == a;
    } else {
      var front, last := b[..|b| - 1], b[|b| - 1];
      assert a + b == a + front + [last];
      ConcatSnoc(a + front, last);
      ConcatAppend(a, front);
      Assoc(Concat(a), Concat(front), last);
    }
  }

  lemma ConcatOne(part: Bytes)
    ensures Concat([part]) == part
  {
    assert [part][..0] == [];
  }

  /** Each part starts where the one before it ends. */
  lemma StartStep(parts: seq<Bytes>, k: nat)
    requires k < |parts|
    ensures Start(parts, k + 1) == Start(parts, k) + |parts[k]|
  {
    assert parts[..k + 1][..k] == parts[..k];
  }

  lemma StartEnds(parts: seq<Bytes>)
    ensures Start(parts, 0) == 0 && Start(parts, |parts|) == |Concat(parts)|
  {
    assert parts[..|parts|] == parts;
  }

  lemma {:induction false} StartMonotone(parts: seq<Bytes>, j: nat, k: nat)
    requires j <= k <= |parts|
    ensures Start(parts, j) <= Start(parts, k)
    decreases k - j
  {
    hide Start;
    if j < k {
      StartMonotone(parts, j, k - 1);
      StartStep(parts, k - 1);
    }
  }

  lemma Apart<T>(s: seq<T>, k: nat)
    requires k < |s|
    ensures s == s[..k] + [s[k]] + s[k + 1..]
  {
  }

  /** What comes before part `k`, the part, and what comes after it. */
  lemma Around(parts: seq<Bytes>, k: nat)
    requires k < |parts|
    ensures Concat(parts) == Concat(parts[..k]) + parts[k] + Concat(parts[k + 1..])
    ensures Start(parts, k) == |Concat(parts[..k])|
  {
    hide Concat;
    Apart(parts, k);
    ConcatAppend(parts[..k] + [parts[k]], parts[k + 1..]);
    ConcatSnoc(parts[..k], parts[k]);
  }

  /** Part `k` is found at its start. */
  lemma PartAt(parts: seq<Bytes>, k: nat)
    requires k < |parts|
    ensures Start(parts, k) + |parts[k]| <= |Concat(parts)|
    ensures Concat(parts)[Start(parts, k)..Start(parts, k) + |parts[k]|] == parts[k]
  {
    hide Concat, Start;
    Around(parts, k);
  }

  /** Bytes made of `head`, then the parts, then `tail`: part `k` is at the end of `head` plus its start. */
  lemma PartWithin(head: Bytes, parts: seq<Bytes>, tail: Bytes, k: nat)
    requires k < |parts|
    ensures
      var all, start := head + Concat(parts) + tail, |head| + Start(parts, k);
      start + |parts[k]| <= |all| && all[start..start + |parts[k]|] == parts[k]
  {
    hide Concat, Start;
    PartAt(parts, k);
    SliceWithin(head, Concat(parts), tail, Start(parts, k), |parts[k]|);
  }

  lemma SliceWithin<T>(head: seq<T>, body: seq<T>, tail: seq<T>, off: nat, n: nat)
    requires off + n <= |body|
    ensures (head + body + tail)[|head| + off..|head| + off + n] == body[off..off + n]
  {
  }

  // ---------- fixed-width fields ----------

  datatype Field = Field(width: nat, value: nat)

  function Encoded(fields: seq<Field>): (parts: seq<Bytes>)
    ensures |parts| == |fields|
  {
    seq(|fields|, i requires 0 <= i < |fields| => ToLe(fields[i].value, fields[i].width))
  }

  /** Little-endian fields, one after the other. */
  function Pack(fields: seq<Field>): Bytes {
    Concat(Encoded(fields))
  }

  function FieldStart(fields: seq<Field>, k: nat): nat
    requires k <= |fields|
  {
    Start(Encoded(fields), k)
  }

  lemma FieldStep(fields: seq<Field>, k: nat)
    requires k < |fields|
    ensures FieldStart(fields, k + 1) == FieldStart(fields, k) + fields[k].width
    ensures FieldStart(fields, 0) == 0
  {
    StartStep(Encoded(fields), k);
    StartEnds(Encoded(fields));
  }

  lemma FieldEnds(fields: seq<Field>)
    ensures FieldStart(fields, |fields|) == |Pack(fields)|
  {
    StartEnds(Encoded(fields));
  }

  /** Reading a field gives back its value, or what is left of it in its width. */
  lemma FieldAt(fields: seq<Field>, k: nat)
    requires k < |fields|
    ensures FieldStart(fields, k) + fields[k].width <= |Pack(fields)|
    ensures ReadLe(Pack(fields), FieldStart(fields, k), fields[k].width) == fields[k].value % Pow256(fields[k].width)
  {
    hide Concat, Start, ToLe;
    PartAt(Encoded(fields), k);
    LeMod(fields[k].value, fields[k].width);
  }

  lemma ReadWithin(head: Bytes, body: Bytes, tail: Bytes, off: nat, n: nat)
    requires off + n <= |body|
    ensures ReadLe(head + body + tail, |head| + off, n) == ReadLe(body, off, n)
  {
    SliceWithin(head, body, tail, off, n);
  }

  function U16At(b: Bytes, off: nat): u16
    requires off + 2 <= |b|
  {
    Widths();
    ReadLe(b, off, 2)
  }

  function U32At(b: Bytes, off: nat): u32
    requires off + 4 <= |b|
  {
    Widths();
    ReadLe(b, off, 4)
  }

  function U64At(b: Bytes, off: nat): u64
    requires off + 8 <= |b|
  {
    Widths();
    ReadLe(b, off, 8)
  }

  function U8At(b: Bytes, off: nat): byte
    requires off < |b|
  {
    b[off]
  }
}

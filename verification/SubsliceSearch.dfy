/** Substring search sixteen bytes at a time, against the plain search. */
module SubsliceSearch {
  import opened Arithmetic
  import opened BitPacked
  import opened LittleEndian
  import opened Sections
  import opened Words
  import opened Wrappers

  // ---------- the plain search ----------

  predicate MatchAt(haystack: Bytes, needle: Bytes, pos: nat) {
    pos + |needle| <= |haystack| && haystack[pos..pos + |needle|] == needle
  }

  /** The least match position from `from` on. */
  function FindFrom(haystack: Bytes, needle: Bytes, from: nat): Option<nat>
    decreases |haystack| - from
  {
    if from + |needle| > |haystack| then None
    else if MatchAt(haystack, needle, from) then Some(from)
    else if from == |haystack| then None
    else FindFrom(haystack, needle, from + 1)
  }

  function Find(haystack: Bytes, needle: Bytes): Option<nat> {
    FindFrom(haystack, needle, 0)
  }

  /** What a search result means. */
  ghost predicate IsFirst(haystack: Bytes, needle: Bytes, from: nat, r: Option<nat>) {
    && (r.Some? ==>
          && from <= r.value && MatchAt(haystack, needle, r.value)
          && forall p :: from <= p < r.value ==> !MatchAt(haystack, needle, p))
    && (r.None? ==> forall p :: from <= p ==> !MatchAt(haystack, needle, p))
  }

  lemma {:induction false} FindIsFirst(haystack: Bytes, needle: Bytes, from: nat)
    ensures IsFirst(haystack, needle, from, FindFrom(haystack, needle, from))
    decreases |haystack| - from
  {
    if from + |needle| <= |haystack| && !MatchAt(haystack, needle, from) && from < |haystack| {
      FindIsFirst(haystack, needle, from + 1);
    }
  }

  /** Any result with the meaning of a search is the result of the plain search. */
  lemma FirstIsFind(haystack: Bytes, needle: Bytes, r: Option<nat>)
    ensures IsFirst(haystack, needle, 0, r) <==> r == Find(haystack, needle)
  {
    FindIsFirst(haystack, needle, 0);
  }

  // ---------- masks ----------

  /** One bit for each byte of a block, set where it equals `b`. */
  function MaskOf(block: Bytes, b: byte): nat {
    if block == [] then 0 else (if block[0] == b then 1 else 0) + 2 * MaskOf(block[1..], b)
  }

  lemma {:induction false} MaskBit(block: Bytes, b: byte, k: nat)
    ensures Bit(MaskOf(block, b), k) == if k < |block| && block[k] == b then 1 else 0
    decreases |block|
  {
    hide Pow2;
    if block == [] {
      ZeroBit(k);
    } else {
      BitStep(MaskOf(block, b), if k == 0 then 0 else k - 1);
      if k > 0 { MaskBit(block[1..], b, k - 1); }
    }
  }

  lemma ZeroBit(k: nat)
    ensures Bit(0, k) == 0
  {
    hide Pow2;
    ModUnique(0, Pow2(k), 0, 0);
  }

  /** The number of zeros below the lowest one. */
  function TrailingZeros(mask: nat): nat
    requires mask > 0
  {
    if mask % 2 == 1 then 0 else 1 + TrailingZeros(mask / 2)
  }

  lemma {:induction false} LowestBit(mask: nat, k: nat)
    requires mask > 0
    ensures k == TrailingZeros(mask) ==> Bit(mask, k) == 1
    ensures k < TrailingZeros(mask) ==> Bit(mask, k) == 0
    decreases mask
  {
    hide Bit;
    BitStep(mask, if k == 0 then 0 else k - 1);
    if mask % 2 == 0 && k > 0 { LowestBit(mask / 2, k - 1); }
  }

  lemma {:induction false} AndSelf(a: nat)
    ensures And(a, a) == a
  {
    if a > 0 { AndSelf(a / 2); }
  }

  /** The lowest bit goes, and the halves of an even number keep clearing theirs. */
  lemma ClearStep(mask: nat)
    requires mask > 0
    ensures mask % 2 == 1 ==> And(mask, mask - 1) == 2 * (mask / 2)
    ensures mask % 2 == 0 ==> mask / 2 > 0 && And(mask, mask - 1) == 2 * And(mask / 2, mask / 2 - 1)
  {
    hide And;
    var h := mask / 2;
    AndHalf(mask, mask - 1);
    if mask % 2 == 1 {
      assert (mask - 1) / 2 == h && (mask - 1) % 2 == 0;
      AndSelf(h);
    } else {
      assert (mask - 1) / 2 == h - 1;
    }
  }

  /** `mask & (mask - 1)` clears the lowest one and leaves every other bit. */
  lemma {:induction false} ClearLowest(mask: nat, k: nat)
    requires mask > 0
    ensures Bit(And(mask, mask - 1), k) == if k == TrailingZeros(mask) then 0 else Bit(mask, k)
    decreases mask
  {
    hide Bit, And;
    var h, c := mask / 2, And(mask, mask - 1);
    ClearStep(mask);
    BitStep(mask, if k == 0 then 0 else k - 1);
    BitStep(c, if k == 0 then 0 else k - 1);
    if mask % 2 == 0 && k > 0 { ClearLowest(h, k - 1); }
  }

  /** Clearing makes the mask smaller, so the loop over its bits ends. */
  lemma AndLess(mask: nat)
    requires mask > 0
    ensures And(mask, mask - 1) < mask
  {
    AndBelow(mask, mask - 1);
  }

  /** The ones of `mask` are the places from `done` on where the block holds `b`. */
  ghost predicate Marks(mask: nat, block: Bytes, b: byte, done: nat) {
    forall k: nat :: Bit(mask, k) == 1 <==> done <= k < |block| && block[k] == b
  }

  lemma MarksAll(block: Bytes, b: byte)
    ensures Marks(MaskOf(block, b), block, b, 0)
  {
    hide Bit;
    forall k: nat ensures Bit(MaskOf(block, b), k) == 1 <==> 0 <= k < |block| && block[k] == b { MaskBit(block, b, k); }
  }

  lemma MarksNext(mask: nat, block: Bytes, b: byte, done: nat)
    requires mask > 0 && Marks(mask, block, b, done)
    ensures
      var bit := TrailingZeros(mask);
      && done <= bit < |block| && block[bit] == b
      && (forall k :: done <= k < bit ==> block[k] != b)
      && Marks(And(mask, mask - 1), block, b, bit + 1)
  {
    hide Bit, And, TrailingZeros;
    var bit, c := TrailingZeros(mask), And(mask, mask - 1);
    LowestBit(mask, bit);
    assert Bit(mask, bit) == 1;
    forall k | done <= k < bit ensures block[k] != b {
      LowestBit(mask, k);
      assert Bit(mask, k) != 1;
    }
    forall k: nat ensures Bit(c, k) == 1 <==> bit + 1 <= k < |block| && block[k] == b {
      ClearLowest(mask, k);
      if k < bit { LowestBit(mask, k); }
    }
    assert Marks(c, block, b, bit + 1);
  }

  lemma MarksNone(block: Bytes, b: byte, done: nat)
    requires Marks(0, block, b, done)
    ensures forall k :: done <= k < |block| ==> block[k] != b
  {
    hide Bit;
    forall k | done <= k < |block| ensures block[k] != b { ZeroBit(k); }
  }

  // ---------- the block search ----------

  /** The haystack is the first `len` bytes of `memory`; a block read may reach past it. */
  ghost predicate Readable(memory: Bytes, len: nat) {
    len <= |memory| && 16 <= |memory|
  }

  /** No match starts before `to`. */
  ghost predicate NoneBefore(haystack: Bytes, needle: Bytes, to: nat) {
    forall p :: 0 <= p < to ==> !MatchAt(haystack, needle, p)
  }

  lemma NoMatch(haystack: Bytes, needle: Bytes, p: nat)
    requires needle != [] && (p < |haystack| ==> haystack[p] != needle[0])
    ensures !MatchAt(haystack, needle, p)
  {
    if p + |needle| <= |haystack| { assert haystack[p..p + |needle|][0] == haystack[p]; }
  }

  /** Where the block holds no first byte, no match starts. */
  lemma SkipTo(memory: Bytes, len: nat, needle: Bytes, block: Bytes, i: nat, from: nat, to: nat)
    requires Readable(memory, len) && needle != [] && i + 16 <= |memory| && from <= to <= 16
      && block == memory[i..i + 16]
    requires NoneBefore(memory[..len], needle, i + from)
    requires forall k :: from <= k < to ==> block[k] != needle[0]
    ensures NoneBefore(memory[..len], needle, i + to)
  {
    forall p | i + from <= p < i + to ensures !MatchAt(memory[..len], needle, p) {
      assert block[p - i] == memory[p];
      NoMatch(memory[..len], needle, p);
    }
  }

  datatype Block = Found(pos: nat) | Nowhere | Next

  /** One block: the first match in it, or that there is none anywhere, or that the search must go on. */
  method SearchBlock(memory: Bytes, len: nat, needle: Bytes, i: nat) returns (r: Block)
    requires Readable(memory, len) && 2 <= |needle| <= len && i + 16 <= |memory|
    requires NoneBefore(memory[..len], needle, i)
    ensures r.Found? ==> MatchAt(memory[..len], needle, r.pos) && NoneBefore(memory[..len], needle, r.pos)
    ensures r.Nowhere? ==> Find(memory[..len], needle) == None
    ensures r.Next? ==> NoneBefore(memory[..len], needle, i + 16)
  {
    hide And, Marks, MaskOf, TrailingZeros, Find, NoneBefore;
    var lastStart := len - |needle|;
    var block := memory[i..i + 16];
    var mask := MaskOf(block, needle[0]);
    MarksAll(block, needle[0]);
    ghost var done := 0;
    while mask != 0
      invariant done <= 16 && Marks(mask, block, needle[0], done) && NoneBefore(memory[..len], needle, i + done)
      decreases mask
    {
      MarksNext(mask, block, needle[0], done);
      AndLess(mask);
      var bit := TrailingZeros(mask);
      var pos := i + bit;
      SkipTo(memory, len, needle, block, i, done, bit);
      if pos > lastStart {
        NoneLeft(memory[..len], needle, pos);
        return Nowhere;
      }
      assert memory[..len][pos..pos + |needle|] == memory[pos..pos + |needle|];
      if memory[pos..pos + |needle|] == needle { return Found(pos); }
      NoneHere(memory[..len], needle, pos);
      mask := And(mask, mask - 1);
      done := bit + 1;
    }
    MarksNone(block, needle[0], done);
    SkipTo(memory, len, needle, block, i, done, 16);
    return Next;
  }

  lemma NoneHere(haystack: Bytes, needle: Bytes, pos: nat)
    requires NoneBefore(haystack, needle, pos) && !MatchAt(haystack, needle, pos)
    ensures NoneBefore(haystack, needle, pos + 1)
  {
  }

  lemma NoneLeft(haystack: Bytes, needle: Bytes, pos: nat)
    requires NoneBefore(haystack, needle, pos) && pos + |needle| > |haystack|
    ensures Find(haystack, needle) == None
  {
    FirstIsFind(haystack, needle, None);
  }

  lemma FoundFirst(haystack: Bytes, needle: Bytes, pos: nat)
    requires NoneBefore(haystack, needle, pos) && MatchAt(haystack, needle, pos)
    ensures Find(haystack, needle) == Some(pos)
  {
    FirstIsFind(haystack, needle, Some(pos));
  }

  lemma NothingBefore(haystack: Bytes, needle: Bytes)
    ensures NoneBefore(haystack, needle, 0)
  {
  }

  /** The last block start: `len.saturating_sub(16)`. */
  function ChunkEnd(len: nat): nat {
    if len < 16 then 0 else len - 16
  }

  /** When the short search agrees with the plain one: bytes past a haystack shorter than a block are searched too. */
  ghost predicate ByteSearchRight(memory: Bytes, len: nat, b: byte)
    requires Readable(memory, len)
  {
    len >= 16 || b in memory[..len] || b !in memory[len..16]
  }

  lemma ByteMatch(haystack: Bytes, b: byte, p: nat)
    ensures MatchAt(haystack, [b], p) <==> p < |haystack| && haystack[p] == b
  {
    if p < |haystack| { assert haystack[p..p + 1] == [haystack[p]]; }
  }

  lemma NoneBeforeByte(haystack: Bytes, b: byte, to: nat)
    requires forall p :: 0 <= p < to && p < |haystack| ==> haystack[p] != b
    ensures NoneBefore(haystack, [b], to)
  {
    forall p | 0 <= p < to ensures !MatchAt(haystack, [b], p) { ByteMatch(haystack, b, p); }
  }

  /** The search for one byte is right exactly when no stray match follows a short haystack. */
  method MemchrSimd(memory: Bytes, len: nat, b: byte) returns (r: Option<nat>)
    requires Readable(memory, len)
    ensures r == Find(memory[..len], [b]) <==> ByteSearchRight(memory, len, b)
  {
    hide And, Marks, MaskOf, TrailingZeros, Find, NoneBefore;
    var haystack := memory[..len];
    var i := 0;
    while i <= ChunkEnd(len)
      invariant i <= ChunkEnd(len) + 16 && (i == 0 || i >= 16)
      invariant forall p :: 0 <= p < i && p < |memory| ==> memory[p] != b
      decreases ChunkEnd(len) + 16 - i
    {
      var block := memory[i..i + 16];
      var mask := MaskOf(block, b);
      MarksAll(block, b);
      if mask != 0 {
        MarksNext(mask, block, b, 0);
        var pos := i + TrailingZeros(mask);
        assert memory[pos] == b;
        forall p | 0 <= p < pos ensures memory[p] != b { if p >= i { assert block[p - i] == memory[p]; } }
        StrayOrFound(memory, len, b, pos);
        return Some(pos);
      }
      MarksNone(block, b, 0);
      forall p | i <= p < i + 16 ensures memory[p] != b { assert block[p - i] == memory[p]; }
      i := i + 16;
    }
    while i < len
      invariant i >= 16
      invariant forall p :: 0 <= p < i && p < |memory| ==> memory[p] != b
    {
      if memory[i] == b {
        NoneBeforeByte(haystack, b, i);
        ByteMatch(haystack, b, i);
        FoundFirst(haystack, [b], i);
        assert memory[..len][i] == b;
        return Some(i);
      }
      i := i + 1;
    }
    NoneBeforeByte(haystack, b, len);
    NoneLeft(haystack, [b], len);
    assert len < 16 ==> b !in memory[len..16];
    return None;
  }

  lemma StrayOrFound(memory: Bytes, len: nat, b: byte, pos: nat)
    requires Readable(memory, len) && pos < |memory| && (pos < len || pos < 16)
    requires memory[pos] == b && forall p :: 0 <= p < pos ==> memory[p] != b
    ensures Some(pos) == Find(memory[..len], [b]) <==> ByteSearchRight(memory, len, b)
  {
    hide Find, NoneBefore;
    var haystack := memory[..len];
    if pos < len {
      NoneBeforeByte(haystack, b, pos);
      ByteMatch(haystack, b, pos);
      FoundFirst(haystack, [b], pos);
      assert haystack[pos] == b;
    } else {
      NoneBeforeByte(haystack, b, len);
      NoneLeft(haystack, [b], len);
      assert memory[len..16][pos - len] == b;
    }
  }

  /**
   The block search finds the least match of every needle but a single byte, in haystacks of any length and whatever
   follows them; for a single byte it does so exactly when no stray match follows a short haystack.
   */
  method FindSubsliceSimd(memory: Bytes, len: nat, needle: Bytes) returns (r: Option<nat>)
    requires Readable(memory, len)
    ensures |needle| != 1 ==> r == Find(memory[..len], needle)
    ensures |needle| == 1 ==> (r == Find(memory[..len], needle) <==> ByteSearchRight(memory, len, needle[0]))
  {
    hide NoneBefore, Find, ByteSearchRight;
    var haystack := memory[..len];
    NothingBefore(haystack, needle);
    if |needle| == 0 {
      assert MatchAt(haystack, needle, 0);
      FoundFirst(haystack, needle, 0);
      return Some(0);
    }
    if |needle| == 1 {
      assert needle == [needle[0]];
      r := MemchrSimd(memory, len, needle[0]);
      return;
    }
    if len < |needle| {
      NoneLeft(haystack, needle, 0);
      return None;
    }
    var first := needle[0];
    var lastStart := len - |needle|;
    var i := 0;
    while i <= ChunkEnd(len)
      invariant NoneBefore(haystack, needle, i)
      decreases ChunkEnd(len) + 16 - i
    {
      var block := SearchBlock(memory, len, needle, i);
      match block {
        case Found(pos) =>
          FoundFirst(haystack, needle, pos);
          return Some(pos);
        case Nowhere => return None;
        case Next =>
      }
      i := i + 16;
    }
    while i <= lastStart
      invariant NoneBefore(haystack, needle, i)
    {
      assert haystack[i..i + |needle|] == memory[i..i + |needle|];
      if memory[i] == first && memory[i..i + |needle|] == needle {
        FoundFirst(haystack, needle, i);
        return Some(i);
      }
      if memory[i] != first { NoMatch(haystack, needle, i); }
      NoneHere(haystack, needle, i);
      i := i + 1;
    }
    NoneLeft(haystack, needle, i);
    return None;
  }
}

/**
 Bytes and little-endian integers: writing a number in a given count of bytes and reading it back,
 the number of values a count of bytes can hold, and writing bytes into the middle of a buffer. An
 integer that does not fit its field is written modulo the field's size, as a truncating cast does,
 so that every round trip below is stated with the bound it needs. Readers check the length of what
 is left before they read.
 */
module LittleEndian {
  import opened Arithmetic

  type byte = x: int | 0 <= x < 256

  /** The greatest number that four bytes hold. */
  const MAX32: nat := 0xFFFF_FFFF

  function Pow256(n: nat): (r: nat)
    ensures r >= 1
  {
    if n == 0 then 1 else 256 * Pow256(n - 1)
  }

  lemma Widths()
    ensures Pow256(1) == 0x100 && Pow256(2) == 0x1_0000 && Pow256(4) == 0x1_0000_0000
    ensures Pow256(8) == 0x1_0000_0000_0000_0000
  {
    assert Pow256(3) == 0x100_0000 && Pow256(4) == 0x1_0000_0000;
    assert Pow256(5) == 0x100_0000_0000 && Pow256(6) == 0x1_0000_0000_0000;
    assert Pow256(7) == 0x100_0000_0000_0000;
  }

  /** The `n` low bytes of `v`, lowest first: a cast to an `n`-byte integer, then its bytes. */
  function ToLe(v: nat, n: nat): (r: seq<byte>)
    ensures |r| == n
  {
    if n == 0 then [] else [v % 256] + ToLe(v / 256, n - 1)
  }

  function FromLe(b: seq<byte>): (r: nat)
    ensures r < Pow256(|b|)
  {
    if b == [] then 0 else b[0] + 256 * FromLe(b[1..])
  }

  lemma {:induction false} LeRoundTrip(v: nat, n: nat)
    requires v < Pow256(n)
    ensures FromLe(ToLe(v, n)) == v
  {
    if n == 0 {
    } else {
      assert ToLe(v, n)[1..] == ToLe(v / 256, n - 1);
      LeRoundTrip(v / 256, n - 1);
    }
  }

  lemma SplitByte(low: byte, rest: nat)
    ensures (low + 256 * rest) % 256 == low && (low + 256 * rest) / 256 == rest
  {
  }

  lemma {:induction false} LeBytesRoundTrip(b: seq<byte>)
    ensures ToLe(FromLe(b), |b|) == b
  {
    if b == [] {
    } else {
      LeBytesRoundTrip(b[1..]);
      SplitByte(b[0], FromLe(b[1..]));
      assert b == [b[0]] + b[1..];
    }
  }

  lemma ModStep(v: nat, m: nat)
    requires m >= 1
    ensures v % 256 + 256 * (v / 256 % m) == v % (256 * m)
  {
    var q := v / 256 / m;
    var r := v % 256 + 256 * (v / 256 % m);
    assert v / 256 == m * q + v / 256 % m;
    assert v == 256 * (v / 256) + v % 256;
    assert v == (256 * m) * q + r by { assert 256 * (m * q) == (256 * m) * q; }
    assert 0 <= r < 256 * m;
    ModUnique(v, 256 * m, q, r);
  }

  /** What is left of a value cast to `n` bytes. */
  lemma {:induction false} LeMod(v: nat, n: nat)
    ensures FromLe(ToLe(v, n)) == v % Pow256(n)
  {
    if n == 0 {
    } else {
      assert ToLe(v, n)[1..] == ToLe(v / 256, n - 1);
      LeMod(v / 256, n - 1);
      ModStep(v, Pow256(n - 1));
    }
  }

  /** The `n`-byte integer at offset `off`. */
  function ReadLe(b: seq<byte>, off: nat, n: nat): nat
    requires off + n <= |b|
  {
    FromLe(b[off..off + n])
  }

  /** Reading at the end of a prefix reads the start of what follows it. */
  lemma ReadAfter(prefix: seq<byte>, v: nat, n: nat, rest: seq<byte>)
    requires v < Pow256(n)
    ensures ReadLe(prefix + ToLe(v, n) + rest, |prefix|, n) == v
  {
    var all := prefix + ToLe(v, n) + rest;
    assert all[|prefix|..|prefix| + n] == ToLe(v, n);
    LeRoundTrip(v, n);
  }

  /** Writes `data` into the buffer at `off`. */
  method WriteBytes(out: array<byte>, off: nat, data: seq<byte>)
    requires off + |data| <= out.Length
    modifies out
    ensures out[..] == old(out[..off]) + data + old(out[off + |data|..])
  {
    for k := 0 to |data|
      invariant forall j :: 0 <= j < out.Length ==>
        out[j] == if off <= j < off + k then data[j - off] else old(out[j])
    {
      out[off + k] := data[k];
    }
  }
}

// Machine integers, big-endian field codecs, literal byte strings and the
// small search helpers (`starts_with`, `memmem::find`) the ELF code uses.
module Bytes {
  import opened Wrappers

  type u8 = x: int | 0 <= x < 0x100
  type u16 = x: int | 0 <= x < 0x1_0000
  type u32 = x: int | 0 <= x < 0x1_0000_0000
  /** An i32 value, as used by the Pointer arithmetic helpers. */
  type i32 = x: int | -0x8000_0000 <= x < 0x8000_0000

  type Bytes = seq<u8>

  const U32_MAX: int := 0xFFFF_FFFF
  const I32_MAX: int := 0x7FFF_FFFF

  /** A Dafny string literal (ASCII only in this model) as its bytes. */
  function Str(s: string): (r: Bytes)
    ensures |r| == |s|
  {
    seq(|s|, i requires 0 <= i < |s| => (s[i] as int) % 0x100)
  }

  function Zeros(n: nat): (r: Bytes)
    ensures |r| == n && forall i :: 0 <= i < n ==> r[i] == 0
  {
    seq(n, _ => 0)
  }

  /** `x as u32`: Rust's truncating cast from a wider unsigned integer. */
  function TruncU32(x: nat): u32 { x % 0x1_0000_0000 }

  /** `as u32` keeps a value that fits. */
  lemma TruncU32Small(x: nat)
    requires x < 0x1_0000_0000
    ensures TruncU32(x) == x
  {
  }

  function U16ToBE(x: u16): (r: Bytes)
    ensures |r| == 2
  {
    [x / 0x100, x % 0x100]
  }

  function BEToU16(b: Bytes): u16
    requires |b| == 2
  {
    (b[0] as int) * 0x100 + b[1]
  }

  function U32ToBE(x: u32): (r: Bytes)
    ensures |r| == 4
  {
    var lo := x % 0x1_0000;
    var hi := x / 0x1_0000;
    U16ToBE(hi) + U16ToBE(lo)
  }

  function BEToU32(b: Bytes): u32
    requires |b| == 4
  {
    BEToU16(b[..2]) * 0x1_0000 + BEToU16(b[2..])
  }

  lemma U16RoundTrip(x: u16)
    ensures BEToU16(U16ToBE(x)) == x
  {
  }

  lemma U16BytesRoundTrip(b: Bytes)
    requires |b| == 2
    ensures U16ToBE(BEToU16(b)) == b
  {
  }

  lemma U32RoundTrip(x: u32)
    ensures BEToU32(U32ToBE(x)) == x
  {
  }

  lemma U32BytesRoundTrip(b: Bytes)
    requires |b| == 4
    ensures U32ToBE(BEToU32(b)) == b
  {
    U16BytesRoundTrip(b[..2]);
    U16BytesRoundTrip(b[2..]);
    assert b == b[..2] + b[2..];
  }

  /** A big-endian u32 is zero exactly when all four bytes are. */
  lemma U32ZeroIff(b: Bytes)
    requires |b| == 4
    ensures BEToU32(b) == 0 <==> b == Zeros(4)
  {
  }

  /** Number of zero bytes vivibin's `align_to(writer, n)` emits at position
      `pos`: up to the next multiple of `n`; 0 and 1 mean no alignment. */
  function Padding(pos: nat, align: nat): (r: nat)
    ensures align <= 1 ==> r == 0
    ensures align > 1 ==> r < align && (pos + r) % align == 0
  {
    if align <= 1 || pos % align == 0 then 0
    else
      var r := align - pos % align;
      NextMultiple(pos, align);
      r
  }

  lemma NextMultiple(pos: nat, align: nat)
    requires align > 1 && pos % align != 0
    ensures (pos + (align - pos % align)) % align == 0
  {
    var q, m := pos / align, pos % align;
    assert pos + (align - m) == (q + 1) * align;
    MultipleMod(q + 1, align);
  }

  lemma MultipleMod(k: nat, n: nat)
    requires n > 0
    ensures (k * n) % n == 0
  {
    var y := k * n;
    var a, b := y / n, y % n;
    assert y == a * n + b;
    assert (k - a) * n == b;
    if k - a >= 1 { MulAtLeast(k - a, n); }
    else if k - a <= -1 { MulAtMost(k - a, n); }
  }

  /** Record `k` of a buffer cut into `len / size` records lies inside it. */
  lemma RecordWithin(len: nat, size: nat, k: nat)
    requires size > 0 && k < len / size
    ensures size * k + size <= len && size * (k + 1) == size * k + size
  {
    var q, d := len / size, len / size - (k + 1);
    assert len == size * q + len % size;
    assert size * q == size * (k + 1) + size * d;
  }

  lemma MulAtLeast(c: int, n: nat)
    requires c >= 1
    ensures c * n >= n
  {
  }

  lemma MulAtMost(c: int, n: nat)
    requires c <= -1
    ensures c * n <= 0 - (n as int)
  {
  }

  /** `x | 0x7000_0000` on a u32. */
  function OrDebugMark(x: u32): (r: u32)
  {
    ((x as bv32) | 0x7000_0000) as int
  }

  predicate StartsWith(s: Bytes, prefix: Bytes) {
    |prefix| <= |s| && s[..|prefix|] == prefix
  }

  /** A prefix of a prefix is a prefix. */
  lemma StartsWithTrans(s: Bytes, mid: Bytes, prefix: Bytes)
    requires StartsWith(s, mid) && StartsWith(mid, prefix)
    ensures StartsWith(s, prefix)
  {
    assert s[..|prefix|] == s[..|mid|][..|prefix|];
  }

  /** `memmem::find`: the index of the first occurrence of `needle`; an empty
      needle is found at 0. */
  /** `needle` occurs in `haystack` starting at index `j`. */
  predicate OccursAt(haystack: Bytes, needle: Bytes, j: nat) {
    j + |needle| <= |haystack| && haystack[j..j + |needle|] == needle
  }

  function Find(haystack: Bytes, needle: Bytes): (r: Option<nat>)
    ensures r.Some? ==> OccursAt(haystack, needle, r.value)
    ensures r.Some? ==> forall j: nat :: j < r.value ==> !OccursAt(haystack, needle, j)
    ensures r.None? ==> forall j: nat :: !OccursAt(haystack, needle, j)
    decreases |haystack|
  {
    if |needle| > |haystack| then None
    else if haystack[..|needle|] == needle then Some(0)
    else
      var tail := haystack[1..];
      assert forall j: nat :: OccursAt(haystack, needle, j + 1) <==> OccursAt(tail, needle, j) by {
        forall j: nat ensures OccursAt(haystack, needle, j + 1) <==> OccursAt(tail, needle, j) {
          if j + 1 + |needle| <= |haystack| {
            assert haystack[j + 1..j + 1 + |needle|] == tail[j..j + |needle|];
          }
        }
      }
      match Find(tail, needle)
      case None =>
        assert forall j: nat :: !OccursAt(haystack, needle, j) by {
          forall j: nat ensures !OccursAt(haystack, needle, j) {
            if j > 0 { assert !OccursAt(tail, needle, j - 1); }
          }
        }
        None
      case Some(k) =>
        assert forall j: nat :: j < k + 1 ==> !OccursAt(haystack, needle, j) by {
          forall j: nat | j < k + 1 ensures !OccursAt(haystack, needle, j) {
            if j > 0 { assert !OccursAt(tail, needle, j - 1); }
          }
        }
        Some(k + 1)
  }
}

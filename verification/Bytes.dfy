/** Bytes, 32-bit counters and the arithmetic of offsets split into blocks. */
module Bytes {

  type byte = x: int | 0 <= x < 256

  const U32: nat := 0x1_0000_0000

  function Zeros(n: nat): (z: seq<byte>)
    ensures |z| == n && forall i | 0 <= i < n :: z[i] == 0
  {
    seq(n, _ => 0)
  }

  function Min(a: nat, b: nat): nat { if a < b then a else b }

  function Max(a: nat, b: nat): nat { if a < b then b else a }

  /** A capacity doubled until `n` fits. */
  function Doubled(cap: nat, n: nat): (r: nat)
    requires cap > 0
    ensures r >= cap && r >= n
    decreases n - cap
  {
    if cap < n then Doubled(cap * 2, n) else cap
  }

  /** Writing `data` at `off` of a byte array; a gap past the old end is zero. */
  function WriteBytes(f: seq<byte>, off: nat, data: seq<byte>): (f': seq<byte>) {
    seq<byte>(Max(|f|, off + |data|), p requires p >= 0 =>
      if off <= p < off + |data| then data[p - off] else if p < |f| then f[p] else 0)
  }

  /** `x` replaces the bytes of `d` from `at` on. */
  function Splice(d: seq<byte>, at: nat, x: seq<byte>): (r: seq<byte>)
    requires at + |x| <= |d|
    ensures |r| == |d|
  {
    d[..at] + x + d[at + |x|..]
  }

  lemma SpliceAt(d: seq<byte>, at: nat, x: seq<byte>)
    requires at + |x| <= |d|
    ensures forall k | 0 <= k < |d| :: Splice(d, at, x)[k] == if at <= k < at + |x| then x[k - at] else d[k]
  {
  }

  lemma SliceAfter(d: seq<byte>, at: nat, x: seq<byte>, lo: nat)
    requires at + |x| <= |d| && lo + |x| <= |d|
    ensures lo == at ==> Splice(d, at, x)[lo..lo + |x|] == x
    ensures lo + |x| <= at || at + |x| <= lo ==> Splice(d, at, x)[lo..lo + |x|] == d[lo..lo + |x|]
  {
  }

  /** Little-endian 32-bit numbers. */
  function Le32(d: seq<byte>, at: nat): (v: nat)
    requires at + 4 <= |d|
    ensures v < U32
  {
    d[at] as int + 0x100 * (d[at + 1] as int) + 0x1_0000 * (d[at + 2] as int) + 0x100_0000 * (d[at + 3] as int)
  }

  function Le32Bytes(v: nat): (s: seq<byte>)
    requires v < U32
    ensures |s| == 4
  {
    [v % 0x100, v / 0x100 % 0x100, v / 0x1_0000 % 0x100, v / 0x100_0000]
  }

  lemma Le32RoundTrip(v: nat)
    requires v < U32
    ensures Le32(Le32Bytes(v), 0) == v
  {
    var a := v / 0x100;
    var c := a / 0x100;
    assert v / 0x1_0000 == c && v / 0x100_0000 == c / 0x100;
    assert v == v % 0x100 + 0x100 * a && a == a % 0x100 + 0x100 * c && c == c % 0x100 + 0x100 * (c / 0x100);
  }

  lemma Le32Same(d: seq<byte>, at: nat, e: seq<byte>, at': nat)
    requires at + 4 <= |d| && at' + 4 <= |e| && d[at..at + 4] == e[at'..at' + 4]
    ensures Le32(d, at) == Le32(e, at')
  {
    var x := d[at..at + 4];
    assert d[at] == x[0] == e[at'] && d[at + 1] == x[1] == e[at' + 1];
    assert d[at + 2] == x[2] == e[at' + 2] && d[at + 3] == x[3] == e[at' + 3];
  }

  /** A part of a part. */
  lemma Within(a: seq<byte>, off: nat, h: seq<byte>, i: nat, j: nat)
    requires off + |h| <= |a| && a[off..off + |h|] == h && i <= j <= |h|
    ensures a[off + i..off + j] == h[i..j]
  {
    forall k | 0 <= k < j - i
      ensures a[off + i..off + j][k] == h[i..j][k]
    {
      assert a[off..off + |h|][i + k] == h[i + k];
    }
  }

  lemma Assoc(a: nat, b: nat, c: nat)
    ensures a * (b * c) == a * b * c
  {
  }

  lemma MulLe(a: nat, b: nat, d: nat)
    requires a <= b
    ensures a * d <= b * d
  {
  }

  lemma MulMono(a: nat, b: nat, d: nat)
    ensures a <= b ==> a * d <= b * d
  {
  }

  lemma DivMod(q: nat, r: nat, d: nat)
    requires r < d
    ensures (q * d + r) / d == q && (q * d + r) % d == r
  {
    var k := (q * d + r) / d;
    MulMono(k + 1, q, d);
    MulMono(q + 1, k, d);
  }

  lemma MulDiv(x: nat, d: nat, n: nat)
    requires d > 0 && x < n * d
    ensures x / d < n && x == x / d * d + x % d
  {
    MulMono(n, x / d, d);
  }
}

/** The on-disk structures of ext2 that block allocation works on: pointer blocks and block bitmaps, as bytes. */
module Ext2Disk {
  import opened Bytes

  type Block = seq<byte>

  /** Pointers in a block are 32-bit little-endian numbers. */
  function Ptr(b: Block, j: nat): (v: nat)
    requires 4 * j + 4 <= |b|
    ensures v < U32
  {
    Le32(b, 4 * j)
  }

  function SetPtr(b: Block, j: nat, v: nat): (r: Block)
    requires 4 * j + 4 <= |b| && v < U32
    ensures |r| == |b|
  {
    Splice(b, 4 * j, Le32Bytes(v))
  }

  lemma PtrSetPtr(b: Block, j: nat, v: nat, i: nat)
    requires 4 * j + 4 <= |b| && 4 * i + 4 <= |b| && v < U32
    ensures Ptr(SetPtr(b, j, v), i) == if i == j then v else Ptr(b, i)
  {
    hide Le32, Le32Bytes;
    var x := Le32Bytes(v);
    SliceAfter(b, 4 * j, x, 4 * i);
    assert x[0..4] == x;
    if i == j {
      Le32Same(SetPtr(b, j, v), 4 * j, Le32Bytes(v), 0);
      Le32RoundTrip(v);
    } else {
      Le32Same(SetPtr(b, j, v), 4 * i, b, 4 * i);
    }
  }

  function Pow2(i: nat): (p: nat)
    ensures p > 0
  {
    if i == 0 then 1 else 2 * Pow2(i - 1)
  }

  /** Bit `i` of a number, by shifting. */
  predicate BitOf(x: nat, i: nat) {
    if i == 0 then x % 2 == 1 else BitOf(x / 2, i - 1)
  }

  lemma Halve(x: nat, i: nat)
    requires i > 0
    ensures (x + Pow2(i)) / 2 == x / 2 + Pow2(i - 1) && (x + Pow2(i)) % 2 == x % 2
  {
  }

  /** Adding 2^i to a number whose bit `i` is clear sets that bit and no other ... */
  lemma {:induction false} SetBitOf(x: nat, i: nat, j: nat)
    requires !BitOf(x, i)
    ensures BitOf(x + Pow2(i), j) <==> j == i || BitOf(x, j)
  {
    if i == 0 {
      assert Pow2(0) == 1 && x % 2 == 0 && (x + 1) / 2 == x / 2 && (x + 1) % 2 == 1;
    } else {
      Halve(x, i);
      if j > 0 {
        SetBitOf(x / 2, i - 1, j - 1);
      }
    }
  }

  /** ... and does not carry out of the byte. */
  lemma {:induction false} SetBitFits(x: nat, i: nat, n: nat)
    requires !BitOf(x, i) && i < n && x < Pow2(n)
    ensures x + Pow2(i) < Pow2(n)
  {
    var half := Pow2(n - 1);
    assert Pow2(n) == 2 * half;
    if i == 0 {
      EvenFits(x, half);
    } else {
      HalfFits(x, half);
      SetBitFits(x / 2, i - 1, n - 1);
      DoubleFits(x, Pow2(i - 1), half);
    }
  }

  lemma EvenFits(x: nat, half: nat)
    requires x % 2 == 0 && x < 2 * half
    ensures x + 1 < 2 * half
  {
  }

  lemma HalfFits(x: nat, half: nat)
    requires x < 2 * half
    ensures x / 2 < half
  {
  }

  lemma DoubleFits(x: nat, p: nat, half: nat)
    requires x / 2 + p < half
    ensures x + 2 * p < 2 * half
  {
  }

  predicate Bit(b: Block, k: nat)
    requires k < 8 * |b|
  {
    BitOf(b[k / 8], k % 8)
  }

  function SetBit(b: Block, k: nat): (r: Block)
    requires k < 8 * |b| && !Bit(b, k)
    ensures |r| == |b|
  {
    assert Pow2(8) == 256;
    SetBitFits(b[k / 8], k % 8, 8);
    b[k / 8 := b[k / 8] as int + Pow2(k % 8)]
  }

  lemma BitSetBit(b: Block, k: nat, j: nat)
    requires k < 8 * |b| && j < 8 * |b| && !Bit(b, k)
    ensures Bit(SetBit(b, k), j) <==> j == k || Bit(b, j)
  {
    assert Pow2(8) == 256;
    SetBitFits(b[k / 8], k % 8, 8);
    SetBitOf(b[k / 8], k % 8, j % 8);
  }

  /** Bit `8 * i + j` of a bitmap is the one of weight 2^j in byte `i`. */
  lemma BitWeight(b: Block, i: nat, j: nat)
    requires i < |b| && j < 8
    ensures Bit(b, 8 * i + j) <==> b[i] as int / Pow2(j) % 2 == 1
  {
    assert (8 * i + j) / 8 == i && (8 * i + j) % 8 == j;
    ByWeight(b[i], j);
  }

  lemma {:induction false} ByWeight(x: nat, j: nat)
    ensures BitOf(x, j) <==> x / Pow2(j) % 2 == 1
  {
    if j > 0 {
      ByWeight(x / 2, j - 1);
      HalfDiv(x, Pow2(j - 1));
    }
  }

  lemma HalfDiv(x: nat, p: nat)
    requires p > 0
    ensures x / (2 * p) == x / 2 / p
  {
    var h := x / 2;
    var q, r := h / p, h % p;
    assert h == q * p + r;
    Twice(q, p);
    DivMod(q, 2 * r + x % 2, 2 * p);
  }

  lemma Twice(q: nat, p: nat)
    ensures q * (2 * p) == 2 * (q * p)
  {
  }

  /** How many of the first `n` bits are set. */
  function SetBits(b: Block, n: nat): (c: nat)
    requires n <= 8 * |b|
    ensures c <= n
  {
    if n == 0 then 0 else SetBits(b, n - 1) + (if Bit(b, n - 1) then 1 else 0)
  }

  lemma {:induction false} SetBitsGrows(b: Block, k: nat, n: nat)
    requires k < 8 * |b| && n <= 8 * |b| && !Bit(b, k)
    ensures SetBits(SetBit(b, k), n) == SetBits(b, n) + (if k < n then 1 else 0)
  {
    if n > 0 {
      BitSetBit(b, k, n - 1);
      SetBitsGrows(b, k, n - 1);
    }
  }

  lemma {:induction false} AllSet(b: Block, n: nat)
    requires n <= 8 * |b| && forall k | 0 <= k < n :: Bit(b, k)
    ensures SetBits(b, n) == n
  {
    if n > 0 {
      AllSet(b, n - 1);
    }
  }
}

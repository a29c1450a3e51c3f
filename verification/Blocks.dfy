/** Disk blocks as bytes: little-endian 32-bit words (the entries of an indirect
    block, fs.c:395-397) and the free-block bitmap (fs.c:64-103). */
module Blocks {
  import opened Basics

  const BSIZE: nat := 1024
  /** Bitmap bits per block. */
  const BPB: nat := 8192
  const NDIRECT: nat := 12
  const NINDIRECT: nat := 256
  const MAXFILE: nat := 268

  type Block = b: seq<Byte> | |b| == BSIZE witness seq(BSIZE, _ => 0)

  function Zeroed(): Block {
    seq(BSIZE, _ => 0)
  }

  // ------------------------------------------------------------ words

  function Word(b: Block, j: nat): nat
    requires j < NINDIRECT
  {
    b[4 * j] as int + 0x100 * (b[4 * j + 1] as int) + 0x1_0000 * (b[4 * j + 2] as int)
      + 0x100_0000 * (b[4 * j + 3] as int)
  }

  function SetWord(b: Block, j: nat, v: nat): Block
    requires j < NINDIRECT && v < TWO32
  {
    b[4 * j := v % 0x100][4 * j + 1 := v / 0x100 % 0x100]
     [4 * j + 2 := v / 0x1_0000 % 0x100][4 * j + 3 := v / 0x100_0000]
  }

  lemma WordAfterSet(b: Block, j: nat, v: nat, k: nat)
    requires j < NINDIRECT && k < NINDIRECT && v < TWO32
    ensures Word(SetWord(b, j, v), k) == if j == k then v else Word(b, k)
  {
    var r := SetWord(b, j, v);
    if j == k {
      assert r[4 * j] == v % 0x100 && r[4 * j + 1] == v / 0x100 % 0x100;
      assert r[4 * j + 2] == v / 0x1_0000 % 0x100 && r[4 * j + 3] == v / 0x100_0000;
      BytesOfWord(v);
    } else {
      assert r[4 * k] == b[4 * k] && r[4 * k + 1] == b[4 * k + 1];
      assert r[4 * k + 2] == b[4 * k + 2] && r[4 * k + 3] == b[4 * k + 3];
    }
  }

  lemma BytesOfWord(v: nat)
    ensures v == v % 0x100 + 0x100 * (v / 0x100 % 0x100) + 0x1_0000 * (v / 0x1_0000 % 0x100)
                 + 0x100_0000 * (v / 0x100_0000)
  {
    assert v / 0x1_0000 == v / 0x100 / 0x100 && v / 0x100_0000 == v / 0x1_0000 / 0x100;
  }

  // ------------------------------------------------------------ bits

  function Pow2(k: nat): nat {
    if k == 0 then 1 else 2 * Pow2(k - 1)
  }

  /** x & (1 << k). */
  predicate BitOf(x: nat, k: nat) {
    if k == 0 then x % 2 == 1 else BitOf(x / 2, k - 1)
  }

  /** x |= 1 << k, for a clear bit k, and x &= ~(1 << k), for a set one. */
  function WithBit(x: Byte, k: nat): Byte
    requires k < 8 && !BitOf(x, k)
  {
    SetBitInRange(x, k, 8);
    x + Pow2(k)
  }

  function WithoutBit(x: Byte, k: nat): Byte
    requires k < 8 && BitOf(x, k)
  {
    ClearBitInRange(x, k);
    x - Pow2(k)
  }

  lemma {:induction false} SetBitInRange(x: nat, k: nat, n: nat)
    requires k < n && x < Pow2(n) && !BitOf(x, k)
    ensures x + Pow2(k) < Pow2(n) && Pow2(8) == 256
  {
    if k > 0 { SetBitInRange(x / 2, k - 1, n - 1); }
    assert Pow2(8) == 2 * 2 * 2 * 2 * Pow2(4) && Pow2(4) == 16;
  }

  lemma {:induction false} ClearBitInRange(x: nat, k: nat)
    requires BitOf(x, k)
    ensures 0 <= x - Pow2(k)
  {
    if k > 0 { ClearBitInRange(x / 2, k - 1); }
  }

  /** Setting bit k changes that bit only. */
  lemma {:induction false} SetBits(x: nat, k: nat, j: nat)
    requires !BitOf(x, k)
    ensures BitOf(x + Pow2(k), j) <==> j == k || BitOf(x, j)
  {
    if k == 0 {
      assert (x + 1) / 2 == x / 2 && (x + 1) % 2 == 1;
    } else {
      var p := Pow2(k - 1);
      assert (x + 2 * p) / 2 == x / 2 + p && (x + 2 * p) % 2 == x % 2;
      if j > 0 { SetBits(x / 2, k - 1, j - 1); }
    }
  }

  lemma {:induction false} ClearedBit(x: nat, k: nat)
    requires BitOf(x, k) && x >= Pow2(k)
    ensures !BitOf(x - Pow2(k), k)
  {
    if k > 0 {
      var p := Pow2(k - 1);
      ClearBitInRange(x / 2, k - 1);
      ClearedBit(x / 2, k - 1);
      assert (x - 2 * p) / 2 == x / 2 - p;
    }
  }

  lemma WithBitBits(x: Byte, k: nat, j: nat)
    requires k < 8 && j < 8 && !BitOf(x, k)
    ensures BitOf(WithBit(x, k), j) <==> j == k || BitOf(x, j)
  {
    SetBits(x, k, j);
  }

  lemma WithoutBitBits(x: Byte, k: nat, j: nat)
    requires k < 8 && j < 8 && BitOf(x, k)
    ensures BitOf(WithoutBit(x, k), j) <==> j != k && BitOf(x, j)
  {
    ClearBitInRange(x, k);
    ClearedBit(x, k);
    SetBits(x - Pow2(k), k, j);
  }
}

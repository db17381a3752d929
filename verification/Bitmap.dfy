/** Bits of a bitmap block: kernel/fs.c tests `data[bi/8] & (1 << (bi%8))`, sets with |= and clears with &= ~. */
module Bitmap {
  import opened Ints
  import opened Blocks

  const BPB: nat := 4096

  function Pow2(k: nat): (p: nat)
    ensures p > 0
  {
    if k == 0 then 1 else 2 * Pow2(k - 1)
  }

  predicate TestBit(x: nat, k: nat) {
    if k == 0 then x % 2 == 1 else TestBit(x / 2, k - 1)
  }

  /** Or-ing a clear bit in adds its weight and changes no other bit. */
  lemma SetBit(x: nat, k: nat, j: nat)
    requires !TestBit(x, k)
    ensures TestBit(x + Pow2(k), j) <==> j == k || TestBit(x, j)
  {
    if k > 0 {
      assert (x + Pow2(k)) / 2 == x / 2 + Pow2(k - 1);
      if j > 0 {
        SetBit(x / 2, k - 1, j - 1);
      }
    }
  }

  lemma SetBitBound(x: nat, k: nat, n: nat)
    requires !TestBit(x, k) && k < n && x < Pow2(n)
    ensures x + Pow2(k) < Pow2(n)
  {
    if k > 0 {
      SetBitBound(x / 2, k - 1, n - 1);
    }
  }

  /** Masking a set bit out subtracts its weight. */
  lemma ClearBit(x: nat, k: nat)
    requires TestBit(x, k)
    ensures x >= Pow2(k) && !TestBit(x - Pow2(k), k)
  {
    if k > 0 {
      ClearBit(x / 2, k - 1);
      assert (x - Pow2(k)) / 2 == x / 2 - Pow2(k - 1);
    }
  }

  predicate BitOf(b: Block, bi: nat)
    requires bi < BPB
  {
    TestBit(At(b, bi / 8), bi % 8)
  }

  function WithBit(b: Block, bi: nat): Block
    requires bi < BPB && !BitOf(b, bi)
  {
    SetBitBound(At(b, bi / 8), bi % 8, 8);
    assert Pow2(8) == 256;
    Block(b.bytes[bi / 8 := At(b, bi / 8) + Pow2(bi % 8)])
  }

  function WithoutBit(b: Block, bi: nat): Block
    requires bi < BPB && BitOf(b, bi)
  {
    ClearBit(At(b, bi / 8), bi % 8);
    Block(b.bytes[bi / 8 := At(b, bi / 8) - Pow2(bi % 8)])
  }

  lemma BitOfWithBit(b: Block, bi: nat, j: nat)
    requires bi < BPB && j < BPB && !BitOf(b, bi)
    ensures BitOf(WithBit(b, bi), j) <==> j == bi || BitOf(b, j)
  {
    SetBit(At(b, bi / 8), bi % 8, j % 8);
  }

  lemma BitOfWithoutBit(b: Block, bi: nat, j: nat)
    requires bi < BPB && j < BPB && BitOf(b, bi)
    ensures BitOf(WithoutBit(b, bi), j) <==> j != bi && BitOf(b, j)
  {
    var x := At(b, bi / 8);
    ClearBit(x, bi % 8);
    SetBit(x - Pow2(bi % 8), bi % 8, j % 8);
  }
}

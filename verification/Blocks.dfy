/** Disk blocks as bytes, and the little-endian words and bitmap bits the kernel reads out of them. */
module Blocks {
  import opened Ints

  const BSIZE: nat := 512
  const NWORDS: nat := 128

  type Bytes = s: seq<Byte> | |s| == BSIZE witness seq(BSIZE, _ => 0)
  datatype Block = Block(bytes: Bytes)
  type Disk = seq<Block>

  function Zeroes(): Block {
    Block(seq(BSIZE, _ => 0))
  }

  function At(b: Block, i: nat): (x: int)
    requires i < BSIZE
    ensures 0 <= x < 256
  {
    b.bytes[i]
  }

  /** The uint at word index i, as a cast of the block's data to `uint*` reads it. */
  function Word(b: Block, i: nat): Uint
    requires i < NWORDS
  {
    At(b, 4 * i) + 0x100 * At(b, 4 * i + 1) + 0x1_0000 * At(b, 4 * i + 2) + 0x100_0000 * At(b, 4 * i + 3)
  }

  function PutWord(b: Block, i: nat, w: Uint): Block
    requires i < NWORDS
  {
    Block(b.bytes[4 * i := w % 0x100][4 * i + 1 := w / 0x100 % 0x100][4 * i + 2 := w / 0x1_0000 % 0x100][4 * i +
      3 := w / 0x100_0000])
  }

  /** Storing a word and reading a word back: the stored value at its own index, the old one elsewhere. */
  lemma WordPutWord(b: Block, i: nat, w: Uint, j: nat)
    requires i < NWORDS && j < NWORDS
    ensures Word(PutWord(b, i, w), j) == if i == j then w else Word(b, j)
  {
    var c := PutWord(b, i, w);
    if i == j {
      SplitWord(w);
    }
  }

  lemma SplitWord(w: Uint)
    ensures w == w % 0x100 + 0x100 * (w / 0x100 % 0x100) + 0x1_0000 * (w / 0x1_0000 % 0x100) +
      0x100_0000 * (w / 0x100_0000)
  {
    assert w / 0x1_0000 == (w / 0x100) / 0x100;
    assert w / 0x100_0000 == (w / 0x1_0000) / 0x100;
  }

  lemma WordOfZeroes(j: nat)
    requires j < NWORDS
    ensures Word(Zeroes(), j) == 0
  {
  }
}

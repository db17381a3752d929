/** On-disk layout (kernel/include/fs.h): superblock, inode blocks, bitmap blocks, data, log. */
module Layout {
  import opened Ints
  import opened Blocks
  import opened Bitmap

  const IPB: nat := 8        // BSIZE / sizeof(struct dinode)
  const NDIRECT: nat := 12
  const NINDIRECT: nat := NWORDS
  const MAXFILE: nat := NDIRECT + NINDIRECT
  const T_DEV: nat := 3

  datatype Super = Super(size: nat, nblocks: nat, ninodes: nat, nlog: nat)

  function IBlock(i: nat): nat {
    i / IPB + 2
  }

  function BBlock(b: nat, ninodes: nat): nat {
    b / BPB + ninodes / IPB + 3
  }

  /** The first data block; everything below it is boot block, superblock, inodes and bitmap. */
  function FirstData(sb: Super): nat {
    sb.ninodes / IPB + 3 + sb.size / BPB + 1
  }

  function LogStart(sb: Super): int {
    sb.size - sb.nlog
  }

  /** The layout mkfs asserts: metadata, data and log fill the image. */
  predicate Sane(sb: Super, v: Disk) {
    && FirstData(sb) <= LogStart(sb) <= sb.size <= |v|
    && sb.size < UINT && sb.ninodes < UINT
  }

  /** The in-memory inode; shorts are kept as their 16-bit patterns. */
  datatype Inode = Inode(typ: Short, major: Short, minor: Short, nlink: Short, size: Uint, addrs: Addrs)
  type Short = x: int | 0 <= x < 0x1_0000
  type Addrs = s: seq<Uint> | |s| == NDIRECT + 1 witness seq(NDIRECT + 1, _ => 0)

  const FREE_INODE: Inode := Inode(0, 0, 0, 0, 0, seq(NDIRECT + 1, _ => 0))

  // ---- struct dinode: sixteen words ----

  function InodeWord(ip: Inode, w: nat): Uint
    requires w < 16
  {
    if w == 0 then ip.typ + 0x1_0000 * (ip.major as int)
    else if w == 1 then ip.minor + 0x1_0000 * (ip.nlink as int)
    else if w == 2 then ip.size
    else ip.addrs[w - 3]
  }

  /** The first n words of dinode slot i of a block overwritten, as iupdate's assignments do. */
  function PutDinodeWords(b: Block, i: nat, ip: Inode, n: nat): Block
    requires i < IPB && n <= 16
  {
    if n == 0 then b else PutWord(PutDinodeWords(b, i, ip, n - 1), 16 * i + n - 1, InodeWord(ip, n - 1))
  }

  function PutDinode(b: Block, i: nat, ip: Inode): Block
    requires i < IPB
  {
    PutDinodeWords(b, i, ip, 16)
  }

  function Words(b: Block, from: nat, n: nat): (q: seq<Uint>)
    requires from + n <= NWORDS
    ensures |q| == n && forall w :: 0 <= w < n ==> q[w] == Word(b, from + w)
  {
    if n == 0 then [] else Words(b, from, n - 1) + [Word(b, from + n - 1)]
  }

  /** The inode ilock reads out of dinode slot i. */
  function GetDinode(b: Block, i: nat): Inode
    requires i < IPB
  {
    Inode(Word(b, 16 * i) % 0x1_0000, Word(b, 16 * i) / 0x1_0000, Word(b, 16 * i + 1) % 0x1_0000,
      Word(b, 16 * i + 1) / 0x1_0000,
          Word(b, 16 * i + 2), Words(b, 16 * i + 3, NDIRECT + 1))
  }

  lemma DinodeWord(b: Block, i: nat, ip: Inode, n: nat, j: nat)
    requires i < IPB && n <= 16 && j < NWORDS
    ensures Word(PutDinodeWords(b, i, ip, n), j) == if 16 * i <= j < 16 * i + n then InodeWord(ip, j - 16 * i)
      else Word(b, j)
  {
    if n > 0 {
      DinodeWord(b, i, ip, n - 1, j);
      WordPutWord(PutDinodeWords(b, i, ip, n - 1), 16 * i + n - 1, InodeWord(ip, n - 1), j);
    }
  }

  /** ilock reads back what iupdate wrote, and the block's other inodes are untouched. */
  lemma DinodeRoundTrip(b: Block, i: nat, ip: Inode, j: nat)
    requires i < IPB && j < IPB
    ensures GetDinode(PutDinode(b, i, ip), j) == if i == j then ip else GetDinode(b, j)
  {
    hide PutDinodeWords, Word, Words;
    var c := PutDinode(b, i, ip);
    DinodeWord(b, i, ip, 16, 16 * j);
    DinodeWord(b, i, ip, 16, 16 * j + 1);
    DinodeWord(b, i, ip, 16, 16 * j + 2);
    var was, now := Words(b, 16 * j + 3, NDIRECT + 1), Words(c, 16 * j + 3, NDIRECT + 1);
    forall w | 0 <= w < NDIRECT + 1
      ensures now[w] == if i == j then ip.addrs[w] else was[w]
    {
      DinodeWord(b, i, ip, 16, 16 * j + 3 + w);
    }
    assert now == if i == j then ip.addrs else was;
  }

  /** Where struct dinode has its fields: four shorts, a uint and thirteen uints, little-endian, 64 bytes to an
      inode. */
  lemma DinodeLayout(b: Block, i: nat, w: nat)
    requires i < 8 && w < 13
    ensures var ip, a := GetDinode(b, i), 64 * i;
      && ip.typ == At(b, a) + 0x100 * At(b, a + 1) && ip.major == At(b, a + 2) + 0x100 * At(b, a + 3)
      && ip.minor == At(b, a + 4) + 0x100 * At(b, a + 5) && ip.nlink == At(b, a + 6) + 0x100 * At(b, a + 7)
    ensures var ip, a, c := GetDinode(b, i), 64 * i + 8, 64 * i + 12 + 4 * w;
      && ip.size == At(b, a) + 0x100 * At(b, a + 1) + 0x1_0000 * At(b, a + 2) + 0x100_0000 * At(b, a + 3)
      && ip.addrs[w] == At(b, c) + 0x100 * At(b, c + 1) + 0x1_0000 * At(b, c + 2) + 0x100_0000 * At(b, c + 3)
  {
    hide At;
    Halves(At(b, 64 * i) + 0x100 * At(b, 64 * i + 1), At(b, 64 * i + 2) + 0x100 * At(b, 64 * i + 3));
    Halves(At(b, 64 * i + 4) + 0x100 * At(b, 64 * i + 5), At(b, 64 * i + 6) + 0x100 * At(b, 64 * i + 7));
  }

  lemma Halves(lo: nat, hi: nat)
    requires lo < 0x1_0000
    ensures (lo + 0x1_0000 * hi) % 0x1_0000 == lo && (lo + 0x1_0000 * hi) / 0x1_0000 == hi
  {
  }

  // ---- the bitmap ----

  predicate Bit(sb: Super, v: Disk, b: nat)
    requires Sane(sb, v) && b < sb.size
  {
    BitOf(v[BBlock(b, sb.ninodes)], b % BPB)
  }

  /** The bitmap marks exactly the metadata blocks and the blocks of `alloc`. */
  ghost predicate BitsAre(sb: Super, v: Disk, alloc: set<nat>) {
    && Sane(sb, v)
    && forall b :: 0 <= b < sb.size ==> (Bit(sb, v, b) <==> b < FirstData(sb) || b in alloc)
  }

  lemma BitmapIsMetadata(sb: Super, b: nat)
    requires b < sb.size
    ensures 2 < BBlock(b, sb.ninodes) < FirstData(sb)
    ensures sb.ninodes / IPB + 3 <= BBlock(b, sb.ninodes)
  {
  }

  lemma MarkBit(sb: Super, v: Disk, alloc: set<nat>, b: nat)
    requires BitsAre(sb, v, alloc) && b < sb.size && !Bit(sb, v, b)
    ensures var m := BBlock(b, sb.ninodes);
      BitsAre(sb, v[m := WithBit(v[m], b % BPB)], alloc + {b})
  {
    var m := BBlock(b, sb.ninodes);
    var u := v[m := WithBit(v[m], b % BPB)];
    forall c | 0 <= c < sb.size ensures Bit(sb, u, c) <==> c == b || Bit(sb, v, c) {
      BitOfWithBit(v[m], b % BPB, c % BPB);
    }
  }

  lemma UnmarkBit(sb: Super, v: Disk, alloc: set<nat>, b: nat)
    requires BitsAre(sb, v, alloc) && FirstData(sb) <= b < sb.size && Bit(sb, v, b)
    ensures var m := BBlock(b, sb.ninodes);
      BitsAre(sb, v[m := WithoutBit(v[m], b % BPB)], alloc - {b})
  {
    var m := BBlock(b, sb.ninodes);
    var u := v[m := WithoutBit(v[m], b % BPB)];
    forall c | 0 <= c < sb.size ensures Bit(sb, u, c) <==> c != b && Bit(sb, v, c) {
      BitOfWithoutBit(v[m], b % BPB, c % BPB);
    }
  }

  /** Writing a block outside the bitmap leaves the bitmap alone. */
  lemma BitsFrame(sb: Super, v: Disk, alloc: set<nat>, x: nat, blk: Block)
    requires BitsAre(sb, v, alloc) && x < |v| && (x < sb.ninodes / IPB + 3 || FirstData(sb) <= x)
    ensures BitsAre(sb, v[x := blk], alloc)
  {
    var u := v[x := blk];
    forall c | 0 <= c < sb.size ensures Bit(sb, u, c) <==> Bit(sb, v, c) {
      BitmapIsMetadata(sb, c);
      assert u[BBlock(c, sb.ninodes)] == v[BBlock(c, sb.ninodes)];
    }
  }
}

/** Building the initial image (mkfs/mkfs.c), in the kernel's own terms. */
module Mkfs {
  import opened Ints
  import opened Sets
  import opened Blocks
  import opened Bitmap
  import opened Layout
  import opened Ownership
  import opened Bio
  import opened Log
  import opened Fs
  import File
  import J = Journal
  import Path

  const ROOT := Path.ROOTINO
  const ENTRY: nat := 16               // sizeof(struct dirent)

  type Files = map<nat, seq<Byte>>

  /** File i holds exactly these bytes, and zeroes after them. */
  ghost predicate Stored(v: Disk, ip: Inode, bytes: seq<Byte>) {
    && ip.size == |bytes| <= MAXBYTES
    && forall o :: 0 <= o < MAXBYTES ==> Data(v, ip, o) == if o < |bytes| then bytes[o] else 0
  }

  /** Blocks are handed out in order from the first data block on; the rest of the image is still zero. */
  ghost predicate Frontier(sb: Super, v: Disk, owner: Owner, free: nat) {
    && FirstData(sb) <= free <= LogStart(sb)
    && (forall b: nat :: b in owner <==> FirstData(sb) <= b < free)
    && (forall b :: free <= b < |v| ==> v[b] == Zeroes())
  }

  /** No block is allocated past the end. */
  ghost predicate Tight(v: Disk, ip: Inode, hi: nat) {
    forall bn :: hi <= bn < MAXFILE ==> Addr(v, ip, Slot(bn)) == 0
  }

  ghost predicate FileStored(sb: Super, v: Disk, inodes: Inodes, files: Files, i: nat)
    requires i in inodes && Sane(sb, v)
  {
    FileOk(sb, v, inodes, i) && i in files && Stored(v, inodes[i], files[i]) &&
      Tight(v, inodes[i], Blocks512(inodes[i].size))
  }

  /** Every file but `but` is in place. */
  ghost predicate OthersStored(sb: Super, v: Disk, inodes: Inodes, files: Files, but: nat)
    requires Sane(sb, v)
  {
    forall h :: h in inodes && h != but ==> FileStored(sb, v, inodes, files, h)
  }

  /** What appending to file i may do: it grows, blocks are added at the frontier, nothing else changes. */
  ghost predicate Appended(sb: Super, v: Disk, inodes: Inodes, own: Owner, u: Disk, jnodes: Inodes, now: Owner,
      i: nat) {
    && |u| == |v| && OwnerGrown(own, now) && i in inodes && i in jnodes && jnodes == inodes[i := jnodes[i]]
    && (forall h :: h in inodes && h != i ==> SameData(v, inodes[h], u, inodes[h]))
    && (forall x :: 0 <= x < FirstData(sb) && x < |v| ==> u[x] == v[x])
    && (forall b :: b in now && b !in own ==> now[b].0 == i)
  }

  lemma OthersKept(sb: Super, v: Disk, inodes: Inodes, own: Owner, u: Disk, jnodes: Inodes, now: Owner, files: Files,
      i: nat)
    requires Refs(sb, v, inodes, own) && Refs(sb, u, jnodes, now) && Appended(sb, v, inodes, own, u, jnodes, now, i)
    requires OthersStored(sb, v, inodes, files, i)
    ensures OthersStored(sb, u, jnodes, files, i)
  {
    hide Addr, Data, GetDinode, RefsOf, OwnedAt;
    forall h | h in jnodes && h != i ensures FileStored(sb, u, jnodes, files, h) {
      assert FileStored(sb, v, inodes, files, h);
      OwnersKeepRefs(sb, v, inodes, own, u, jnodes, now, h);
      TightKept(sb, v, inodes, own, u, jnodes, now, i, h, Blocks512(inodes[h].size));
      StoredSame(v, u, inodes[h], files[h]);
      InodeBelowData(sb, h);
    }
  }

  lemma TightKept(sb: Super, v: Disk, inodes: Inodes, own: Owner, u: Disk, jnodes: Inodes, now: Owner, i: nat, h: nat,
      hi: nat)
    requires Refs(sb, v, inodes, own) && Refs(sb, u, jnodes, now) && Appended(sb, v, inodes, own, u, jnodes, now, i)
    requires h in inodes && h != i && Tight(v, inodes[h], hi)
    ensures Tight(u, inodes[h], hi)
  {
    hide Data, Addr, SameData;
    assert RefsOf(u, h, jnodes[h], now);
    forall bn | hi <= bn < MAXFILE ensures Addr(u, inodes[h], Slot(bn)) == 0 {
      var b := Addr(u, inodes[h], Slot(bn));
      if b in own {
        assert OwnedAt(sb, v, inodes, own, b);
      }
    }
  }

  lemma StoredSame(v: Disk, u: Disk, ip: Inode, bytes: seq<Byte>)
    requires SameData(v, ip, u, ip) && Stored(v, ip, bytes)
    ensures Stored(u, ip, bytes)
  {
    hide Data;
  }

  lemma InodeBelowData(sb: Super, i: nat)
    requires i < sb.ninodes
    ensures 1 < IBlock(i) < FirstData(sb) && !IsBitmap(sb, IBlock(i))
  {
  }

  /** The books of the image: references, frontier, inode numbers; the bitmap is written last. */
  ghost predicate Base(sb: Super, v: Disk, inodes: Inodes, owner: Owner, free: nat, freeinode: nat) {
    && Sane(sb, v) && |v| == sb.size && SuperOf(v[1]) == sb
    && Refs(sb, v, inodes, owner) && Frontier(sb, v, owner, free)
    && 1 <= freeinode <= sb.ninodes && (forall i: nat :: i in inodes <==> 1 <= i < freeinode)
    && forall x :: 0 <= x < |v| && IsBitmap(sb, x) ==> v[x] == Zeroes()
  }

  lemma BaseFacts(sb: Super, v: Disk, inodes: Inodes, owner: Owner, free: nat, freeinode: nat)
    requires Base(sb, v, inodes, owner, free, freeinode)
    ensures Sane(sb, v) && |v| == sb.size && Refs(sb, v, inodes, owner) && 0 !in inodes
    ensures forall i: nat :: i in inodes ==> 0 < i < freeinode <= sb.ninodes && IBlock(i) < |v|
    ensures forall b :: LogStart(sb) <= b < |v| ==> v[b] == Zeroes()
  {
  }

  lemma BaseResized(sb: Super, v: Disk, inodes: Inodes, owner: Owner, free: nat, freeinode: nat, i: nat, size: Uint)
    requires Base(sb, v, inodes, owner, free, freeinode) && i in inodes
    ensures Base(sb, v, inodes[i := inodes[i].(size := size)], owner, free, freeinode)
  {
    hide Refs, SuperOf, Frontier;
    SameAddrs(sb, v, inodes, owner, i, inodes[i].(size := size));
  }

  class Image {
    const sb: Super
    var img: Disk
    var freeblock: Uint
    var usedblocks: nat
    var freeinode: nat
    ghost var inodes: Inodes
    ghost var owner: Owner
    ghost var files: Files

    ghost predicate Core()
      reads this
    {
      Base(sb, img, inodes, owner, freeblock, freeinode) && usedblocks == freeblock
    }

    /** Between calls: every file is complete, on disk as in the books. */
    ghost predicate Valid()
      reads this
    {
      Core() && files.Keys == inodes.Keys && OthersStored(sb, img, inodes, files, 0)
    }

    /** The start of main: a zeroed image with its superblock. The layout is the one main asserts. */
    constructor (s: Super)
      requires s.nblocks + FirstData(s) + s.nlog == s.size < UINT && 1 <= s.ninodes < UINT
      ensures sb == s && Valid() && inodes == map[] && files == map[] && freeinode == 1 && freeblock == FirstData(s)
    {
      hide SuperOf, PutWord, Refs, Base;
      sb, img, inodes, owner, files := s, [], map[], map[], map[];
      freeblock, usedblocks, freeinode := FirstData(s), FirstData(s), 1;
      new;
      var i := 0;
      while i < sb.size
        modifies this`img
        invariant 0 <= i <= sb.size && |img| == i && forall x :: 0 <= x < i ==> img[x] == Zeroes()
      {
        img := img + [Zeroes()];
        i := i + 1;
      }
      var buf := PutWord(PutWord(PutWord(PutWord(Zeroes(), 0, sb.size), 1, sb.nblocks), 2, sb.ninodes), 3, sb.nlog);
      SuperWritten(sb);
      img := img[1 := buf];
      NothingThere(sb, img);
    }

    /** An empty element of addrs takes the next block of the frontier. */
    method TakeDirect(i: nat, din: Inode, k: nat) returns (d: Inode)
      requires Core() && i in inodes && inodes[i] == din && k <= NDIRECT && din.addrs[k] == 0 &&
        freeblock < LogStart(sb)
      modifies this`freeblock, this`usedblocks, this`inodes, this`owner
      ensures Core() && i in inodes && inodes[i] == d == din.(addrs := din.addrs[k := old(freeblock)]) &&
        freeblock == old(freeblock) + 1
      ensures old(freeblock) != 0 && Appended(sb, img, old(inodes), old(owner), img, inodes, owner, i)
      ensures SameData(img, din, img, d) && Kept(img, din, img, d, k)
    {
      hide Refs, SuperOf, Data, Word, FirstData, BitOf;
      AtFrontier(sb, img, owner, freeblock);
      LinkDirect(sb, img, inodes, owner, i, k, freeblock);
      FrontierMoves(sb, img, owner, freeblock, (i, k));
      d := din.(addrs := din.addrs[k := freeblock]);
      owner := owner[freeblock := (i, k)];
      inodes := inodes[i := d];
      freeblock := freeblock + 1;
      usedblocks := usedblocks + 1;
    }

    /** An empty entry of the indirect block takes the next block of the frontier. */
    method TakeIndirect(i: nat, din: Inode, j: nat)
      requires Core() && i in inodes && inodes[i] == din && j < NINDIRECT && 0 < din.addrs[NDIRECT] < |img| &&
        freeblock < LogStart(sb)
      requires Word(img[din.addrs[NDIRECT]], j) == 0
      modifies this`img, this`freeblock, this`usedblocks, this`owner
      ensures Core() && freeblock == old(freeblock) + 1 && Addr(img, din, NDIRECT + 1 + j) == old(freeblock) != 0
      ensures Appended(sb, old(img), inodes, old(owner), img, inodes, owner, i)
      ensures SameData(old(img), din, img, din) && Kept(old(img), din, img, din, NDIRECT + 1 + j)
    {
      hide Refs, SuperOf, Data, Word, PutWord, BitOf;
      var x := din.addrs[NDIRECT];
      AtFrontier(sb, img, owner, freeblock);
      IndirectIsOwned(sb, img, inodes, owner, i);
      LinkIndirect(sb, img, inodes, owner, i, j, freeblock);
      ghost var was := img;
      var indirect := PutWord(img[x], j, freeblock);
      FrontierWrite(sb, img, owner, freeblock, x, indirect);
      img := img[x := indirect];
      FrontierMoves(sb, img, owner, freeblock, (i, NDIRECT + 1 + j));
      owner := owner[freeblock := (i, NDIRECT + 1 + j)];
      freeblock := freeblock + 1;
      usedblocks := usedblocks + 1;
    }

    /** The block for file block fbn of inode i, taken from the frontier if there is none yet. */
    method MapBlock(i: nat, din: Inode, fbn: nat) returns (d: Inode, x: Uint)
      requires Core() && i in inodes && inodes[i] == din && fbn < MAXFILE &&
        freeblock + Need(img, din, fbn) <= LogStart(sb)
      modifies this`img, this`freeblock, this`usedblocks, this`inodes, this`owner
      ensures Core() && i in inodes && inodes[i] == d == din.(addrs := d.addrs) && x == Addr(img, d, Slot(fbn)) != 0
      ensures freeblock == old(freeblock) + Need(old(img), din, fbn)
      ensures Appended(sb, old(img), old(inodes), old(owner), img, inodes, owner, i)
      ensures SameData(old(img), din, img, d) && Grown(old(img), din, img, d, fbn)
    {
      hide Refs, SuperOf, Data, Word, PutWord, FirstData, Appended, SameData;
      AppendedNothing(sb, img, inodes, owner, i);
      d := din;
      if fbn < NDIRECT {
        if d.addrs[fbn] == 0 {
          d := TakeDirect(i, d, fbn);
        }
        x := d.addrs[fbn];
        return;
      }
      if d.addrs[NDIRECT] == 0 {
        d := TakeDirect(i, d, NDIRECT);
      }
      RefsBounded(sb, img, inodes, owner);
      ghost var nodes, own := inodes, owner;
      x := Word(img[d.addrs[NDIRECT]], fbn - NDIRECT);
      if x == 0 {
        x := freeblock;
        TakeIndirect(i, d, fbn - NDIRECT);
        AppendedTrans(sb, old(img), old(inodes), old(owner), old(img), nodes, own, img, inodes, owner, i);
        SameDataTrans(old(img), din, old(img), d, img, d);
      }
    }

    /** One round of iappend: src goes into one block of file i. */
    method AppendOne(i: nat, din: Inode, off: nat, src: seq<Byte>) returns (d: Inode)
      requires Core() && i in inodes && inodes[i] == din && 0 < |src| && off % BSIZE + |src| <= BSIZE &&
        off + |src| <= MAXBYTES
      requires freeblock + Need(img, din, off / BSIZE) <= LogStart(sb)
      modifies this`img, this`freeblock, this`usedblocks, this`inodes, this`owner
      ensures Core() && i in inodes && inodes[i] == d == din.(addrs := d.addrs)
      ensures freeblock == old(freeblock) + Need(old(img), din, off / BSIZE)
      ensures Appended(sb, old(img), old(inodes), old(owner), img, inodes, owner, i)
      ensures Overlaid(old(img), din, img, d, off, src) && Grown(old(img), din, img, d, off / BSIZE) &&
        Addr(img, d, Slot(off / BSIZE)) != 0
    {
      hide Refs, SuperOf, Data, Addr, Need, BitOf, Appended;
      var x;
      d, x := MapBlock(i, din, off / BSIZE);
      AddrOwned(sb, img, inodes, owner, i, Slot(off / BSIZE));
      var data := Patched(img[x], off % BSIZE, src);
      WriteData(sb, img, inodes, owner, i, off / BSIZE, data);
      FrontierWrite(sb, img, owner, freeblock, x, data);
      ghost var mid := img;
      img := img[x := data];
      PatchedData(mid, img, d, off, src, x, data);
      BlockAppended(sb, old(img), old(inodes), old(owner), mid, img, inodes, owner, i, x);
      OverlaidAfter(old(img), din, mid, img, d, off, src);
    }

    /** winode: the inode goes to its slot on disk. */
    method Winode(i: nat, d: Inode)
      requires Core() && i in inodes && inodes[i] == d
      modifies this`img
      ensures Core() && SameFiles(old(img), inodes, img, inodes) && SameRefs(old(img), img, inodes)
      ensures forall j :: 0 <= j < sb.ninodes ==> DiskInode(img, j) == if j == i then d else DiskInode(old(img), j)
    {
      hide SuperOf, PutDinode, GetDinode, SameFiles, SameRefs, SameData;
      var x := IBlock(i);
      InodeBelowData(sb, i);
      OwnedIsData(sb, img, inodes, owner);
      var data := PutDinode(img[x], i % IPB, d);
      UnownedWrite(sb, img, inodes, owner, x, data);
      ghost var was := img;
      img := img[x := data];
      forall j | 0 <= j < sb.ninodes ensures DiskInode(img, j) == if j == i then d else DiskInode(was, j) {
        DinodeRoundTrip(was[x], i % IPB, d, j % IPB);
      }
    }

    /** rinode */
    method Rinode(i: nat) returns (din: Inode)
      requires Valid() && i in inodes
      ensures din == inodes[i]
    {
      hide GetDinode, SuperOf;
      assert FileStored(sb, img, inodes, files, i);
      din := GetDinode(img[IBlock(i)], i % IPB);
    }

    /** The loop of iappend: p is laid down from the end of file i on, block by block. */
    method AppendLoop(i: nat, din: Inode, p: seq<Byte>) returns (d: Inode)
      requires Core() && i in inodes && inodes[i] == din && din.size + |p| <= MAXBYTES
      requires Filled(img, din, 0, Blocks512(din.size)) && Tight(img, din, Blocks512(din.size))
      requires freeblock + |Missing(img, din, din.size / BSIZE, Blocks512(din.size + |p|))| <= LogStart(sb)
      modifies this`img, this`freeblock, this`usedblocks, this`inodes, this`owner
      ensures Core() && i in inodes && inodes[i] == d == din.(addrs := d.addrs)
      ensures Appended(sb, old(img), old(inodes), old(owner), img, inodes, owner, i)
      ensures Overlaid(old(img), din, img, d, din.size, p) && Filled(img, d, 0, Blocks512(din.size + |p|)) &&
        Tight(img, d, Blocks512(din.size + |p|))
      ensures freeblock <= old(freeblock) + |Missing(old(img), din, din.size / BSIZE, Blocks512(din.size + |p|))|
    {
      hide Base, Data, Addr, Missing, Need, Overlaid, Filled, Tight, Appended, Grown, Blocks512;
      var size, n, tot := din.size, |p|, 0;
      ghost var hi := Blocks512(size + n);
      ghost var room := freeblock + |Missing(img, din, size / BSIZE, hi)|;
      AppendedNothing(sb, img, inodes, owner, i);
      OverlaidNothing(img, din, size);
      assert p[..0] == [];
      d := din;
      while tot < n
        invariant 0 <= tot <= n && (tot == 0 || tot == n || (size + tot) % BSIZE == 0)
        invariant Core() && i in inodes && inodes[i] == d == din.(addrs := d.addrs)
        invariant Appended(sb, old(img), old(inodes), old(owner), img, inodes, owner, i)
        invariant Overlaid(old(img), din, img, d, size, p[..tot]) && Filled(img, d, 0, Blocks512(size + tot)) &&
          Tight(img, d, Blocks512(size + tot))
        invariant freeblock + (if tot < n then |Missing(img, d, (size + tot) / BSIZE, hi)| else 0) <= room
      {
        var off := size + tot;
        var n1 := if n - tot < BSIZE - off % BSIZE then n - tot else BSIZE - off % BSIZE;
        BlockInRange(off, size + n);
        MissingCoversNeed(img, d, off / BSIZE, hi);
        ghost var v, ip, nodes, own := img, d, inodes, owner;
        d := AppendOne(i, d, off, p[tot..tot + n1]);
        AppendStep(sb, old(img), old(inodes), old(owner), v, nodes, own, img, inodes, owner, i, size, p, tot, n1);
        tot := tot + n1;
      }
      assert p[..n] == p;
    }

    /** The end of iappend: the new size, and the inode written back. */
    method Commit(i: nat, d: Inode, ghost bytes: seq<Byte>)
      requires Core() && i in inodes && d == inodes[i].(size := d.size) && files.Keys == inodes.Keys
      requires Sane(sb, img) && OthersStored(sb, img, inodes, files, i) && Stored(img, d, bytes)
      requires Filled(img, d, 0, Blocks512(d.size)) && Tight(img, d, Blocks512(d.size))
      modifies this`img, this`inodes, this`files
      ensures Valid() && inodes == old(inodes)[i := d] && files == old(files)[i := bytes]
    {
      hide Base, Data, Addr, Filled, Tight, SameFiles, SameRefs, GetDinode, Stored, OthersStored;
      BaseFacts(sb, img, inodes, owner, freeblock, freeinode);
      BaseResized(sb, img, inodes, owner, freeblock, freeinode, i, d.size);
      inodes := inodes[i := d];
      files := files[i := bytes];
      Winode(i, d);
      BaseFacts(sb, img, inodes, owner, freeblock, freeinode);
      FileGrown(sb, old(img), old(inodes), img, inodes, old(files), files, i);
    }

    /** iappend: file i gets p at its end; every other file is as it was. */
    method Iappend(i: nat, p: seq<Byte>)
      requires Valid() && i in inodes && |files[i]| + |p| <= MAXBYTES
      requires freeblock + |Missing(img, inodes[i], |files[i]| / BSIZE, Blocks512(|files[i]| + |p|))| <= LogStart(sb)
      modifies this`img, this`freeblock, this`usedblocks, this`inodes, this`owner, this`files
      ensures Valid() && files == old(files)[i := old(files)[i] + p]
      ensures inodes.Keys == old(inodes).Keys && inodes[i].typ == old(inodes)[i].typ && LinksKept(old(inodes), inodes)
      ensures freeblock <= old(freeblock) +
        |Missing(old(img), old(inodes)[i], |old(files)[i]| / BSIZE, Blocks512(|old(files)[i]| + |p|))|
    {
      hide Base, Data, Addr, Missing, Overlaid, Filled, Tight, Appended, GetDinode, Stored, OthersStored;
      BaseFacts(sb, img, inodes, owner, freeblock, freeinode);
      AllButOne(sb, img, inodes, files, i);
      StoredSize(img, inodes[i], files[i]);
      var din := Rinode(i);
      var d := AppendLoop(i, din, p);
      KeysKept(sb, old(img), old(inodes), old(owner), img, inodes, owner, i);
      BaseFacts(sb, img, inodes, owner, freeblock, freeinode);
      OthersKept(sb, old(img), old(inodes), old(owner), img, inodes, owner, files, i);
      StoredAppend(old(img), din, img, d, files[i], p);
      d := d.(size := din.size + |p|);
      FilledResized(img, inodes[i], d, Blocks512(din.size + |p|));
      Commit(i, d, files[i] + p);
    }

    /** ialloc: the next inode number, an empty file. */
    method Ialloc(typ: Short) returns (inum: nat)
      requires Valid() && freeinode < sb.ninodes
      modifies this`img, this`freeinode, this`inodes, this`files
      ensures Valid() && inum == old(freeinode) && freeinode == old(freeinode) + 1 && freeblock == old(freeblock)
      ensures inum in inodes && inodes[inum].typ == typ && inum !in old(files) && files == old(files)[inum := []]
      ensures inodes[inum].nlink == 1 && LinksKept(old(inodes), inodes)
    {
      hide Data, Addr, Filled, Tight, SameFiles, SameRefs, GetDinode, Stored, OthersStored, SuperOf, Frontier, Refs;
      var d := FREE_INODE.(typ := typ, nlink := 1);
      inum := freeinode;
      EmptyFile(sb, img, inodes, owner, inum, d);
      freeinode := freeinode + 1;
      inodes := inodes[inum := d];
      files := files[inum := []];
      OneMore(sb, img, old(inodes), old(files), inum);
      Winode(inum, d);
      FileGrown(sb, old(img), old(inodes), img, inodes, old(files), files, inum);
    }

    /** The size of the root directory is rounded up to the next block boundary past it. The result has a block for
        every byte exactly when the last block was only partly used before. */
    method FixRoot(root: nat)
      requires Valid() && root in inodes && |files[root]| < MAXBYTES
      modifies this`img, this`inodes, this`files
      ensures Core() && Sane(sb, img) && root in inodes && inodes[root].size == (|old(files)[root]| / BSIZE + 1) * BSIZE
      ensures Filled(img, inodes[root], 0, Blocks512(inodes[root].size)) <==> |old(files)[root]| % BSIZE != 0
      ensures LinksKept(old(inodes), inodes)
      ensures |old(files)[root]| % BSIZE != 0 ==>
        Valid() && files == old(files)[root := old(files)[root] + Padding(|old(files)[root]|)]
    {
      hide Base, Data, Addr, Filled, Tight, SameFiles, GetDinode, Stored, OthersStored, LinksKept;
      BaseFacts(sb, img, inodes, owner, freeblock, freeinode);
      AllButOne(sb, img, inodes, files, root);
      StoredSize(img, inodes[root], files[root]);
      var din := Rinode(root);
      Relinked(inodes, root, (din.size / BSIZE + 1) * BSIZE);
      var off := (din.size / BSIZE + 1) * BSIZE;
      var d := din.(size := off);
      Rounded(img, din, d, files[root]);
      BaseResized(sb, img, inodes, owner, freeblock, freeinode, root, off);
      inodes := inodes[root := d];
      Winode(root, d);
      BaseFacts(sb, img, inodes, owner, freeblock, freeinode);
      if din.size % BSIZE != 0 {
        files := files[root := files[root] + Padding(|files[root]|)];
        FileGrown(sb, old(img), old(inodes), img, inodes, old(files), files, root);
      }
      SameFill(old(img), img, inodes, root, Blocks512(off));
    }

    /** balloc: the bitmap says that the first `used` blocks are in use. */
    method Balloc(used: nat)
      requires Valid() && used == usedblocks < BPB
      modifies this`img
      ensures Built() && |img| == |old(img)| && forall x :: 0 <= x < |img| && x != sb.ninodes / IPB + 3 ==>
        img[x] == old(img)[x]
    {
      hide SuperOf, OthersStored, Refs, BitsAre, BitOf, WithBit, Frontier;
      var buf, i := Zeroes(), 0;
      NoBits();
      while i < used
        invariant 0 <= i <= used && forall k :: 0 <= k < BPB ==> (BitOf(buf, k) <==> k < i)
      {
        ghost var was := buf;
        buf := WithBit(buf, i);
        forall k | 0 <= k < BPB ensures BitOf(buf, k) <==> k < i + 1 {
          BitOfWithBit(was, i, k);
        }
        i := i + 1;
      }
      var x := sb.ninodes / IPB + 3;
      BaseFacts(sb, img, inodes, owner, freeblock, freeinode);
      BitmapInPlace(sb, img, inodes, owner, files, freeblock, freeinode, buf);
      img := img[x := buf];
    }

    /** What the kernel expects of a disk: bitmap, references and files agree. */
    ghost predicate Built()
      reads this
    {
      && Sane(sb, img) && 1 < |img| && SuperOf(img[1]) == sb && files.Keys == inodes.Keys
      && 1 <= freeinode && (forall i: nat :: i in inodes <==> 1 <= i < freeinode)
      && Refs(sb, img, inodes, owner) && BitsAre(sb, img, owner.Keys) && OthersStored(sb, img, inodes, files, 0)
      && |img| == sb.size && forall b :: LogStart(sb) <= b < |img| ==> img[b] == Zeroes()
    }

    /** adddir: a new directory with its two entries, entered in its parent. */
    method AddDir(name: string, par: nat) returns (inum: nat)
      requires Valid() && par in inodes && freeinode < sb.ninodes && freeinode < 0x1_0000 && |name| <= ENTRY - 2
      requires |files[par]| + ENTRY <= BSIZE && freeblock + 2 <= LogStart(sb)
      modifies this`img, this`freeblock, this`usedblocks, this`freeinode, this`inodes, this`owner, this`files
      ensures Valid() && inum == old(freeinode) && freeinode == old(freeinode) + 1 &&
        DirAdded(old(files), files, par, inum, name)
      ensures freeblock <= old(freeblock) + if old(files)[par] == [] then 2 else 1
      ensures inum in inodes && inodes[inum].nlink == 1
    {
      hide Base, OthersStored, Missing, Dirent, DirAdded, Sane, LinksKept;
      BaseFacts(sb, img, inodes, owner, freeblock, freeinode);
      ThreeEntries(files, par, freeinode, name);
      inum := Ialloc(Path.T_DIR);
      ghost var n0 := inodes;
      Append(par, Dirent(inum, name));
      ghost var n1 := inodes;
      Append(inum, Dirent(inum, "."));
      ghost var n2 := inodes;
      Append(inum, Dirent(par, ".."));
      SameLinks(n0, n1, n2, inodes, inum);
    }

    /** iappend of an entry to a directory that fits one block. */
    method Append(dir: nat, de: seq<Byte>)
      requires Valid() && dir in inodes && |de| == ENTRY && |files[dir]| + ENTRY <= BSIZE
      requires freeblock + (if files[dir] == [] then 1 else 0) <= LogStart(sb)
      modifies this`img, this`freeblock, this`usedblocks, this`inodes, this`owner, this`files
      ensures Valid() && files == old(files)[dir := old(files)[dir] + de]
      ensures inodes.Keys == old(inodes).Keys && LinksKept(old(inodes), inodes)
      ensures freeblock <= old(freeblock) + if old(files)[dir] == [] then 1 else 0
    {
      hide Base, Missing, FileStored;
      BaseFacts(sb, img, inodes, owner, freeblock, freeinode);
      assert FileStored(sb, img, inodes, files, dir);
      OneBlockEnough(sb, img, inodes, files, dir);
      Iappend(dir, de);
    }

    /** The first k directories of the tree are there, and nothing else. */
    ghost predicate Planted(k: nat)
      reads this
    {
      && k <= DIRS && Valid() && files == Planting(k) && freeinode == k + 2
      && DIRS + 2 < sb.ninodes && freeblock <= FirstData(sb) + 1 + k && FirstData(sb) + 2 + DIRS <= LogStart(sb)
    }

    /** The next call of adddir in main. */
    method NextDir(name: string, par: nat, ghost k: nat) returns (inum: nat)
      requires Planted(k) && k < DIRS && name == Name(k) && par == Parent(k)
      modifies this`img, this`freeblock, this`usedblocks, this`freeinode, this`inodes, this`owner, this`files
      ensures Planted(k + 1) && inum == k + 2
    {
      hide Base, OthersStored, Planting, Dirent, Name, Parent;
      PlantedNext(k);
      inum := AddDir(name, par);
    }

    /** The root directory with its two entries. */
    method MakeRoot() returns (root: nat)
      requires Valid() && files == map[] && freeinode == ROOT < sb.ninodes && freeblock == FirstData(sb) < LogStart(sb)
      modifies this`img, this`freeblock, this`usedblocks, this`freeinode, this`inodes, this`owner, this`files
      ensures Valid() && files == Planting(0) && root == ROOT && freeinode == 2 && freeblock <= FirstData(sb) + 1
    {
      hide Base, OthersStored, Dirent;
      root := Ialloc(Path.T_DIR);
      Append(root, Dirent(root, "."));
      assert files[root] == Dirent(root, ".");
      Append(root, Dirent(root, ".."));
    }

    lemma PlantedRoot()
      requires Valid() && files == Planting(0) && freeinode == 2 && DIRS + 2 < sb.ninodes
      requires freeblock <= FirstData(sb) + 1 && FirstData(sb) + 2 + DIRS <= LogStart(sb)
      ensures Planted(0)
    {
    }

    /** The root directory as main makes it: itself twice, then seven directories. */
    method MakeTop() returns (usr: nat)
      requires Valid() && files == map[] && freeinode == ROOT && DIRS + 2 < sb.ninodes && freeblock == FirstData(sb)
      requires FirstData(sb) + 2 + DIRS <= LogStart(sb)
      modifies this`img, this`freeblock, this`usedblocks, this`freeinode, this`inodes, this`owner, this`files
      ensures Planted(7) && usr == 8
    {
      hide Image.Planted, Image.Valid;
      var root := MakeRoot();
      PlantedRoot();
      var bin := NextDir("bin", root, 0);
      var dev := NextDir("dev", root, 1);
      var etc := NextDir("etc", root, 2);
      var home := NextDir("root", root, 3);
      var proc := NextDir("proc", root, 4);
      var sbin := NextDir("sbin", root, 5);
      usr := NextDir("usr", root, 6);
    }

    /** The directories below /usr. */
    method MakeUsr(usr: nat)
      requires Planted(7) && usr == 8
      modifies this`img, this`freeblock, this`usedblocks, this`freeinode, this`inodes, this`owner, this`files
      ensures Planted(DIRS)
    {
      hide Image.Planted;
      var bin := NextDir("bin", usr, 7);
      var share := NextDir("share", usr, 8);
      var local := NextDir("local", usr, 9);
      var localbin := NextDir("bin", local, 10);
      var sbin := NextDir("sbin", usr, 11);
      var localsbin := NextDir("sbin", local, 12);
    }

    /** The end of main. Host files go to other directories, so the root still has its nine entries: rounding pads it to
        one block, and the finished image is what the kernel expects. */
    method Finish()
      requires Valid() && ROOT in files && |files[ROOT]| == 9 * ENTRY && freeblock < BPB
      modifies this`img, this`inodes, this`files
      ensures Built() && files == old(files)[ROOT := old(files)[ROOT] + Padding(9 * ENTRY)] && |files[ROOT]| == BSIZE
    {
      hide Base, OthersStored, Filled, Padding, Sane, Blocks512;
      PaddedRoot();
      FixRoot(ROOT);
      Balloc(usedblocks);
    }

    /** The kernel boots on the finished image: an empty cache, recovery of an empty log, and the files are there. */
    method Mount(others: nat) returns (fs: FileSystem)
      requires Built() && 1 <= sb.nlog
      ensures fresh(fs) && fresh(fs.log) && fresh(fs.log.bc) && fs.sb == sb && fs.Consistent() && !fs.log.busy &&
        fs.held == map[] && fs.ws == [] && fs.others == others
      ensures fs.inodes == inodes && forall i :: i in inodes ==> Stored(fs.view, inodes[i], files[i])
    {
      hide Data, Addr, GetDinode, Filled, Tight, SuperOf, Refs, BitsAre, WellFormed, Apply, Word, File.FilesOn,
        File.Holds, FileOk, Stored;
      hide FileSystem.Synced, RecoverTrace, SameData;
      var nodes := ReadInodes();
      EmptyLog(sb, img);
      var bc := new BufferCache(img);
      var log := new J.Journal(bc, Span(LogStart(sb), sb.nlog));
      Booted(log.a, img);
      MountedFiles(sb, img, log.base, inodes, owner, files);
      fs := new FileSystem(log, sb, nodes, others, owner);
      File.FilesConsistent(fs);
    }

    /** The in-memory inodes, as ilock fills them from their slots. */
    method ReadInodes() returns (nodes: Inodes)
      requires Built()
      ensures nodes == inodes
    {
      hide Data, Addr, GetDinode, Filled, Tight, SuperOf, Refs, BitsAre;
      var h := 1;
      nodes := map[];
      while h < freeinode
        invariant 1 <= h <= freeinode && (forall k :: k in nodes ==> 1 <= k < h)
        invariant forall k :: 1 <= k < h ==> k in nodes && nodes[k] == inodes[k]
      {
        assert FileStored(sb, img, inodes, files, h);
        nodes := nodes[h := GetDinode(img[IBlock(h)], h % IPB)];
        h := h + 1;
      }
    }

    /** The kernel mounts the finished image and reads file i: exactly the bytes iappend stored. */
    method ReadBack(i: nat) returns (dst: seq<Byte>)
      requires Built() && 1 <= sb.nlog && i in inodes && inodes[i].typ != T_DEV
      ensures dst == files[i]
    {
      hide Data, FileSystem.Consistent, FileStored, Refs, BitsAre, SuperOf;
      var fs := Mount(0);
      NoneLogged();
      var r, bytes := fs.Readi(i, 0, fs.inodes[i].size);
      assert Stored(fs.view, inodes[i], files[i]);
      return bytes;
    }
  }

  /** main, with the sizes compiled in and no host files: an image the kernel's log is large enough for. */
  method MakeImage() returns (im: Image)
    ensures im.Built() && File.ChunksFit(im.sb, 2)
    ensures im.files == Planting(DIRS)[ROOT := Planting(DIRS)[ROOT] + Padding(9 * ENTRY)]
  {
    im := new Image(Super(2009, 1970, 200, LOGSIZE));
    var usr := im.MakeTop();
    im.MakeUsr(usr);
    PlantingSizes(DIRS);
    im.Finish();
  }

  /** A full data area, its one block being the root directory's: the first block that balloc finds clear is the log's
      header. */
  method FullDiskGivesLog() returns (r: Found)
    ensures r == LogBlock(5)
  {
    hide Bit, Refs, BitsAre, FileSystem.Synced, Apply, Room, Ballocked, FileOk, Base, OthersStored, SuperOf, FreshOnly,
      NoneFreeBelow, Planting, Dirent, Stored;
    var im := new Image(FULL);
    var root := im.MakeRoot();
    PlantingSizes(0);
    im.FixRoot(root);
    im.Balloc(im.usedblocks);
    var fs := im.Mount(0);
    fs.BeginTrans();
    FullBits(fs.view, fs.owner, fs.inodes);
    assert fs.held.Keys == {};
    ghost var v, ws := fs.view, fs.ws;
    r := fs.Balloc();
    FullFound(v, fs.view, ws, fs.ws, r);
  }

  /** A small image with one directory besides the root. */
  method SmallImage() returns (im: Image, dir: nat)
    ensures im.Built() && im.sb == Super(17, 3, 3, LOGSIZE) && dir in im.inodes && im.inodes[dir].nlink == 1
  {
    hide Base, OthersStored, Planting, Dirent, DirAdded, Stored, Filled, Padding;
    im := new Image(Super(17, 3, 3, LOGSIZE));
    var root := im.MakeRoot();
    PlantingSizes(0);
    dir := im.AddDir("tmp", root);
    RootGrown(im.files, root, dir, "tmp");
    im.FixRoot(root);
    im.Balloc(im.usedblocks);
  }

  /** A process exits whose current directory has been removed: no transaction is running, and iput panics. */
  method ExitPanics() returns (r: File.Put)
    ensures r.Panicked?
  {
    hide FileSystem.Consistent, File.Atomic, Stored, Image.Built;
    var im, dir := SmallImage();
    var fs := im.Mount(2);
    File.Unlink(fs, dir);
    File.ChunkRoom(fs.sb, fs.others, fs.inodes[dir], dir, 0, 1);
    r := File.Iput(fs, dir, 1, true);
  }

  lemma RootGrown(now: Files, par: nat, inum: nat, name: string)
    requires DirAdded(Planting(0), now, par, inum, name) && par == ROOT
    ensures par in now && |now[par]| == 3 * ENTRY
  {
    hide Dirent;
    PlantingSizes(0);
  }

  /** Sizes with room for one data block. */
  const FULL: Super := Super(9, 1, 2, 4)

  lemma FullBits(v: Disk, owner: Owner, inodes: Inodes)
    requires Sane(FULL, v) && Refs(FULL, v, inodes, owner) && BitsAre(FULL, v, owner.Keys)
    requires ROOT in inodes && FileOk(FULL, v, inodes, ROOT) && inodes[ROOT].size > 0
    ensures FreshOnly(FULL, v, {}) && BitmapFits(FULL, 0, {}, [])
    ensures forall b :: 0 <= b < 9 ==> (Bit(FULL, v, b) <==> b < 5)
  {
    hide Bit, Addr;
    OwnedIsData(FULL, v, inodes, owner);
    assert Addr(v, inodes[ROOT], Slot(0)) in owner.Keys by {
      assert RefsOf(v, ROOT, inodes[ROOT], owner);
    }
    assert owner.Keys == {4};
    assert Logged([]) == {};
  }

  lemma FullFound(v: Disk, u: Disk, ws: seq<Write>, us: seq<Write>, r: Found)
    requires Sane(FULL, v) && forall b :: 0 <= b < 9 ==> (Bit(FULL, v, b) <==> b < 5)
    requires if r.None? then NoneFreeBelow(FULL, v, 9) else Ballocked(FULL, v, u, ws, us, r)
    ensures r == LogBlock(5)
  {
    hide Bit, AllocView, Logged;
    assert !Bit(FULL, v, 5);
  }

  /** struct dirent as bytes: the inode number, then the name padded with zeroes. */
  function Dirent(inum: nat, name: string): (de: seq<Byte>)
    requires inum < 0x1_0000 && |name| <= ENTRY - 2
    ensures |de| == ENTRY
  {
    [inum % 0x100, inum / 0x100] +
      seq(ENTRY - 2, k requires 0 <= k < ENTRY - 2 => if k < |name| then name[k] as int % 0x100 else 0)
  }

  /** What adddir does to the files. */
  ghost predicate DirAdded(was: Files, now: Files, par: nat, inum: nat, name: string) {
    && par in was && inum !in was && par < 0x1_0000 && inum < 0x1_0000 && |name| <= ENTRY - 2
    && now == was[par := was[par] + Dirent(inum, name)][inum := Dirent(inum, ".") + Dirent(par, "..")]
  }

  /** The steps of adddir on the books. */
  lemma ThreeEntries(was: Files, par: nat, inum: nat, name: string)
    requires par in was && par != inum && par < 0x1_0000 && inum < 0x1_0000 && |name| <= ENTRY - 2
    ensures inum !in was ==>
      var f0 := was[inum := []];
      var f1 := f0[par := f0[par] + Dirent(inum, name)];
      var f2 := f1[inum := f1[inum] + Dirent(inum, ".")];
      var f3 := f2[inum := f2[inum] + Dirent(par, "..")];
      && f0[par] == was[par] && f1[inum] == [] && f2[inum] == Dirent(inum, ".") && f2[inum] != []
      && DirAdded(was, f3, par, inum, name)
  {
    assert [] + Dirent(inum, ".") == Dirent(inum, ".");
  }

  const DIRS: nat := 13                // calls of adddir in main

  /** The k-th directory main makes gets inode k + 2, this name, and an entry in this parent. */
  function Name(k: nat): (s: string)
    requires k < DIRS
    ensures |s| <= ENTRY - 2
  {
    match k
    case 1 => "dev"
    case 2 => "etc"
    case 3 => "root"
    case 4 => "proc"
    case 6 => "usr"
    case 8 => "share"
    case 9 => "local"
    case _ => if k == 0 || k == 7 || k == 10 then "bin" else "sbin"
  }

  function Parent(k: nat): (p: nat)
    requires k < DIRS
    ensures ROOT <= p < k + 2 && (p == ROOT <==> k < 7)
  {
    if k < 7 then ROOT else if k == 10 || k == 12 then 11 else 8
  }

  /** The files once the first k directories are there. */
  ghost function Planting(k: nat): Files
    requires k <= DIRS
  {
    hide Name, Parent, Dirent;
    if k == 0 then map[ROOT := Dirent(ROOT, ".") + Dirent(ROOT, "..")]
    else
      var was, par, inum := Planting(k - 1), Parent(k - 1), k + 1;
      was[par := (if par in was then was[par] else []) + Dirent(inum, Name(k - 1))]
         [inum := Dirent(inum, ".") + Dirent(par, "..")]
  }

  /** n directories, none empty, none larger than m bytes. */
  ghost predicate Small(files: Files, n: nat, m: nat) {
    (forall i :: i in files <==> ROOT <= i < n + 1) && forall i :: i in files ==> 0 < |files[i]| <= m
  }

  lemma SmallMore(files: Files, n: nat, m: nat, par: nat, de: seq<Byte>, own: seq<Byte>)
    requires Small(files, n, m) && par in files && |de| == ENTRY && |own| == 2 * ENTRY <= m && 0 < n
    ensures var now := files[par := files[par] + de][n + 1 := own];
      && Small(now, n + 1, m + ENTRY)
      && |now[ROOT]| == |files[ROOT]| + if par == ROOT then ENTRY else 0
  {
  }

  lemma {:induction false} PlantingSizes(k: nat)
    requires k <= DIRS
    ensures Small(Planting(k), k + 1, (2 + k) * ENTRY)
    ensures |Planting(k)[ROOT]| == (2 + if k < 7 then k else 7) * ENTRY
  {
    hide Name, Dirent, Parent, Small, Planting;
    if k == 0 {
      PlantingStart();
      OnlyRoot(Dirent(ROOT, ".") + Dirent(ROOT, ".."));
    } else {
      PlantingSizes(k - 1);
      var was, par := Planting(k - 1), Parent(k - 1);
      InSmall(was, k, (1 + k) * ENTRY, par);
      PlantingStep(k);
      SmallMore(was, k, (1 + k) * ENTRY, par, Dirent(k + 1, Name(k - 1)), Dirent(k + 1, ".") + Dirent(par, ".."));
    }
  }

  lemma PlantingStart()
    ensures Planting(0) == map[ROOT := Dirent(ROOT, ".") + Dirent(ROOT, "..")]
  {
  }

  lemma PlantingStep(k: nat)
    requires 0 < k <= DIRS && Parent(k - 1) in Planting(k - 1)
    ensures var was, par := Planting(k - 1), Parent(k - 1);
      Planting(k) == was[par := was[par] + Dirent(k + 1, Name(k - 1))][k + 1 := Dirent(k + 1, ".") + Dirent(par, "..")]
  {
    hide Name, Dirent, Parent;
  }

  lemma OnlyRoot(own: seq<Byte>)
    requires |own| == 2 * ENTRY
    ensures Small(map[ROOT := own], 1, 2 * ENTRY)
  {
  }

  lemma InSmall(files: Files, n: nat, m: nat, i: nat)
    requires Small(files, n, m)
    ensures i in files <==> ROOT <= i < n + 1
    ensures i in files ==> 0 < |files[i]| <= m
  {
  }

  lemma PlantedNext(k: nat)
    requires k < DIRS
    ensures Parent(k) in Planting(k) && 0 < |Planting(k)[Parent(k)]| <= BSIZE - ENTRY
    ensures DirAdded(Planting(k), Planting(k + 1), Parent(k), k + 2, Name(k))
  {
    hide Name, Dirent, Parent, Small;
    PlantingSizes(k);
    InSmall(Planting(k), k + 1, (2 + k) * ENTRY, Parent(k));
    InSmall(Planting(k), k + 1, (2 + k) * ENTRY, k + 2);
  }

  /** A directory that stays within its first block needs a block only for its first entry. */
  lemma OneBlockEnough(sb: Super, v: Disk, inodes: Inodes, files: Files, i: nat)
    requires i in inodes && Sane(sb, v) && FileStored(sb, v, inodes, files, i) && |files[i]| + ENTRY <= BSIZE
    ensures |files[i]| + ENTRY <= MAXBYTES
    ensures |Missing(v, inodes[i], |files[i]| / BSIZE, Blocks512(|files[i]| + ENTRY))| <= if files[i] == [] then 1
      else 0
  {
    hide Addr, Data, GetDinode;
    var missing := Missing(v, inodes[i], 0, 1);
    assert |files[i]| / BSIZE == 0 && Blocks512(|files[i]| + ENTRY) == 1;
    assert files[i] != [] ==> Blocks512(inodes[i].size) == 1 && Addr(v, inodes[i], Slot(0)) != 0;
    assert missing <= {0};
    SubsetCount(missing, {0});
    assert files[i] != [] ==> missing == {};
  }

  lemma NoneLogged()
    ensures |Logged([])| == 0
  {
  }

  /** The log area of a new image is an empty log. */
  lemma EmptyLog(sb: Super, v: Disk)
    requires Sane(sb, v) && 1 <= sb.nlog && |v| == sb.size && forall b :: LogStart(sb) <= b < |v| ==> v[b] == Zeroes()
    ensures WellFormed(Span(LogStart(sb), sb.nlog), v) && Word(v[LogStart(sb)], 0) == 0
  {
    WordOfZeroes(0);
  }

  /** Recovery of an empty log changes nothing outside the log. */
  lemma Booted(a: Area, d: Disk)
    requires WellFormed(a, d) && Word(d[a.start], 0) == 0
    ensures |Apply(d, RecoverTrace(a, d))| == |d| && forall s :: 0 <= s < a.start ==>
      Apply(d, RecoverTrace(a, d))[s] == d[s]
  {
    hide Apply, RecoverTrace;
    var t := RecoverTrace(a, d);
    RecoveryKeeps(a, d, |t|);
    assert t[..|t|] == t;
    var e := Apply(d, t);
    forall s | 0 <= s < a.start ensures e[s] == d[s] {
      assert Logical(a, e, s) == Logical(a, d, s);
    }
  }

  lemma MountedFiles(sb: Super, v: Disk, d: Disk, inodes: Inodes, owner: Owner, files: Files)
    requires Sane(sb, v) && Refs(sb, v, inodes, owner) && BitsAre(sb, v, owner.Keys) &&
      OthersStored(sb, v, inodes, files, 0) && 0 !in inodes
    requires |d| == |v| && (forall s :: 0 <= s < LogStart(sb) ==> d[s] == v[s])
    ensures Sane(sb, d) && File.FilesOn(sb, d, inodes, owner) && d[1] == v[1]
    ensures forall i :: i in inodes ==> i in files && Stored(d, inodes[i], files[i])
  {
    hide Data, GetDinode, Filled, Tight, Refs, BitsAre, FileOk, SameData, Stored, File.Holds;
    forall i | i in inodes ensures FileOk(sb, v, inodes, i) && i in files && Stored(v, inodes[i], files[i]) {
      assert FileStored(sb, v, inodes, files, i);
    }
    File.BelowLogDecides(sb, v, d, inodes, owner);
    File.HeldFiles(sb, d, v, inodes, owner);
    forall i | i in inodes ensures Stored(d, inodes[i], files[i]) {
      StoredSame(v, d, inodes[i], files[i]);
    }
  }

  lemma NothingThere(sb: Super, v: Disk)
    requires Sane(sb, v) && |v| == sb.size && SuperOf(v[1]) == sb && 1 <= sb.ninodes
    requires forall x :: 0 <= x < |v| && x != 1 ==> v[x] == Zeroes()
    ensures Base(sb, v, map[], map[], FirstData(sb), 1)
  {
    hide SuperOf;
  }

  lemma SuperWritten(sb: Super)
    requires sb.size < UINT && sb.nblocks < UINT && sb.ninodes < UINT && sb.nlog < UINT
    ensures SuperOf(PutWord(PutWord(PutWord(PutWord(Zeroes(), 0, sb.size), 1, sb.nblocks), 2, sb.ninodes), 3,
      sb.nlog)) == sb
  {
    hide Word, PutWord;
    var a := PutWord(Zeroes(), 0, sb.size);
    var b := PutWord(a, 1, sb.nblocks);
    var c := PutWord(b, 2, sb.ninodes);
    forall j | 0 <= j < 4 ensures Word(PutWord(c, 3, sb.nlog), j) == [sb.size, sb.nblocks, sb.ninodes, sb.nlog][j] {
      WordPutWord(Zeroes(), 0, sb.size, j);
      WordPutWord(a, 1, sb.nblocks, j);
      WordPutWord(b, 2, sb.ninodes, j);
      WordPutWord(c, 3, sb.nlog, j);
    }
  }

  function Padding(n: nat): seq<Byte> {
    seq(BSIZE - n % BSIZE, _ => 0)
  }

  lemma PaddedRoot()
    ensures 9 * ENTRY % BSIZE != 0 && 9 * ENTRY + |Padding(9 * ENTRY)| == BSIZE
  {
  }

  /** A new inode refers to nothing, so it takes nothing away from anyone. */
  lemma EmptyFile(sb: Super, v: Disk, inodes: Inodes, owner: Owner, i: nat, d: Inode)
    requires Refs(sb, v, inodes, owner) && i !in inodes && d.addrs == FREE_INODE.addrs && d.size == 0
    ensures Refs(sb, v, inodes[i := d], owner) && Stored(v, d, []) && Filled(v, d, 0, 0) && Tight(v, d, 0)
  {
    var jnodes := inodes[i := d];
    forall k | 0 <= k < SLOTS ensures Addr(v, d, k) == 0 {
    }
    forall h | h in jnodes ensures RefsOf(v, h, jnodes[h], owner) {
      assert h != i ==> RefsOf(v, h, inodes[h], owner);
    }
    forall b | b in owner ensures OwnedAt(sb, v, jnodes, owner, b) {
      assert OwnedAt(sb, v, inodes, owner, b);
    }
  }

  lemma OneMore(sb: Super, v: Disk, inodes: Inodes, files: Files, i: nat)
    requires Sane(sb, v) && OthersStored(sb, v, inodes, files, 0) && 0 !in inodes && i !in inodes
    ensures OthersStored(sb, v, inodes, files, i)
  {
    hide Data, Addr, GetDinode, Stored, Filled, Tight;
  }

  lemma Rounded(v: Disk, ip: Inode, jp: Inode, bytes: seq<Byte>)
    requires Stored(v, ip, bytes) && Filled(v, ip, 0, Blocks512(ip.size)) && Tight(v, ip, Blocks512(ip.size)) &&
      |bytes| < MAXBYTES
    requires jp == ip.(size := (ip.size / BSIZE + 1) * BSIZE)
    ensures Filled(v, jp, 0, Blocks512(jp.size)) <==> |bytes| % BSIZE != 0
    ensures |bytes| % BSIZE != 0 ==> Stored(v, jp, bytes + Padding(|bytes|)) && Tight(v, jp, Blocks512(jp.size))
  {
    forall k | 0 <= k < SLOTS ensures Addr(v, jp, k) == Addr(v, ip, k) {
    }
    forall o | 0 <= o < MAXBYTES ensures Data(v, jp, o) == Data(v, ip, o) {
    }
    hide Addr, Data;
    if |bytes| % BSIZE == 0 {
      assert Addr(v, jp, Slot(|bytes| / BSIZE)) == 0;
    }
  }

  lemma SameFill(v: Disk, u: Disk, inodes: Inodes, i: nat, hi: nat)
    requires i in inodes && SameRefs(v, u, inodes)
    ensures Filled(v, inodes[i], 0, hi) <==> Filled(u, inodes[i], 0, hi)
  {
    hide Addr;
    assert SameRefsOf(v, u, inodes[i]);
  }

  lemma NoBits()
    ensures forall k :: 0 <= k < BPB ==> !BitOf(Zeroes(), k)
  {
    forall k | 0 <= k < BPB ensures !BitOf(Zeroes(), k) {
      NoBit(k % 8);
    }
  }

  lemma NoBit(k: nat)
    ensures !TestBit(0, k)
  {
    if k > 0 {
      NoBit(k - 1);
    }
  }

  /** With the first bitmap block written, the bitmap marks the metadata and exactly the blocks in use. */
  lemma BitmapWritten(sb: Super, v: Disk, inodes: Inodes, owner: Owner, free: nat, buf: Block)
    requires Sane(sb, v) && Frontier(sb, v, owner, free) && free < BPB
    requires forall x :: 0 <= x < |v| && IsBitmap(sb, x) ==> v[x] == Zeroes()
    requires forall k :: 0 <= k < BPB ==> (BitOf(buf, k) <==> k < free)
    ensures sb.ninodes / IPB + 3 < |v| && BitsAre(sb, v[sb.ninodes / IPB + 3 := buf], owner.Keys)
  {
    hide BitOf;
    NoBits();
    var x := sb.ninodes / IPB + 3;
    var u := v[x := buf];
    forall b | 0 <= b < sb.size ensures Bit(sb, u, b) <==> b < FirstData(sb) || b in owner.Keys {
      BitmapIsMetadata(sb, b);
      if b < BPB {
        assert BBlock(b, sb.ninodes) == x && b % BPB == b;
      }
    }
  }

  lemma BitmapInPlace(sb: Super, v: Disk, inodes: Inodes, owner: Owner, files: Files, free: nat, freeinode: nat,
      buf: Block)
    requires Base(sb, v, inodes, owner, free, freeinode) && OthersStored(sb, v, inodes, files, 0) && free < BPB
    requires forall k :: 0 <= k < BPB ==> (BitOf(buf, k) <==> k < free)
    ensures sb.ninodes / IPB + 3 < |v|
    ensures var u := v[sb.ninodes / IPB + 3 := buf];
      Refs(sb, u, inodes, owner) && BitsAre(sb, u, owner.Keys) && OthersStored(sb, u, inodes, files, 0) && u[1] == v[1]
  {
    hide SuperOf, OthersStored, Refs, BitsAre, BitOf, Frontier, SameFiles, SameRefs;
    var x := sb.ninodes / IPB + 3;
    OwnedIsData(sb, v, inodes, owner);
    UnownedWrite(sb, v, inodes, owner, x, buf);
    BitmapWritten(sb, v, inodes, owner, free, buf);
    FilesKept(sb, v, v[x := buf], inodes, files, x);
  }

  lemma FilesKept(sb: Super, v: Disk, u: Disk, inodes: Inodes, files: Files, x: nat)
    requires Sane(sb, v) && Sane(sb, u) && |u| == |v| && SameFiles(v, inodes, u, inodes) && SameRefs(v, u, inodes)
    requires (forall y :: 0 <= y < |v| && y != x ==> u[y] == v[y]) && IsBitmap(sb, x)
    requires OthersStored(sb, v, inodes, files, 0)
    ensures OthersStored(sb, u, inodes, files, 0)
  {
    hide Data, Addr, GetDinode;
    forall h | h in inodes && h != 0 ensures FileStored(sb, u, inodes, files, h) {
      assert FileStored(sb, v, inodes, files, h);
      assert SameData(v, inodes[h], u, inodes[h]) && SameRefsOf(v, u, inodes[h]);
      StoredSame(v, u, inodes[h], files[h]);
      InodeBelowData(sb, h);
    }
  }

  lemma AllButOne(sb: Super, v: Disk, inodes: Inodes, files: Files, i: nat)
    requires Sane(sb, v) && OthersStored(sb, v, inodes, files, 0) && 0 !in inodes && i in inodes
    ensures OthersStored(sb, v, inodes, files, i) && FileStored(sb, v, inodes, files, i)
  {
    hide Data, Addr, GetDinode, Stored, Filled;
  }

  lemma StoredSize(v: Disk, ip: Inode, bytes: seq<Byte>)
    requires Stored(v, ip, bytes)
    ensures ip.size == |bytes| <= MAXBYTES
  {
  }

  predicate LinksKept(was: Inodes, now: Inodes) { forall i :: i in was ==> i in now && now[i].nlink == was[i].nlink }

  lemma Relinked(inodes: Inodes, i: nat, size: Uint)
    requires i in inodes
    ensures LinksKept(inodes, inodes[i := inodes[i].(size := size)])
  {
  }

  lemma SameLinks(n0: Inodes, n1: Inodes, n2: Inodes, n3: Inodes, i: nat)
    requires LinksKept(n0, n1) && LinksKept(n1, n2) && LinksKept(n2, n3) && i in n0
    ensures i in n3 && n3[i].nlink == n0[i].nlink
  {
  }

  lemma KeysKept(sb: Super, v: Disk, inodes: Inodes, own: Owner, u: Disk, jnodes: Inodes, now: Owner, i: nat)
    requires Appended(sb, v, inodes, own, u, jnodes, now, i)
    ensures jnodes.Keys == inodes.Keys && (jnodes[i].nlink == inodes[i].nlink ==> LinksKept(inodes, jnodes))
  {
  }

  lemma BlockInRange(off: nat, end: nat)
    requires off < end <= MAXBYTES
    ensures off / BSIZE < Blocks512(end) <= MAXFILE
  {
  }

  lemma AppendStep(sb: Super, v0: Disk, nodes0: Inodes, own0: Owner, v: Disk, nodes: Inodes, own: Owner, u: Disk,
      jnodes: Inodes, now: Owner,
                   i: nat, size: nat, p: seq<Byte>, tot: nat, m: nat)
    requires 0 < m && tot + m <= |p| && size + |p| <= MAXBYTES && (tot == 0 || (size + tot) % BSIZE == 0)
    requires (size + tot) % BSIZE + m <= BSIZE && (tot + m == |p| || (size + tot) % BSIZE + m == BSIZE)
    requires Appended(sb, v0, nodes0, own0, v, nodes, own, i) && Appended(sb, v, nodes, own, u, jnodes, now, i)
    requires i in nodes0 && i in nodes && i in jnodes && Overlaid(v0, nodes0[i], v, nodes[i], size, p[..tot])
    requires Overlaid(v, nodes[i], u, jnodes[i], size + tot, p[tot..tot + m]) &&
      Filled(v, nodes[i], 0, Blocks512(size + tot))
    requires Tight(v, nodes[i], Blocks512(size + tot))
    requires Grown(v, nodes[i], u, jnodes[i], (size + tot) / BSIZE) &&
      Addr(u, jnodes[i], Slot((size + tot) / BSIZE)) != 0
    ensures Appended(sb, v0, nodes0, own0, u, jnodes, now, i)
    ensures Overlaid(v0, nodes0[i], u, jnodes[i], size, p[..tot + m]) &&
      Filled(u, jnodes[i], 0, Blocks512(size + tot + m))
    ensures Tight(u, jnodes[i], Blocks512(size + tot + m))
    ensures Need(v, nodes[i], (size + tot) / BSIZE) +
      (if tot + m < |p| then |Missing(u, jnodes[i], (size + tot + m) / BSIZE, Blocks512(size + |p|))| else 0)
              <= |Missing(v, nodes[i], (size + tot) / BSIZE, Blocks512(size + |p|))|
  {
    hide Data, Addr, Missing, Need, Overlaid, Filled, Tight, Appended, Grown;
    AppendedTrans(sb, v0, nodes0, own0, v, nodes, own, u, jnodes, now, i);
    OverlaidMore(v0, nodes0[i], v, nodes[i], u, jnodes[i], size, p[..tot], p[tot..tot + m]);
    assert p[..tot] + p[tot..tot + m] == p[..tot + m];
    FilledOn(v, nodes[i], u, jnodes[i], size + tot, m);
    MissingStep(v, nodes[i], u, jnodes[i], (size + tot) / BSIZE, Blocks512(size + |p|));
  }

  lemma OverlaidNothing(v: Disk, ip: Inode, off: nat)
    ensures Overlaid(v, ip, v, ip, off, [])
  {
    hide Data;
  }

  lemma FilledResized(v: Disk, ip: Inode, jp: Inode, hi: nat)
    requires Filled(v, ip, 0, hi) && Tight(v, ip, hi) && jp.addrs == ip.addrs
    ensures Filled(v, jp, 0, hi) && Tight(v, jp, hi)
  {
    forall bn | 0 <= bn < hi && bn < MAXFILE ensures Addr(v, jp, Slot(bn)) != 0 {
      assert Addr(v, ip, Slot(bn)) != 0;
    }
  }

  lemma FilledOn(v: Disk, ip: Inode, u: Disk, jp: Inode, off: nat, m: nat)
    requires 0 < m && off % BSIZE + m <= BSIZE && off + m <= MAXBYTES && Filled(v, ip, 0, Blocks512(off))
    requires Grown(v, ip, u, jp, off / BSIZE) && Addr(u, jp, Slot(off / BSIZE)) != 0 && Tight(v, ip, Blocks512(off))
    ensures Filled(u, jp, 0, Blocks512(off + m)) && Tight(u, jp, Blocks512(off + m))
  {
    hide Addr;
    GrownKeeps(v, ip, u, jp, off / BSIZE);
  }

  lemma StoredAppend(v: Disk, ip: Inode, u: Disk, jp: Inode, bytes: seq<Byte>, p: seq<Byte>)
    requires Stored(v, ip, bytes) && Overlaid(v, ip, u, jp, |bytes|, p) && |bytes| + |p| <= MAXBYTES
    requires jp == ip.(addrs := jp.addrs)
    ensures var kp := jp.(size := |bytes| + |p|); Stored(u, kp, bytes + p)
  {
    var kp := jp.(size := |bytes| + |p|);
    forall o | 0 <= o < MAXBYTES ensures Data(u, kp, o) == Data(u, jp, o) {
    }
    hide Data;
  }

  /** Once its inode is on disk, the grown file is in place like the others. */
  lemma FileGrown(sb: Super, v: Disk, inodes: Inodes, u: Disk, jnodes: Inodes, files: Files, files': Files, i: nat)
    requires Sane(sb, v) && Sane(sb, u) && i in jnodes && jnodes == inodes[i := jnodes[i]] && |u| == |v|
    requires 0 < i < sb.ninodes && 0 !in inodes && i in files' && files' == files[i := files'[i]]
    requires OthersStored(sb, v, inodes, files, i)
    requires SameFiles(v, jnodes, u, jnodes) && SameRefs(v, u, jnodes)
    requires Stored(v, jnodes[i], files'[i]) && Filled(v, jnodes[i], 0, Blocks512(jnodes[i].size)) &&
      Tight(v, jnodes[i], Blocks512(jnodes[i].size))
    requires forall j :: 0 <= j < sb.ninodes ==> DiskInode(u, j) == if j == i then jnodes[i] else DiskInode(v, j)
    ensures OthersStored(sb, u, jnodes, files', 0)
  {
    hide Data, Addr, GetDinode;
    forall h | h in jnodes ensures FileStored(sb, u, jnodes, files', h) {
      assert h != i ==> FileStored(sb, v, inodes, files, h);
      assert SameData(v, jnodes[h], u, jnodes[h]) && SameRefsOf(v, u, jnodes[h]);
      StoredSame(v, u, jnodes[h], files'[h]);
    }
  }

  lemma AddrOwned(sb: Super, v: Disk, inodes: Inodes, owner: Owner, i: nat, k: nat)
    requires Refs(sb, v, inodes, owner) && i in inodes && k < SLOTS && Addr(v, inodes[i], k) != 0
    ensures Addr(v, inodes[i], k) in owner && FirstData(sb) <= Addr(v, inodes[i], k) < LogStart(sb) &&
      Addr(v, inodes[i], k) < |v|
  {
    assert RefsOf(v, i, inodes[i], owner);
    OwnedIsData(sb, v, inodes, owner);
  }

  lemma BlockAppended(sb: Super, v: Disk, inodes: Inodes, own: Owner, mid: Disk, u: Disk, jnodes: Inodes, now: Owner,
      i: nat, x: nat)
    requires Appended(sb, v, inodes, own, mid, jnodes, now, i) && FirstData(sb) <= x < |mid| && |u| == |mid|
    requires u == mid[x := u[x]] && forall h :: h in jnodes && h != i ==> SameData(mid, jnodes[h], u, jnodes[h])
    ensures Appended(sb, v, inodes, own, u, jnodes, now, i)
  {
    hide Data, SameData;
    forall h | h in inodes && h != i ensures SameData(v, inodes[h], u, inodes[h]) {
      assert jnodes[h] == inodes[h];
      SameDataTrans(v, inodes[h], mid, inodes[h], u, inodes[h]);
    }
  }

  lemma OverlaidAfter(v: Disk, ip: Inode, mid: Disk, u: Disk, jp: Inode, off: nat, src: seq<Byte>)
    requires SameData(v, ip, mid, jp) && Overlaid(mid, jp, u, jp, off, src)
    ensures Overlaid(v, ip, u, jp, off, src)
  {
    hide Data;
  }

  lemma AppendedNothing(sb: Super, v: Disk, inodes: Inodes, owner: Owner, i: nat)
    requires i in inodes
    ensures Appended(sb, v, inodes, owner, v, inodes, owner, i) && SameData(v, inodes[i], v, inodes[i])
  {
    hide Data;
  }

  lemma AppendedTrans(sb: Super, v: Disk, inodes: Inodes, own: Owner, u: Disk, jnodes: Inodes, mid: Owner, w: Disk,
      knodes: Inodes, now: Owner, i: nat)
    requires Appended(sb, v, inodes, own, u, jnodes, mid, i) && Appended(sb, u, jnodes, mid, w, knodes, now, i)
    ensures Appended(sb, v, inodes, own, w, knodes, now, i)
  {
    hide Data, SameData;
    forall h | h in inodes && h != i ensures SameData(v, inodes[h], w, inodes[h]) {
      assert jnodes[h] == inodes[h];
      SameDataTrans(v, inodes[h], u, inodes[h], w, inodes[h]);
    }
  }

  lemma AtFrontier(sb: Super, v: Disk, owner: Owner, free: nat)
    requires Sane(sb, v) && Frontier(sb, v, owner, free) && free < LogStart(sb)
    ensures Fresh(sb, v, owner, free) && free != 0
  {
  }

  lemma FrontierMoves(sb: Super, v: Disk, owner: Owner, free: nat, slot: (nat, nat))
    requires Frontier(sb, v, owner, free) && free < LogStart(sb)
    ensures Frontier(sb, v, owner[free := slot], free + 1) && OwnerGrown(owner, owner[free := slot])
  {
  }

  lemma FrontierWrite(sb: Super, v: Disk, owner: Owner, free: nat, x: nat, blk: Block)
    requires Sane(sb, v) && Frontier(sb, v, owner, free) && x in owner
    ensures x < |v| && Frontier(sb, v[x := blk], owner, free) && FirstData(sb) <= x
  {
  }
}

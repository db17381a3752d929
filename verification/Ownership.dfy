/** Which inode refers to which block, and what the bytes of every file are (kernel/fs.c, block mapping). */
module Ownership {
  import opened Ints
  import opened Blocks
  import opened Bitmap
  import opened Layout

  const SLOTS: nat := NDIRECT + 1 + NINDIRECT   // direct, the indirect block itself, its entries
  const MAXBYTES: nat := MAXFILE * BSIZE

  type Inodes = map<nat, Inode>
  type Owner = map<nat, (nat, nat)>             // block number -> (inode number, slot)

  /** The block number in slot k of an inode: an element of addrs, or an entry of the indirect block. */
  function Addr(v: Disk, ip: Inode, k: nat): Uint
    requires k < SLOTS
  {
    if k <= NDIRECT then ip.addrs[k]
    else if ip.addrs[NDIRECT] == 0 || ip.addrs[NDIRECT] >= |v| then 0
    else Word(v[ip.addrs[NDIRECT]], k - NDIRECT - 1)
  }

  /** The slot bmap consults for the bn-th block of a file. */
  function Slot(bn: nat): (k: nat)
    requires bn < MAXFILE
    ensures k < SLOTS && k != NDIRECT
  {
    if bn < NDIRECT then bn else bn + 1
  }

  ghost predicate RefsOf(v: Disk, i: nat, ip: Inode, owner: Owner) {
    && ip.addrs[NDIRECT] < |v|
    && forall k :: 0 <= k < SLOTS && Addr(v, ip, k) != 0 ==> Addr(v, ip, k) in owner && owner[Addr(v, ip, k)] == (i, k)
  }

  ghost predicate OwnedAt(sb: Super, v: Disk, inodes: Inodes, owner: Owner, b: nat)
    requires b in owner
  {
    && FirstData(sb) <= b < LogStart(sb)
    && owner[b].0 in inodes && owner[b].1 < SLOTS
    && Addr(v, inodes[owner[b].0], owner[b].1) == b
  }

  /** References and ownership mirror each other: no block is referenced twice, none outside the data area. */
  ghost predicate Refs(sb: Super, v: Disk, inodes: Inodes, owner: Owner) {
    && Sane(sb, v)
    && (forall i :: i in inodes ==> RefsOf(v, i, inodes[i], owner))
    && (forall b :: b in owner ==> OwnedAt(sb, v, inodes, owner, b))
  }

  /** Byte o of a file; a block never written reads as zeroes. */
  function Data(v: Disk, ip: Inode, o: nat): Byte
    requires o < MAXBYTES
  {
    var a := Addr(v, ip, Slot(o / BSIZE));
    if a == 0 || a >= |v| then 0 else v[a].bytes[o % BSIZE]
  }

  ghost predicate SameData(v: Disk, ip: Inode, u: Disk, jp: Inode) {
    forall o :: 0 <= o < MAXBYTES ==> Data(v, ip, o) == Data(u, jp, o)
  }

  ghost predicate SameFiles(v: Disk, inodes: Inodes, u: Disk, jnodes: Inodes) {
    && inodes.Keys == jnodes.Keys
    && forall i :: i in inodes ==> SameData(v, inodes[i], u, jnodes[i])
  }

  ghost predicate SameRefsOf(v: Disk, u: Disk, ip: Inode) {
    forall k :: 0 <= k < SLOTS ==> Addr(u, ip, k) == Addr(v, ip, k)
  }

  ghost predicate SameRefs(v: Disk, u: Disk, inodes: Inodes) {
    forall i :: i in inodes ==> SameRefsOf(v, u, inodes[i])
  }

  lemma OwnedIsData(sb: Super, v: Disk, inodes: Inodes, owner: Owner)
    requires Refs(sb, v, inodes, owner)
    ensures forall b :: b in owner ==> FirstData(sb) <= b < LogStart(sb)
  {
    forall b | b in owner ensures FirstData(sb) <= b < LogStart(sb) {
      assert OwnedAt(sb, v, inodes, owner, b);
    }
  }

  /** A change that touches no indirect block keeps every reference. */
  lemma RefsFrame(sb: Super, v: Disk, u: Disk, inodes: Inodes, owner: Owner)
    requires Refs(sb, v, inodes, owner) && |u| == |v|
    requires forall b :: b in owner && owner[b].1 == NDIRECT ==> u[b] == v[b]
    ensures Refs(sb, u, inodes, owner) && SameRefs(v, u, inodes)
  {
    forall i | i in inodes ensures SameRefsOf(v, u, inodes[i]) && RefsOf(u, i, inodes[i], owner) {
      assert RefsOf(v, i, inodes[i], owner);
      assert Addr(v, inodes[i], NDIRECT) == inodes[i].addrs[NDIRECT];
      assert SameRefsOf(v, u, inodes[i]);
    }
    forall b | b in owner ensures OwnedAt(sb, u, inodes, owner, b) {
      assert OwnedAt(sb, v, inodes, owner, b);
      assert SameRefsOf(v, u, inodes[owner[b].0]);
    }
  }

  /** A change that touches no block of a file keeps its bytes. */
  lemma DataFrame(v: Disk, u: Disk, i: nat, ip: Inode, owner: Owner)
    requires |u| == |v| && RefsOf(v, i, ip, owner)
    requires forall b :: b in owner && owner[b].0 == i && b < |v| ==> u[b] == v[b]
    ensures SameData(v, ip, u, ip)
  {
    assert Addr(v, ip, NDIRECT) == ip.addrs[NDIRECT];
    forall o | 0 <= o < MAXBYTES ensures Data(v, ip, o) == Data(u, ip, o) {
      var k := Slot(o / BSIZE);
      assert Addr(u, ip, k) == Addr(v, ip, k);
    }
  }

  /** Writing a block nobody owns: references and files stay as they are. */
  lemma UnownedWrite(sb: Super, v: Disk, inodes: Inodes, owner: Owner, x: nat, blk: Block)
    requires Refs(sb, v, inodes, owner) && x < |v| && x !in owner
    ensures Refs(sb, v[x := blk], inodes, owner) && SameRefs(v, v[x := blk], inodes)
    ensures SameFiles(v, inodes, v[x := blk], inodes)
  {
    var u := v[x := blk];
    RefsFrame(sb, v, u, inodes, owner);
    forall i | i in inodes ensures SameData(v, inodes[i], u, inodes[i]) {
      DataFrame(v, u, i, inodes[i], owner);
    }
  }

  /** A block number that may be handed to an inode: in the data area, owned by nobody, zeroed. */
  ghost predicate Fresh(sb: Super, v: Disk, owner: Owner, b: nat) {
    && FirstData(sb) <= b < LogStart(sb) && b !in owner
    && b < |v| && v[b] == Zeroes()
  }

  /** bmap stores a fresh block in an empty element of addrs; every file keeps its bytes. */
  lemma LinkDirect(sb: Super, v: Disk, inodes: Inodes, owner: Owner, i: nat, k: nat, b: Uint)
    requires Refs(sb, v, inodes, owner) && Fresh(sb, v, owner, b)
    requires i in inodes && k <= NDIRECT && inodes[i].addrs[k] == 0
    ensures var jp := inodes[i].(addrs := inodes[i].addrs[k := b]);
      && Refs(sb, v, inodes[i := jp], owner[b := (i, k)])
      && SameFiles(v, inodes, v, inodes[i := jp])
      && forall j :: 0 <= j < SLOTS ==> Addr(v, jp, j) == if j == k then b else Addr(v, inodes[i], j)
  {
    hide Word;
    var ip := inodes[i];
    var jp := ip.(addrs := ip.addrs[k := b]);
    var jnodes, own := inodes[i := jp], owner[b := (i, k)];
    assert RefsOf(v, i, ip, owner);
    forall j | 0 <= j < SLOTS ensures Addr(v, jp, j) == if j == k then b else Addr(v, ip, j) {
      if j > NDIRECT && k == NDIRECT { WordOfZeroes(j - NDIRECT - 1); }
    }
    forall o | 0 <= o < MAXBYTES ensures Data(v, ip, o) == Data(v, jp, o) {
      assert Addr(v, jp, Slot(o / BSIZE)) == if Slot(o / BSIZE) == k then b else Addr(v, ip, Slot(o / BSIZE));
    }
    forall h | h in jnodes ensures RefsOf(v, h, jnodes[h], own) {
      assert RefsOf(v, h, inodes[h], owner);
    }
    forall c | c in own ensures OwnedAt(sb, v, jnodes, own, c) {
      if c != b { assert OwnedAt(sb, v, inodes, owner, c); }
    }
    forall h | h in inodes ensures SameData(v, inodes[h], v, jnodes[h]) {
      assert RefsOf(v, h, inodes[h], owner);
    }
  }

  /** bmap stores a fresh block in an empty entry of the indirect block; every file keeps its bytes. */
  lemma LinkIndirect(sb: Super, v: Disk, inodes: Inodes, owner: Owner, i: nat, j: nat, b: Uint)
    requires Refs(sb, v, inodes, owner) && Fresh(sb, v, owner, b)
    requires i in inodes && j < NINDIRECT && inodes[i].addrs[NDIRECT] != 0
    requires inodes[i].addrs[NDIRECT] < |v| && Word(v[inodes[i].addrs[NDIRECT]], j) == 0
    ensures var x := inodes[i].addrs[NDIRECT];
      var u := v[x := PutWord(v[x], j, b)];
      && Refs(sb, u, inodes, owner[b := (i, NDIRECT + 1 + j)])
      && SameFiles(v, inodes, u, inodes)
      && forall k :: 0 <= k < SLOTS ==>
        Addr(u, inodes[i], k) == if k == NDIRECT + 1 + j then b else Addr(v, inodes[i], k)
  {
    hide Word, PutWord;
    var ip := inodes[i];
    var x := ip.addrs[NDIRECT];
    var u := v[x := PutWord(v[x], j, b)];
    var own := owner[b := (i, NDIRECT + 1 + j)];
    assert RefsOf(v, i, ip, owner) && Addr(v, ip, NDIRECT) == x && Addr(v, ip, NDIRECT + 1 + j) == 0;
    IndirectEntry(v, ip, j, b);
    forall o | 0 <= o < MAXBYTES ensures Data(v, ip, o) == Data(u, ip, o) {
      var k := Slot(o / BSIZE);
      assert Addr(u, ip, k) == if k == NDIRECT + 1 + j then b else Addr(v, ip, k);
      assert Addr(v, ip, k) != x;
    }
    forall h | h in inodes && h != i
      ensures RefsOf(u, h, inodes[h], own) && SameData(v, inodes[h], u, inodes[h]) && SameRefsOf(v, u, inodes[h])
    {
      assert RefsOf(v, h, inodes[h], owner);
      OtherInode(v, u, h, inodes[h], owner, b, (i, NDIRECT + 1 + j), x);
    }
    forall c | c in own ensures OwnedAt(sb, u, inodes, own, c) {
      if c != b {
        assert OwnedAt(sb, v, inodes, owner, c);
        var h := owner[c].0;
        assert h != i ==> SameRefsOf(v, u, inodes[h]);
      }
    }
  }

  lemma IndirectEntry(v: Disk, ip: Inode, j: nat, b: Uint)
    requires j < NINDIRECT && 0 < ip.addrs[NDIRECT] < |v|
    ensures var u := v[ip.addrs[NDIRECT] := PutWord(v[ip.addrs[NDIRECT]], j, b)];
      forall k :: 0 <= k < SLOTS ==> Addr(u, ip, k) == if k == NDIRECT + 1 + j then b else Addr(v, ip, k)
  {
    hide Word, PutWord;
    var x := ip.addrs[NDIRECT];
    var u := v[x := PutWord(v[x], j, b)];
    forall k | 0 <= k < SLOTS ensures Addr(u, ip, k) == if k == NDIRECT + 1 + j then b else Addr(v, ip, k) {
      if k > NDIRECT { WordPutWord(v[x], j, b, k - NDIRECT - 1); }
    }
  }

  /** An inode that does not refer to block x keeps its references and its bytes when x changes and b gets an owner. */
  lemma OtherInode(v: Disk, u: Disk, h: nat, ip: Inode, owner: Owner, b: nat, slot: (nat, nat), x: nat)
    requires RefsOf(v, h, ip, owner) && b !in owner && x in owner && owner[x].0 != h
    requires |u| == |v| && forall y :: 0 <= y < |v| && y != x ==> u[y] == v[y]
    ensures SameRefsOf(v, u, ip) && RefsOf(u, h, ip, owner[b := slot]) && SameData(v, ip, u, ip)
  {
    hide Word;
    assert Addr(v, ip, NDIRECT) == ip.addrs[NDIRECT];
    DataFrame(v, u, h, ip, owner);
  }

  /** Writing the bn-th block of a file changes the bytes of that block of that file and no others. */
  lemma WriteData(sb: Super, v: Disk, inodes: Inodes, owner: Owner, i: nat, bn: nat, blk: Block)
    requires Refs(sb, v, inodes, owner) && i in inodes && bn < MAXFILE
    requires Addr(v, inodes[i], Slot(bn)) != 0
    ensures var x := Addr(v, inodes[i], Slot(bn));
      && FirstData(sb) <= x < LogStart(sb)
      && Refs(sb, v[x := blk], inodes, owner)
      && (forall k :: 0 <= k < SLOTS ==> Addr(v[x := blk], inodes[i], k) == Addr(v, inodes[i], k))
      && (forall h :: h in inodes && h != i ==> SameData(v, inodes[h], v[x := blk], inodes[h]))
      && (forall o :: 0 <= o < MAXBYTES ==>
            Data(v[x := blk], inodes[i], o) == if o / BSIZE == bn then blk.bytes[o % BSIZE] else Data(v, inodes[i], o))
  {
    var ip := inodes[i];
    var x := Addr(v, ip, Slot(bn));
    var u := v[x := blk];
    assert RefsOf(v, i, ip, owner);
    assert OwnedAt(sb, v, inodes, owner, x);
    RefsFrame(sb, v, u, inodes, owner);
    forall h | h in inodes && h != i ensures SameData(v, inodes[h], u, inodes[h]) {
      DataFrame(v, u, h, inodes[h], owner);
    }
    forall o | 0 <= o < MAXBYTES
      ensures Data(u, ip, o) == if o / BSIZE == bn then blk.bytes[o % BSIZE] else Data(v, ip, o)
    {
      var k := Slot(o / BSIZE);
      assert Addr(u, ip, k) == Addr(v, ip, k);
    }
  }

  ghost function BlocksOf(owner: Owner, i: nat): set<nat> {
    set b | b in owner && owner[b].0 == i
  }

  /** Dropping all references of one inode: exactly its blocks become unowned, every other block keeps its owner and
      slot. */
  lemma Truncated(sb: Super, v: Disk, inodes: Inodes, owner: Owner, i: nat, jp: Inode)
    requires Refs(sb, v, inodes, owner) && i in inodes && jp.addrs == FREE_INODE.addrs
    ensures Refs(sb, v, inodes[i := jp], owner - BlocksOf(owner, i))
    ensures forall k :: 0 <= k < SLOTS ==> Addr(v, jp, k) == 0
  {
    var jnodes, own := inodes[i := jp], owner - BlocksOf(owner, i);
    forall h | h in jnodes ensures RefsOf(v, h, jnodes[h], own) {
      assert RefsOf(v, h, inodes[h], owner);
    }
    forall c | c in own ensures OwnedAt(sb, v, jnodes, own, c) {
      assert OwnedAt(sb, v, inodes, owner, c);
    }
  }
}

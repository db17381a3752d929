/** filewrite (kernel/file.c) and what its transactions mean on disk, crash or no crash. */
module File {
  import opened Ints
  import opened Sets
  import opened Blocks
  import opened Bitmap
  import opened Layout
  import opened Ownership
  import opened Bio
  import opened Log
  import opened Fs
  import J = Journal

  const CHUNK: nat := (LOGSIZE - 1 - 1 - 2) / 2 * 512

  // ---- how many sectors a chunk logs ----

  /** At most the indirect block and one block per block number in range. */
  lemma WriteSectorsCount(v: Disk, ip: Inode, lo: nat, hi: nat)
    requires lo <= hi <= MAXFILE
    ensures |WriteSectors(v, ip, lo, hi)| <= hi - lo + 1
    decreases hi - lo
  {
    hide Addr;
    var was := WriteSectors(v, ip, lo, hi);
    if lo == hi {
      forall s | s in was ensures s == Addr(v, ip, NDIRECT) {
      }
      assert was <= {Addr(v, ip, NDIRECT)};
      SubsetCount(was, {Addr(v, ip, NDIRECT)});
    } else {
      var less := WriteSectors(v, ip, lo + 1, hi);
      WriteSectorsCount(v, ip, lo + 1, hi);
      forall s | s in was ensures s in less || s == Addr(v, ip, Slot(lo)) {
        var k :| 0 <= k < SLOTS && (k == NDIRECT || SlotIn(k, lo, hi)) && Addr(v, ip, k) != 0 && s == Addr(v, ip, k);
        assert k == Slot(lo) || k == NDIRECT || SlotIn(k, lo + 1, hi);
      }
      assert was <= less + {Addr(v, ip, Slot(lo))};
      SubsetCount(was, less + {Addr(v, ip, Slot(lo))});
    }
  }

  /** The log-size bound: a chunk logs at most four data blocks, the indirect block, the inode block and the bitmap
      blocks; seven sectors on an image with one bitmap block. */
  lemma ChunkFitsLog(sb: Super, v: Disk, ip: Inode, i: nat, off: nat, n: nat, ws: seq<Write>)
    requires n <= CHUNK && off + n <= MAXBYTES
    requires LogsOnly(sb, [], ws, WriteSectors(v, ip, off / BSIZE, Blocks512(off + n)) + {IBlock(i)})
    ensures |Slots(ws)| <= sb.size / BPB + 7
  {
    hide WriteSectors;
    var lo, hi := off / BSIZE, Blocks512(off + n);
    WriteSectorsCount(v, ip, lo, hi);
    assert hi - lo <= 4;
    BitmapCount(sb);
    var all := WriteSectors(v, ip, lo, hi) + {IBlock(i)} + Bitmaps(sb);
    assert Logged([]) == {};
    assert Logged(ws) <= all;
    SubsetCount(Logged(ws), all);
    SlotsCount(ws);
  }

  /** What a chunk has logged can be committed. */
  lemma ChunkLogged(sb: Super, o: nat, v: Disk, ip: Inode, i: nat, size: nat, off: Uint, n: nat, ws: seq<Write>)
    requires ChunksFit(sb, o) && n <= CHUNK
    requires if Writable(size, off, n) then
      LogsOnly(sb, [], ws, WriteSectors(v, ip, off / BSIZE, Blocks512(off + n)) + {IBlock(i)}) else ws == []
    ensures |Logged(ws)| + o < NBUF
  {
    hide WriteSectors, LogsOnly, Logged, Slots;
    if Writable(size, off, n) {
      ChunkFitsLog(sb, v, ip, i, off, n, ws);
    } else {
      NothingSlotted();
    }
    SlotsCount(ws);
  }

  /** Log and cache are large enough for a chunk (four data blocks, the indirect block, the inode block and the bitmap
      blocks), the cache besides o buffers that others hold. */
  predicate ChunksFit(sb: Super, o: nat) {
    sb.size / BPB + 7 < Capacity(sb) && sb.size / BPB + 7 + o < NBUF
  }

  /** One bitmap block for every BPB blocks. */
  lemma BitmapCount(sb: Super)
    ensures |Bitmaps(sb)| == sb.size / BPB + 1
  {
    var lo, n := sb.ninodes / IPB + 3, sb.size / BPB + 1;
    RangeCount(lo, n);
    forall s: nat ensures s in Bitmaps(sb) <==> s in Range(lo, n) {
      assert IsBitmap(sb, s) <==> lo <= s < lo + n;
    }
    assert Bitmaps(sb) == Range(lo, n);
  }

  ghost function Range(lo: nat, n: nat): (r: set<nat>)
    ensures forall x: nat :: x in r <==> lo <= x < lo + n
  {
    if n == 0 then {} else Range(lo, n - 1) + {lo + n - 1}
  }

  lemma RangeCount(lo: nat, n: nat)
    ensures |Range(lo, n)| == n
  {
    if n > 0 {
      RangeCount(lo, n - 1);
    }
  }

  /** No chunk runs out of buffers or of log: a transaction that begins empty has room for all a chunk may hold and
      log. */
  lemma ChunkRoom(sb: Super, o: nat, ip: Inode, i: nat, off: nat, n: nat)
    requires ChunksFit(sb, o) && 0 < n <= CHUNK
    ensures WriteRoom(sb, o, [], ip, i, BlocksLeft(off, n)) && WriteRoom(sb, o, [], ip, i, 0)
  {
    BitmapCount(sb);
    assert BlocksLeft(off, n) <= 4;
    var all := Bitmaps(sb) + Indirect(ip) + {IBlock(i)};
    assert Logged([]) == {};
    assert {} + Logged([]) + all == all;
    assert |all| + Spare(ip) <= |Bitmaps(sb)| + 2;
  }

  // ---- a crash at any sector write of a transaction ----

  /** A disk that holds these files: block ownership and bitmap in order, each inode on disk, each file with its
      bytes. */
  ghost predicate Holds(sb: Super, d: Disk, v: Disk, inodes: Inodes, owner: Owner) {
    && Refs(sb, d, inodes, owner) && BitsAre(sb, d, owner.Keys)
    && (forall i :: i in inodes ==> FileOk(sb, d, inodes, i) && SameData(v, inodes[i], d, inodes[i]))
  }

  /** What Consistent says of the disk. */
  ghost predicate FilesOn(sb: Super, d: Disk, inodes: Inodes, owner: Owner) {
    Sane(sb, d) && Refs(sb, d, inodes, owner) && BitsAre(sb, d, owner.Keys) && forall i :: i in inodes ==>
      FileOk(sb, d, inodes, i)
  }

  /** The file system lives below the log: a disk that agrees there holds the same files. */
  lemma BelowLogDecides(sb: Super, v: Disk, d: Disk, inodes: Inodes, owner: Owner)
    requires FilesOn(sb, v, inodes, owner)
    requires |d| == |v| && forall s :: 0 <= s < LogStart(sb) ==> d[s] == v[s]
    ensures Holds(sb, d, v, inodes, owner)
  {
    hide Addr, GetDinode, BitOf;
    OwnedIsData(sb, v, inodes, owner);
    RefsFrame(sb, v, d, inodes, owner);
    forall b | 0 <= b < sb.size ensures Bit(sb, d, b) <==> Bit(sb, v, b) {
      BitmapIsMetadata(sb, b);
    }
    forall i | i in inodes ensures FileOk(sb, d, inodes, i) && SameData(v, inodes[i], d, inodes[i]) {
      assert FileOk(sb, v, inodes, i) && SameRefsOf(v, d, inodes[i]);
      DataFrame(v, d, i, inodes[i], owner);
    }
  }

  /** Crash a file system transaction after any p sector writes, crash its recovery wherever and as often as you like:
      the recovered disk holds all the old files if the header write had not happened, all the new ones if it had. */
  lemma TransactionCrashSafe(sb: Super, a: Area, d: Disk, ws: seq<Write>, e: Disk, p: nat, crashes: seq<nat>,
                             inodes: Inodes, own: Owner, jnodes: Inodes, now: Owner)
    requires a.start == LogStart(sb) && a.size == sb.nlog && WellFormed(a, d) && Word(d[a.start], 0) == 0 &&
      Fits(a, d, ws)
    requires TransOk(a, d, LogBlocks(a, ws), Slots(ws)) && p <= |TransTrace(a, d, LogBlocks(a, ws), Slots(ws))|
    requires FilesOn(sb, d, inodes, own) && FilesOn(sb, e, jnodes, now)
    requires |e| == |d| && forall s :: 0 <= s < LogStart(sb) ==> e[s] == Apply(d, ws)[s]
    ensures var f := Apply(d, TransTrace(a, d, LogBlocks(a, ws), Slots(ws))[..p]);
      && WellFormed(a, f)
      && (p <= |ws| ==> Holds(sb, CrashRun(a, f, crashes), d, inodes, own))
      && (p > |ws| ==> Holds(sb, CrashRun(a, f, crashes), e, jnodes, now))
  {
    hide Apply, TransTrace, LogBlocks, Slots, WellFormed, Refs, BitsAre, FileOk, Holds, CrashRun, TransOk, SameLogical;
    CrashAtomicityOfRun(a, d, ws, p, crashes);
    var f := Apply(d, TransTrace(a, d, LogBlocks(a, ws), Slots(ws))[..p]);
    RecoveredSize(a, f, crashes);
    if p <= |ws| {
      BelowLogDecides(sb, d, CrashRun(a, f, crashes), inodes, own);
    } else {
      BelowLogDecides(sb, e, CrashRun(a, f, crashes), jnodes, now);
    }
  }

  /** A disk whose log is empty recovers to itself, as far as the files go. */
  lemma QuietCrash(sb: Super, a: Area, d: Disk, crashes: seq<nat>, inodes: Inodes, own: Owner)
    requires a.start == LogStart(sb) && a.size == sb.nlog && WellFormed(a, d) && Word(d[a.start], 0) == 0 &&
      FilesOn(sb, d, inodes, own)
    ensures Holds(sb, CrashRun(a, d, crashes), d, inodes, own)
  {
    hide Refs, BitsAre, FileOk, Holds, WellFormed, Word, CrashRun;
    var r := CrashRun(a, d, crashes);
    forall s | 0 <= s < LogStart(sb) ensures r[s] == d[s] {
      QuietSector(a, d, r, s);
    }
    BelowLogDecides(sb, d, r, inodes, own);
  }

  lemma QuietSector(a: Area, d: Disk, e: Disk, s: nat)
    requires SameLogical(a, d, e) && s < a.start && Word(d[a.start], 0) == 0 && Word(e[a.start], 0) == 0
    ensures s < |d| && s < |e| && e[s] == d[s]
  {
    hide Word, Loggable;
    assert Head(d[a.start]) == [] && Head(e[a.start]) == [];
    assert Logical(a, e, s) == Logical(a, d, s);
  }

  lemma RecoveredSize(a: Area, d: Disk, crashes: seq<nat>)
    requires WellFormed(a, d)
    ensures |CrashRun(a, d, crashes)| == |d|
  {
  }

  // ---- crash safety of a stretch of sector writes ----

  /** Crash after p writes of t, then in recovery as often as you like: the disk holds the old files, or the new ones if
      the commit point c has been passed. */
  ghost predicate Recovers(sb: Super, a: Area, d: Disk, t: seq<Write>, c: nat, p: nat, crashes: seq<nat>,
                           inodes: Inodes, own: Owner, e: Disk, jnodes: Inodes, now: Owner)
    requires p <= |t|
  {
    var f := Apply(d, t[..p]);
    WellFormed(a, f) && if p <= c then Holds(sb, CrashRun(a, f, crashes), d, inodes, own)
      else Holds(sb, CrashRun(a, f, crashes), e, jnodes, now)
  }

  /** The writes t take the disk d to e, and are atomic: whatever the crash, all the files are as before or all are as
      after. */
  ghost predicate Atomic(sb: Super, a: Area, d: Disk, t: seq<Write>, inodes: Inodes, own: Owner, e: Disk,
      jnodes: Inodes, now: Owner) {
    && e == Apply(d, t)
    && exists c: nat :: AtomicAt(sb, a, d, t, c, inodes, own, e, jnodes, now)
  }

  ghost predicate AtomicAt(sb: Super, a: Area, d: Disk, t: seq<Write>, c: nat,
                           inodes: Inodes, own: Owner, e: Disk, jnodes: Inodes, now: Owner) {
    forall p, crashes :: 0 <= p <= |t| ==> Recovers(sb, a, d, t, c, p, crashes, inodes, own, e, jnodes, now)
  }

  /** An empty transaction issues nothing and changes nothing. */
  lemma CommittedNothing(sb: Super, a: Area, d: Disk, mark: seq<Write>, trace: seq<Write>, e: Disk)
    requires Committed(sb, a, d, [], mark, trace, e)
    ensures e == d && trace == mark
  {
  }

  /** A committed transaction is atomic. */
  lemma CommittedAtomic(sb: Super, a: Area, d: Disk, ws: seq<Write>, mark: seq<Write>, trace: seq<Write>, e: Disk,
                        inodes: Inodes, own: Owner, jnodes: Inodes, now: Owner)
    requires a.start == LogStart(sb) && a.size == sb.nlog && Committed(sb, a, d, ws, mark, trace, e)
    requires FilesOn(sb, d, inodes, own) && FilesOn(sb, e, jnodes, now)
    requires |e| == |d| && forall s :: 0 <= s < LogStart(sb) ==> e[s] == Apply(d, ws)[s]
    ensures mark <= trace && Atomic(sb, a, d, trace[|mark|..], inodes, own, e, jnodes, now)
  {
    hide Apply, TransTrace, LogBlocks, Slots, WellFormed, Refs, BitsAre, FileOk, Holds, CrashRun, TransOk, FilesOn;
    var t := trace[|mark|..];
    assert t == J.Issued(a, d, ws);
    forall p, crashes | 0 <= p <= |t| ensures Recovers(sb, a, d, t, |ws|, p, crashes, inodes, own, e, jnodes, now) {
      if ws == [] {
        NothingLogged(a, d);
        assert t[..p] == [];
        QuietCrash(sb, a, d, crashes, inodes, own);
      } else {
        TransactionCrashSafe(sb, a, d, ws, e, p, crashes, inodes, own, jnodes, now);
      }
    }
    assert AtomicAt(sb, a, d, t, |ws|, inodes, own, e, jnodes, now);
  }

  // ---- the file system object, between transactions ----

  lemma ConsistentFiles(fs: FileSystem)
    requires fs.Consistent()
    ensures FilesOn(fs.sb, fs.view, fs.inodes, fs.owner)
  {
    hide FileSystem.Synced, Refs, BitsAre, Apply, SuperOf, FileOk;
  }

  lemma FilesConsistent(fs: FileSystem)
    requires fs.InTrans() && FilesOn(fs.sb, fs.view, fs.inodes, fs.owner)
    ensures fs.Consistent()
  {
    hide FileSystem.Synced, Refs, BitsAre, Apply, SuperOf, FileOk;
  }

  lemma HeldFiles(sb: Super, d: Disk, v: Disk, inodes: Inodes, own: Owner)
    requires Sane(sb, d) && Holds(sb, d, v, inodes, own)
    ensures FilesOn(sb, d, inodes, own) && forall i :: i in inodes ==> SameData(v, inodes[i], d, inodes[i])
  {
    hide Refs, BitsAre, FileOk, SameData;
  }

  /** Outside a transaction the log is empty. */
  lemma QuietLog(fs: FileSystem)
    requires fs.InTrans() && !fs.log.busy
    ensures fs.log.a.start == LogStart(fs.sb) && fs.log.a.size == fs.sb.nlog && WellFormed(fs.log.a, fs.view) &&
      Word(fs.view[fs.log.a.start], 0) == 0
  {
    hide Word, Loggable;
    fs.StartsEmpty();
  }

  // ---- filewrite ----

  /** Two writes end to end make one write. */
  lemma WroteFileMore(v: Disk, inodes: Inodes, u: Disk, jnodes: Inodes, w: Disk, knodes: Inodes, i: nat, off: nat,
      src: seq<Byte>, more: seq<Byte>)
    requires WroteFile(v, inodes, u, jnodes, i, off, src) && WroteFile(u, jnodes, w, knodes, i, off + |src|, more)
    ensures WroteFile(v, inodes, w, knodes, i, off, src + more)
  {
    hide Data, SameData, Overlaid;
    OverlaidMore(v, inodes[i], u, jnodes[i], w, knodes[i], off, src, more);
    forall h | h in inodes && h != i ensures SameData(v, inodes[h], w, inodes[h]) {
      assert h in jnodes;
      SameDataTrans(v, inodes[h], u, inodes[h], w, inodes[h]);
    }
  }

  lemma WroteFileSame(v: Disk, inodes: Inodes, u: Disk, jnodes: Inodes, w: Disk, i: nat, off: nat, src: seq<Byte>)
    requires WroteFile(v, inodes, u, jnodes, i, off, src) && forall h :: h in jnodes ==>
      SameData(u, jnodes[h], w, jnodes[h])
    ensures WroteFile(v, inodes, w, jnodes, i, off, src)
  {
    hide Data;
    forall h | h in inodes && h != i ensures SameData(v, inodes[h], w, inodes[h]) {
      assert h in jnodes;
      SameDataTrans(v, inodes[h], u, jnodes[h], w, jnodes[h]);
    }
  }

  /** Blocks a chunk has filled are no longer missing; those of the rest were missing before. */
  lemma MissingAfter(v: Disk, ip: Inode, u: Disk, jp: Inode, off: nat, n: nat, end: nat)
    requires off + n <= end <= MAXBYTES && 0 < n
    requires RefsKept(v, ip, u, jp) && Filled(u, jp, off / BSIZE, Blocks512(off + n))
    ensures |Missing(v, ip, off / BSIZE, Blocks512(off + n))| + |Missing(u, jp, (off + n) / BSIZE, Blocks512(end))|
            <= |Missing(v, ip, off / BSIZE, Blocks512(end))|
  {
    var first, rest := Missing(v, ip, off / BSIZE, Blocks512(off + n)),
      Missing(u, jp, (off + n) / BSIZE, Blocks512(end));
    var all := Missing(v, ip, off / BSIZE, Blocks512(end));
    forall k | k in first ensures Addr(u, jp, k) != 0 {
      if k == NDIRECT {
        assert Addr(u, jp, Slot(Blocks512(off + n) - 1)) != 0;
      } else {
        assert k == Slot(if k < NDIRECT then k else k - 1);
      }
    }
    assert first !! rest && first + rest <= all;
    SubsetCount(first + rest, all);
  }

  /** Where a write of n bytes at off ends, cut off at the largest file. */
  function End(off: nat, n: nat): nat {
    if off + n <= MAXBYTES then off + n else MAXBYTES
  }

  lemma MissingMono(v: Disk, ip: Inode, lo: nat, mid: nat, hi: nat)
    requires mid <= hi
    ensures |Missing(v, ip, lo, mid)| <= |Missing(v, ip, lo, hi)|
  {
    SubsetCount(Missing(v, ip, lo, mid), Missing(v, ip, lo, hi));
  }

  /** After a chunk the file reaches at least to the chunk's end, and what is left to allocate shrank by what was
      allocated. */
  lemma ChunkLeaves(sb: Super, v: Disk, inodes: Inodes, own: Owner, u: Disk, jnodes: Inodes, now: Owner, i: nat,
      off: nat, src: seq<Byte>, end: nat)
    requires FilesOn(sb, v, inodes, own) && FilesOn(sb, u, jnodes, now) && OwnerGrown(own, now)
    requires WroteFile(v, inodes, u, jnodes, i, off, src) && 0 < |src| && off + |src| <= end <= MAXBYTES
    ensures i in inodes && i in jnodes && jnodes[i].typ == inodes[i].typ && off + |src| <= jnodes[i].size
    ensures |Missing(v, inodes[i], off / BSIZE, Blocks512(off + |src|))| +
      |Missing(u, jnodes[i], (off + |src|) / BSIZE, Blocks512(end))|
            <= |Missing(v, inodes[i], off / BSIZE, Blocks512(end))|
  {
    hide Addr, Refs, OwnerGrown, Missing, SameData, Overlaid, DiskInode;
    OwnersKeepRefs(sb, v, inodes, own, u, jnodes, now, i);
    assert FileOk(sb, u, jnodes, i);
    MissingAfter(v, inodes[i], u, jnodes[i], off, |src|, end);
  }

  /** The file system after the bytes src have been written, if any have. */
  ghost predicate Sofar(v: Disk, inodes: Inodes, u: Disk, jnodes: Inodes, i: nat, off: nat, src: seq<Byte>) {
    if src == [] then u == v && jnodes == inodes else WroteFile(v, inodes, u, jnodes, i, off, src)
  }

  lemma SofarNothing(v: Disk, inodes: Inodes, i: nat, off: nat, addr: seq<Byte>)
    ensures Sofar(v, inodes, v, inodes, i, off, addr[..0])
  {
  }

  lemma SofarMore(v: Disk, inodes: Inodes, u: Disk, jnodes: Inodes, w: Disk, knodes: Inodes, i: nat, off: nat,
      addr: seq<Byte>, n: nat, m: nat)
    requires n + m <= |addr| && 0 < m
    requires Sofar(v, inodes, u, jnodes, i, off, addr[..n]) &&
      WroteFile(u, jnodes, w, knodes, i, off + n, addr[n..n + m])
    ensures Sofar(v, inodes, w, knodes, i, off, addr[..n + m])
  {
    hide WroteFile;
    assert addr[..n] + addr[n..n + m] == addr[..n + m];
    if n == 0 {
      assert addr[n..n + m] == addr[..n + m];
    } else {
      WroteFileMore(v, inodes, u, jnodes, w, knodes, i, off, addr[..n], addr[n..n + m]);
    }
  }

  /** k bytes are a whole number of chunks, or all n. */
  predicate Boundary(k: nat, n: nat) { k % CHUNK == 0 || k == n }

  lemma NextBoundary(k: nat, n: nat)
    requires Boundary(k, n) && k < n
    ensures Boundary(k + if n - k > CHUNK then CHUNK else n - k, n)
  {
  }

  /** Crashed after p writes of t and recovered, the disk holds the files with the first k bytes of addr written, where
      k is a whole number of chunks or all of them. */
  ghost predicate HasPrefix(sb: Super, a: Area, d: Disk, t: seq<Write>, p: nat, crashes: seq<nat>,
                            inodes: Inodes, i: nat, off: nat, addr: seq<Byte>, done: nat)
    requires p <= |t| && done <= |addr|
  {
    var f := Apply(d, t[..p]);
    WellFormed(a, f) && exists k: nat, u: Disk, jnodes: Inodes, now: Owner ::
      && k <= done && Boundary(k, |addr|)
      && Sofar(d, inodes, u, jnodes, i, off, addr[..k]) && Holds(sb, CrashRun(a, f, crashes), u, jnodes, now)
  }

  ghost predicate Durable(sb: Super, a: Area, d: Disk, t: seq<Write>, inodes: Inodes, i: nat, off: nat,
      addr: seq<Byte>, done: nat)
    requires done <= |addr|
  {
    forall p, crashes :: 0 <= p <= |t| ==> HasPrefix(sb, a, d, t, p, crashes, inodes, i, off, addr, done)
  }

  lemma DurableNothing(sb: Super, a: Area, d: Disk, inodes: Inodes, own: Owner, i: nat, off: nat, addr: seq<Byte>,
      trace: seq<Write>)
    requires a.start == LogStart(sb) && a.size == sb.nlog && WellFormed(a, d) && Word(d[a.start], 0) == 0 &&
      FilesOn(sb, d, inodes, own)
    ensures Durable(sb, a, d, trace[|trace|..], inodes, i, off, addr, 0) && d == Apply(d, trace[|trace|..]) &&
      Boundary(0, |addr|)
  {
    hide Sofar, FilesOn, WellFormed, CrashRun, Word, Holds;
    SofarNothing(d, inodes, i, off, addr);
    forall p, crashes | 0 <= p <= |trace[|trace|..]| ensures HasPrefix(sb, a, d, trace[|trace|..], p, crashes, inodes,
      i, off, addr, 0) {
      QuietCrash(sb, a, d, crashes, inodes, own);
      assert trace[|trace|..][..p] == [];
    }
  }

  /** One more chunk: a crash before it leaves what a crash left before, a crash inside it all of it or none. */
  lemma DurableMore(sb: Super, a: Area, d: Disk, mark: seq<Write>, trace: seq<Write>, trace': seq<Write>,
                    u: Disk, jnodes: Inodes, own: Owner, w: Disk, knodes: Inodes, now: Owner,
                    inodes: Inodes, i: nat, off: nat, addr: seq<Byte>, k: nat, n: nat)
    requires mark <= trace <= trace' && k <= n <= |addr| && Boundary(n, |addr|) && Boundary(k, |addr|)
    requires u == Apply(d, trace[|mark|..]) && Durable(sb, a, d, trace[|mark|..], inodes, i, off, addr, k)
    requires Atomic(sb, a, u, trace'[|trace|..], jnodes, own, w, knodes, now)
    requires Sofar(d, inodes, u, jnodes, i, off, addr[..k]) && Sofar(d, inodes, w, knodes, i, off, addr[..n])
    ensures Durable(sb, a, d, trace'[|mark|..], inodes, i, off, addr, n) && w == Apply(d, trace'[|mark|..])
  {
    hide Sofar, WellFormed, CrashRun, Holds, Apply;
    var t1, t2, t := trace[|mark|..], trace'[|trace|..], trace'[|mark|..];
    assert t == t1 + t2;
    ApplyConcat(d, t1, t2);
    var c :| AtomicAt(sb, a, u, t2, c, jnodes, own, w, knodes, now);
    forall p, crashes | 0 <= p <= |t| ensures HasPrefix(sb, a, d, t, p, crashes, inodes, i, off, addr, n) {
      if p <= |t1| {
        assert t[..p] == t1[..p];
        assert HasPrefix(sb, a, d, t1, p, crashes, inodes, i, off, addr, k);
      } else {
        assert t[..p] == t1 + t2[..p - |t1|];
        ApplyConcat(d, t1, t2[..p - |t1|]);
        assert Recovers(sb, a, u, t2, c, p - |t1|, crashes, jnodes, own, w, knodes, now);
      }
    }
  }

  /** Enough data blocks are free to write file ip from off on to end. */
  ghost predicate Enough(sb: Super, v: Disk, ip: Inode, own: Owner, off: nat, end: nat) {
    off <= ip.size ==> |FreeData(sb, own.Keys)| >= |Missing(v, ip, off / BSIZE, Blocks512(end))|
  }

  /** filewrite has written the first k bytes of addr to file i from off on, and can go on. */
  ghost predicate Progress(sb: Super, a: Area, d: Disk, inodes: Inodes, mark: seq<Write>, i: nat, off: nat,
                           addr: seq<Byte>, k: nat, u: Disk, jnodes: Inodes, now: Owner, trace: seq<Write>) {
    && k <= |addr| && i in jnodes && jnodes[i].typ != T_DEV && Boundary(k, |addr|)
    && Sofar(d, inodes, u, jnodes, i, off, addr[..k])
    && Enough(sb, u, jnodes[i], now, off + k, End(off, |addr|))
    && mark <= trace && u == Apply(d, trace[|mark|..])
    && Durable(sb, a, d, trace[|mark|..], inodes, i, off, addr, k)
  }

  lemma NoProgress(sb: Super, a: Area, d: Disk, inodes: Inodes, own: Owner, i: nat, off: nat, addr: seq<Byte>,
                   trace: seq<Write>)
    requires a.start == LogStart(sb) && a.size == sb.nlog && WellFormed(a, d) && Word(d[a.start], 0) == 0
    requires FilesOn(sb, d, inodes, own) && i in inodes && inodes[i].typ != T_DEV
    requires Enough(sb, d, inodes[i], own, off, End(off, |addr|))
    ensures Progress(sb, a, d, inodes, trace, i, off, addr, 0, d, inodes, own, trace)
  {
    hide FilesOn, WellFormed, Word, Durable, Sofar, Enough, Boundary, Apply;
    SofarNothing(d, inodes, i, off, addr);
    DurableNothing(sb, a, d, inodes, own, i, off, addr, trace);
  }

  lemma ProgressSays(sb: Super, a: Area, d: Disk, inodes: Inodes, mark: seq<Write>, i: nat, off: nat, addr: seq<Byte>,
                     k: nat, u: Disk, jnodes: Inodes, now: Owner, trace: seq<Write>)
    requires Progress(sb, a, d, inodes, mark, i, off, addr, k, u, jnodes, now, trace)
    ensures k <= |addr| && Sofar(d, inodes, u, jnodes, i, off, addr[..k]) && mark <= trace
    ensures Durable(sb, a, d, trace[|mark|..], inodes, i, off, addr, k)
  {
    hide Durable, Sofar, Enough, Boundary, Apply;
  }

  /** The next chunk finds its data blocks. */
  lemma ProgressAllows(sb: Super, a: Area, d: Disk, inodes: Inodes, mark: seq<Write>, i: nat, off: nat,
                       addr: seq<Byte>, k: nat, n: nat, u: Disk, jnodes: Inodes, now: Owner, trace: seq<Write>)
    requires Progress(sb, a, d, inodes, mark, i, off, addr, k, u, jnodes, now, trace) && FilesOn(sb, u, jnodes, now)
    requires n <= |addr| - k && |addr| < 0x8000_0000 && off + k < UINT
    ensures jnodes[i].typ != T_DEV
    ensures Writable(jnodes[i].size, off + k, n) ==>
      |FreeData(sb, now.Keys)| >= |Missing(u, jnodes[i], (off + k) / BSIZE, Blocks512(off + k + n))|
  {
    hide FilesOn, Durable, Sofar, Boundary, Apply, FreeData, Missing, Blocks512, Writable;
    SizeBound(sb, u, jnodes, now, i);
    WritableFits(jnodes[i].size, off + k, n, |addr| - k);
    if Writable(jnodes[i].size, off + k, n) {
      MissingMono(u, jnodes[i], (off + k) / BSIZE, Blocks512(off + k + n), Blocks512(End(off, |addr|)));
    }
  }

  lemma ProgressMore(sb: Super, a: Area, d: Disk, inodes: Inodes, mark: seq<Write>, i: nat, off: nat, addr: seq<Byte>,
                     k: nat, n: nat, u: Disk, jnodes: Inodes, own: Owner, trace: seq<Write>,
                     w: Disk, knodes: Inodes, now: Owner, trace': seq<Write>)
    requires Progress(sb, a, d, inodes, mark, i, off, addr, k, u, jnodes, own, trace) && trace <= trace'
    requires k < |addr| < 0x8000_0000 && n == (if |addr| - k > CHUNK then CHUNK else |addr| - k) && off + k < UINT
    requires FilesOn(sb, u, jnodes, own) && FilesOn(sb, w, knodes, now) && OwnerGrown(own, now)
    requires Writable(jnodes[i].size, off + k, n)
    requires WroteFile(u, jnodes, w, knodes, i, off + k, addr[k..k + n])
    requires Atomic(sb, a, u, trace'[|trace|..], jnodes, own, w, knodes, now)
    requires |FreeData(sb, now.Keys)| ==
               |FreeData(sb, own.Keys)| - |Missing(u, jnodes[i], (off + k) / BSIZE, Blocks512(off + k + n))|
    ensures Progress(sb, a, d, inodes, mark, i, off, addr, k + n, w, knodes, now, trace')
  {
    hide FilesOn, Durable, Sofar, Boundary, Apply, FreeData, Missing, Blocks512, Writable, WroteFile, OwnerGrown,
      Atomic;
    SizeBound(sb, u, jnodes, own, i);
    WritableFits(jnodes[i].size, off + k, n, |addr| - k);
    ChunkLeaves(sb, u, jnodes, own, w, knodes, now, i, off + k, addr[k..k + n], End(off, |addr|));
    SofarMore(d, inodes, u, jnodes, w, knodes, i, off, addr, k, n);
    NextBoundary(k, |addr|);
    DurableMore(sb, a, d, mark, trace, trace', u, jnodes, own, w, knodes, now, inodes, i, off, addr, k, k + n);
  }

  /** After k bytes from off on: the file reaches that far, unless off was past its end and nothing was written. */
  predicate Reached(was: nat, off: nat, size: nat, k: nat) {
    (k == 0 ==> size == was) && if off > was then k == 0 else off + k <= size
  }

  lemma ReachedMore(u: Disk, jnodes: Inodes, w: Disk, knodes: Inodes, i: nat, off: nat, k: nat, src: seq<Byte>,
                    was: nat)
    requires WroteFile(u, jnodes, w, knodes, i, off + k, src) && Reached(was, off, jnodes[i].size, k)
    requires off + k <= jnodes[i].size && src != []
    ensures Reached(was, off, knodes[i].size, k + |src|)
  {
    hide Overlaid, SameData;
  }

  /** The chunk that does not fit: how many went before it. */
  lemma ProgressStops(sb: Super, a: Area, d: Disk, inodes: Inodes, mark: seq<Write>, i: nat, off: nat, addr: seq<Byte>,
                      k: nat, u: Disk, jnodes: Inodes, now: Owner, trace: seq<Write>, was: nat)
    requires Progress(sb, a, d, inodes, mark, i, off, addr, k, u, jnodes, now, trace) && FilesOn(sb, u, jnodes, now)
    requires k < |addr| && Reached(was, off, jnodes[i].size, k)
    requires var n := if |addr| - k > CHUNK then CHUNK else |addr| - k;
      off + k > jnodes[i].size || off + k + n > MAXBYTES
    ensures off <= was ==> off + |addr| > MAXBYTES && k == (MAXBYTES - off) / CHUNK * CHUNK
  {
    hide FilesOn, Durable, Sofar, Enough, Apply;
    SizeBound(sb, u, jnodes, now, i);
    if off <= was {
      WholeChunks(MAXBYTES - off, k);
    }
  }

  lemma WholeChunks(room: nat, k: nat)
    requires k % CHUNK == 0 && k <= room < k + CHUNK
    ensures k == room / CHUNK * CHUNK
  {
  }

  lemma SizeBound(sb: Super, v: Disk, inodes: Inodes, own: Owner, i: nat)
    requires FilesOn(sb, v, inodes, own) && i in inodes
    ensures inodes[i].size <= MAXBYTES
  {
    hide Refs, BitsAre;
    assert FileOk(sb, v, inodes, i);
  }

  lemma WritableFits(size: nat, off: Uint, n: nat, more: nat)
    requires n <= more < UINT / 2
    ensures Writable(size, off, n) && size <= MAXBYTES ==>
      off <= size && off + n <= End(off, more) && Blocks512(off + n) <= Blocks512(End(off, more))
  {
  }

  /** commit_trans at the end of a system call that began on the disk d with these files. */
  method Commit(fs: FileSystem, ghost d: Disk, ghost inodes: Inodes, ghost own: Owner, ghost trace: seq<Write>)
    requires fs.Consistent() && fs.log.busy && fs.held == map[] && |Logged(fs.ws)| + fs.others < NBUF
    requires FilesOn(fs.sb, d, inodes, own) && fs.base == d && fs.log.mark == trace
    modifies fs`view, fs`base, fs`ws, fs`theirs, fs.log, fs.log.bc
    ensures fs.Consistent() && !fs.log.busy && fs.ws == [] && trace <= fs.log.bc.trace
    ensures Atomic(fs.sb, fs.log.a, d, fs.log.bc.trace[|trace|..], inodes, own, fs.view, fs.inodes, fs.owner)
    ensures forall i :: i in fs.inodes ==> SameData(old(fs.view), fs.inodes[i], fs.view, fs.inodes[i])
    ensures old(fs.ws) == [] ==> fs.view == d && fs.log.bc.trace == trace
  {
    hide Refs, Apply, SuperOf, BitsAre, SameData, FileSystem.Synced, Atomic, Logged, FileOk, FilesOn, Holds,
      WellFormed, TransOk, Fits, Word;
    ConsistentFiles(fs);
    ghost var mid, run := fs.view, fs.ws;
    fs.CommitTrans();
    BelowLogDecides(fs.sb, mid, fs.view, fs.inodes, fs.owner);
    HeldFiles(fs.sb, fs.view, mid, fs.inodes, fs.owner);
    FilesConsistent(fs);
    QuietLog(fs);
    if run == [] {
      CommittedNothing(fs.sb, fs.log.a, d, trace, fs.log.bc.trace, fs.view);
    }
    CommittedAtomic(fs.sb, fs.log.a, d, run, trace, fs.log.bc.trace, fs.view, inodes, own, fs.inodes, fs.owner);
  }

  /** fileclose's transaction, when iput gets the last reference to an unlinked inode: atomic on disk, the file and its
      blocks gone. */
  method DiscardFile(fs: FileSystem, i: nat)
    requires fs.Consistent() && !fs.log.busy && fs.held == map[] && ChunksFit(fs.sb, fs.others) && i in fs.inodes
    modifies fs, fs.log, fs.log.bc
    ensures fs.Consistent() && !fs.log.busy && fs.held == map[] && old(fs.log.bc.trace) <= fs.log.bc.trace
    ensures Discarded(old(fs.view), old(fs.inodes), old(fs.owner), fs.view, fs.inodes, fs.owner, i)
    ensures Atomic(fs.sb, fs.log.a, old(fs.view), fs.log.bc.trace[|old(fs.log.bc.trace)|..], old(fs.inodes),
                   old(fs.owner), fs.view, fs.inodes, fs.owner)
  {
    hide Refs, Apply, SuperOf, BitsAre, SameData, FileSystem.Synced, Atomic, WriteRoom, ChunksFit, Logged, FileOk,
      LogsOnly, FilesOn, BlocksOf;
    ConsistentFiles(fs);
    ChunkRoom(fs.sb, fs.others, fs.inodes[i], i, 0, 1);
    fs.BeginTrans();
    fs.FreeInode(i);
    InodeLogged(fs.sb, fs.others, i, fs.ws);
    ghost var mid := fs.view;
    Commit(fs, old(fs.view), old(fs.inodes), old(fs.owner), old(fs.log.bc.trace));
    forall h | h in old(fs.inodes) &&
      h != i ensures SameData(old(fs.view), old(fs.inodes)[h], fs.view, old(fs.inodes)[h]) {
      assert h in fs.inodes;
      SameDataTrans(old(fs.view), old(fs.inodes)[h], mid, old(fs.inodes)[h], fs.view, old(fs.inodes)[h]);
    }
  }

  /** The transaction of unlink, as far as the inode goes: one link less, atomically. */
  method Unlink(fs: FileSystem, i: nat)
    requires fs.Consistent() && !fs.log.busy && fs.held == map[] && ChunksFit(fs.sb, fs.others)
    requires i in fs.inodes && fs.inodes[i].nlink > 0
    modifies fs, fs.log, fs.log.bc
    ensures fs.Consistent() && !fs.log.busy && fs.held == map[] && fs.ws == []
    ensures old(fs.log.bc.trace) <= fs.log.bc.trace
    ensures fs.inodes == old(fs.inodes)[i := old(fs.inodes)[i].(nlink := old(fs.inodes)[i].nlink - 1)]
    ensures Atomic(fs.sb, fs.log.a, old(fs.view), fs.log.bc.trace[|old(fs.log.bc.trace)|..], old(fs.inodes),
                   old(fs.owner), fs.view, fs.inodes, fs.owner)
  {
    hide Refs, Apply, SuperOf, BitsAre, SameData, FileSystem.Synced, Atomic, WriteRoom, ChunksFit, Logged, FileOk,
      LogsOnly, FilesOn, Room;
    ConsistentFiles(fs);
    ChunkRoom(fs.sb, fs.others, fs.inodes[i], i, 0, 1);
    TruncateRoom(fs.sb, fs.others, [], fs.inodes[i], i);
    RoomStep(fs.sb, fs.others, {}, [], Bitmaps(fs.sb) + {IBlock(i)}, 0, {}, [], {IBlock(i)}, 0, {});
    fs.BeginTrans();
    fs.DropLink(i);
    OneLogged(fs.sb, [], fs.ws, IBlock(i));
    InodeLogged(fs.sb, fs.others, i, fs.ws);
    Commit(fs, old(fs.view), old(fs.inodes), old(fs.owner), old(fs.log.bc.trace));
  }

  /** What becomes of a reference given to iput. */
  datatype Put = Dropped | Freed | Panicked

  /** iput, for a cache entry with this count that is valid or not. With the last reference to an unlinked inode, inside
      somebody's transaction the inode is freed; outside any, as in exit and chdir, the first log_write panics, before
      anything has changed. */
  method Iput(fs: FileSystem, i: nat, ref: nat, valid: bool) returns (r: Put)
    requires fs.Consistent() && fs.held == map[] && i in fs.inodes && 0 < ref
    requires WriteRoom(fs.sb, fs.others, fs.ws, fs.inodes[i], i, 0)
    modifies fs, fs.log, fs.log.bc
    ensures r.Panicked? <==> ref == 1 && valid && old(fs.inodes)[i].nlink == 0 && !old(fs.log.busy)
    ensures r.Freed? <==> ref == 1 && valid && old(fs.inodes)[i].nlink == 0 && old(fs.log.busy)
    ensures r.Freed? ==>
      fs.Consistent() && Discarded(old(fs.view), old(fs.inodes), old(fs.owner), fs.view, fs.inodes, fs.owner, i)
    ensures !r.Freed? ==> fs.view == old(fs.view) && fs.inodes == old(fs.inodes) && fs.owner == old(fs.owner)
    ensures !r.Freed? ==> fs.ws == old(fs.ws) && fs.log.bc.trace == old(fs.log.bc.trace)
    ensures r.Dropped? ==> fs.Consistent() && fs.held == map[]
    ensures r.Panicked? ==> !fs.log.busy && exists s :: s in fs.held && (IsBitmap(fs.sb, s) || s == IBlock(i))
  {
    hide Refs, Apply, SuperOf, BitsAre, FileSystem.Synced, WriteRoom, Logged, FileOk, Discarded, LogsOnly, IsBitmap;
    if ref == 1 && valid && fs.inodes[i].nlink == 0 {
      if fs.log.busy {
        fs.FreeInode(i);
        return Freed;
      }
      TraceSoFar(fs);
      ghost var s := fs.ReachLogWrite(i);
      TraceSoFar(fs);
      return Panicked;
    }
    return Dropped;
  }

  lemma TraceSoFar(fs: FileSystem)
    requires fs.Synced()
    ensures fs.log.bc.trace == fs.log.mark + LogBlocks(fs.log.a, fs.ws)
  {
  }

  lemma InodeLogged(sb: Super, o: nat, i: nat, ws: seq<Write>)
    requires ChunksFit(sb, o) && LogsOnly(sb, [], ws, {IBlock(i)})
    ensures |Logged(ws)| + o < NBUF
  {
    BitmapCount(sb);
    assert Logged([]) == {};
    SubsetCount(Logged(ws), {IBlock(i)} + Bitmaps(sb));
  }

  class OpenFile {
    const fs: FileSystem
    const inum: nat
    const writable: bool
    var off: Uint

    constructor (fs: FileSystem, inum: nat, writable: bool)
      ensures this.fs == fs && this.inum == inum && this.writable == writable && off == 0
    {
      this.fs, this.inum, this.writable, off := fs, inum, writable, 0;
    }

    /** Between system calls: no transaction, no buffer held, everything on disk. */
    ghost predicate Idle()
      reads fs, fs.log, fs.log.bc
    {
      fs.Consistent() && !fs.log.busy && fs.held == map[] && ChunksFit(fs.sb, fs.others)
    }

    /** What Idle gives of the disk: the files are on it, and the log is empty. */
    lemma IdleFiles()
      requires Idle()
      ensures FilesOn(fs.sb, fs.view, fs.inodes, fs.owner)
      ensures fs.log.a.start == LogStart(fs.sb) && fs.log.a.size == fs.sb.nlog
      ensures WellFormed(fs.log.a, fs.view) && Word(fs.view[fs.log.a.start], 0) == 0
    {
      hide FileSystem.Synced, Refs, BitsAre, Apply, SuperOf, FileOk, FilesOn, WellFormed, Word;
      ConsistentFiles(fs);
      QuietLog(fs);
    }

    /** The body of filewrite's loop: one transaction, atomic on disk, never out of buffers or log. */
    method WriteChunk(src: seq<Byte>) returns (r: int)
      requires Idle() && inum in fs.inodes && fs.inodes[inum].typ != T_DEV && 0 < |src| <= CHUNK
      requires Writable(fs.inodes[inum].size, off, |src|) ==>
                 |FreeData(fs.sb, fs.owner.Keys)| >= |Missing(fs.view, fs.inodes[inum], off / BSIZE,
                   Blocks512(off + |src|))|
      modifies this`off, fs, fs.log, fs.log.bc
      ensures Idle() && inum in fs.inodes && OwnerGrown(old(fs.owner), fs.owner)
      ensures old(fs.log.bc.trace) <= fs.log.bc.trace
      ensures Atomic(fs.sb, fs.log.a, old(fs.view), fs.log.bc.trace[|old(fs.log.bc.trace)|..], old(fs.inodes),
                     old(fs.owner), fs.view, fs.inodes, fs.owner)
      ensures r == -1 <==> old(off) > old(fs.inodes)[inum].size || old(off) + |src| > MAXBYTES
      ensures if Writable(old(fs.inodes)[inum].size, old(off), |src|)
              then
                && r == |src| && off == old(off) + |src|
                && WroteFile(old(fs.view), old(fs.inodes), fs.view, fs.inodes, inum, old(off), src)
              else
                && r == -1 && off == old(off)
                && fs.view == old(fs.view) && fs.inodes == old(fs.inodes) && fs.owner == old(fs.owner)
      ensures !Writable(old(fs.inodes)[inum].size, old(off), |src|) ==> fs.log.bc.trace == old(fs.log.bc.trace)
      ensures Writable(old(fs.inodes)[inum].size, old(off), |src|) ==>
                |FreeData(fs.sb, fs.owner.Keys)| ==
                |FreeData(fs.sb, old(fs.owner).Keys)| - |Missing(old(fs.view), old(fs.inodes)[inum], old(off) / BSIZE,
                  Blocks512(old(off) + |src|))|
    {
      hide Refs, Apply, SuperOf, FreeData, BitsAre, WriteSectors, Missing, SameData, FileSystem.Synced, Blocks512;
      hide Committed, Atomic, WriteRoom, BlocksLeft, ChunksFit, Logged, OwnerGrown, FileOk, LogsOnly, FilesOn,
        Holds, Overlaid, Writable;
      ConsistentFiles(fs);
      ChunkRoom(fs.sb, fs.others, fs.inodes[inum], inum, off, |src|);
      fs.BeginTrans();
      r := fs.Writei(inum, src, off);
      ChunkLogged(fs.sb, fs.others, fs.view, fs.inodes[inum], inum, old(fs.inodes)[inum].size, off, |src|, fs.ws);
      ghost var mid := fs.view;
      Commit(fs, old(fs.view), old(fs.inodes), old(fs.owner), old(fs.log.bc.trace));
      if r > 0 {
        WroteFileSame(old(fs.view), old(fs.inodes), mid, fs.inodes, fs.view, inum, off, src);
        off := off + r;
      }
    }

    /** filewrite: chunk by chunk, all of it when it fits the largest file, otherwise the chunks before the one that
        does not. Crash it anywhere: the recovered disk has the file with some of its chunks written, from the first on,
        and all other files as they were. */
    method FileWrite(addr: seq<Byte>) returns (r: int, ghost done: nat)
      requires Idle() && inum in fs.inodes && fs.inodes[inum].typ != T_DEV && |addr| < 0x8000_0000
      requires Enough(fs.sb, fs.view, fs.inodes[inum], fs.owner, off, End(off, |addr|))
      modifies this`off, fs, fs.log, fs.log.bc
      ensures !writable ==> r == -1 && done == 0
      ensures writable ==> r == if done == |addr| then |addr| else -1
      ensures Idle() && inum in fs.inodes && done <= |addr| && off == old(off) + done
      ensures Sofar(old(fs.view), old(fs.inodes), fs.view, fs.inodes, inum, old(off), addr[..done])
      ensures writable && old(off) > old(fs.inodes)[inum].size ==> done == 0
      ensures writable && old(off) <= old(fs.inodes)[inum].size ==>
        done == if old(off) + |addr| <= MAXBYTES then |addr| else (MAXBYTES - old(off)) / CHUNK * CHUNK
      ensures old(fs.log.bc.trace) <= fs.log.bc.trace
      ensures Durable(fs.sb, fs.log.a, old(fs.view), fs.log.bc.trace[|old(fs.log.bc.trace)|..], old(fs.inodes), inum,
        old(off), addr, done)
    {
      hide Refs, BitsAre, FreeData, Missing, WroteFile, Apply, FileOk, Sofar, Writable, Blocks512, OwnerGrown, Durable,
        Atomic, Enough;
      hide FileSystem.Consistent, FilesOn, OpenFile.Idle, Progress;
      IdleFiles();
      NoProgress(fs.sb, fs.log.a, fs.view, fs.inodes, fs.owner, inum, off, addr, fs.log.bc.trace);
      ProgressSays(fs.sb, fs.log.a, fs.view, fs.inodes, fs.log.bc.trace, inum, off, addr, 0, fs.view, fs.inodes,
                   fs.owner, fs.log.bc.trace);
      done := 0;
      if !writable {
        return -1, 0;
      }
      var n := |addr|;
      ghost var d, trace := fs.view, fs.log.bc.trace;
      var i := 0;
      while i < n
        invariant 0 <= i <= n && off == old(off) + i && done == i && Idle() && inum in fs.inodes
        invariant Reached(old(fs.inodes)[inum].size, old(off), fs.inodes[inum].size, i)
        invariant Progress(fs.sb, fs.log.a, d, old(fs.inodes), trace, inum, old(off), addr, i, fs.view, fs.inodes,
                           fs.owner, fs.log.bc.trace)
      {
        var n1 := n - i;
        if n1 > CHUNK {
          n1 := CHUNK;
        }
        ghost var was, wnodes, wown, wtrace := fs.view, fs.inodes, fs.owner, fs.log.bc.trace;
        IdleFiles();
        ProgressAllows(fs.sb, fs.log.a, d, old(fs.inodes), trace, inum, old(off), addr, i, n1, fs.view, fs.inodes,
                       fs.owner, fs.log.bc.trace);
        var w := WriteChunk(addr[i..i + n1]);
        if w < 0 {
          ProgressStops(fs.sb, fs.log.a, d, old(fs.inodes), trace, inum, old(off), addr, i, fs.view, fs.inodes,
            fs.owner,
                        fs.log.bc.trace, old(fs.inodes)[inum].size);
          break;
        }
        IdleFiles();
        ReachedMore(was, wnodes, fs.view, fs.inodes, inum, old(off), i, addr[i..i + n1], old(fs.inodes)[inum].size);
        ProgressMore(fs.sb, fs.log.a, d, old(fs.inodes), trace, inum, old(off), addr, i, n1, was, wnodes, wown, wtrace,
                     fs.view, fs.inodes, fs.owner, fs.log.bc.trace);
        i := i + w;
        done := i;
      }
      IdleFiles();
      SizeBound(fs.sb, fs.view, fs.inodes, fs.owner, inum);
      ProgressSays(fs.sb, fs.log.a, d, old(fs.inodes), trace, inum, old(off), addr, i, fs.view, fs.inodes, fs.owner,
                   fs.log.bc.trace);
      return if i == n then n else -1, done;
    }

    /** The whole file, as readi gives it. */
    method Whole() returns (all: seq<Byte>)
      requires Idle() && inum in fs.inodes && fs.inodes[inum].typ != T_DEV
      modifies fs, fs.log, fs.log.bc
      ensures Idle() && fs.view == old(fs.view) && fs.inodes == old(fs.inodes) && fs.owner == old(fs.owner)
      ensures |all| == fs.inodes[inum].size <= MAXBYTES
      ensures forall k :: 0 <= k < |all| ==> all[k] == Data(fs.view, fs.inodes[inum], k)
    {
      hide Refs, BitsAre, FreeData, Apply, FileOk, Data, FilesOn;
      ConsistentFiles(fs);
      SizeBound(fs.sb, fs.view, fs.inodes, fs.owner, inum);
      var r;
      r, all := fs.Readi(inum, 0, UINT - 1);
    }

    /** A file read, written and read again: what was written stands where it was written, all else as it was. */
    method ReadWriteRead(addr: seq<Byte>) returns (before: seq<Byte>, ghost done: nat, after: seq<Byte>)
      requires Idle() && inum in fs.inodes && fs.inodes[inum].typ != T_DEV && |addr| < 0x8000_0000
      requires Enough(fs.sb, fs.view, fs.inodes[inum], fs.owner, off, End(off, |addr|))
      modifies this`off, fs, fs.log, fs.log.bc
      ensures writable && old(off) <= |before| && old(off) + |addr| <= MAXBYTES ==> done == |addr|
      ensures done <= |addr| && if done == 0 then after == before else
        && old(off) <= |before|
        && after == before[..old(off)] + addr[..done] +
                    if old(off) + done < |before| then before[old(off) + done..] else []
    {
      hide OpenFile.Idle, Enough, Durable, Refs, BitsAre, FilesOn, Sofar, Data;
      before := Whole();
      ghost var v, inodes := fs.view, fs.inodes;
      var r;
      r, done := FileWrite(addr);
      SofarType(v, inodes, fs.view, fs.inodes, inum, old(off), addr[..done]);
      after := Whole();
      SofarRead(v, inodes, fs.view, fs.inodes, inum, old(off), addr[..done], before, after);
    }
  }

  lemma SofarType(v: Disk, inodes: Inodes, u: Disk, jnodes: Inodes, i: nat, off: nat, src: seq<Byte>)
    requires Sofar(v, inodes, u, jnodes, i, off, src) && i in inodes && i in jnodes
    ensures jnodes[i].typ == inodes[i].typ
  {
    hide Overlaid, SameData;
  }

  lemma SofarRead(v: Disk, inodes: Inodes, u: Disk, jnodes: Inodes, i: nat, off: nat, src: seq<Byte>, before: seq<Byte>,
                  after: seq<Byte>)
    requires Sofar(v, inodes, u, jnodes, i, off, src) && i in inodes && i in jnodes && (src != [] ==> off <= |before|)
    requires |before| == inodes[i].size <= MAXBYTES && |after| == jnodes[i].size <= MAXBYTES
    requires forall k :: 0 <= k < |before| ==> before[k] == Data(v, inodes[i], k)
    requires forall k :: 0 <= k < |after| ==> after[k] == Data(u, jnodes[i], k)
    ensures if src == [] then after == before else
      after == before[..off] + src + if off + |src| < |before| then before[off + |src|..] else []
  {
    hide Data, SameData;
  }

  lemma NothingSlotted()
    ensures |Slots([])| == 0
  {
  }
}

/** Blocks and files inside a transaction (kernel/fs.c): block allocator, block mapping, truncation, reads and
    writes. */
module Fs {
  import opened Ints
  import opened Sets
  import opened Blocks
  import opened Bitmap
  import opened Layout
  import opened Ownership
  import opened Bio
  import opened Log
  import J = Journal

  function SuperOf(b: Block): Super {
    Super(Word(b, 0), Word(b, 1), Word(b, 2), Word(b, 3))
  }

  /** The sectors a run of log_writes has touched. */
  ghost function Logged(ws: seq<Write>): set<nat> {
    Named(Slots(ws))
  }

  predicate IsBitmap(sb: Super, s: nat) {
    sb.ninodes / IPB + 3 <= s < FirstData(sb)
  }

  /** Every block below b is marked in use. */
  ghost predicate NoneFreeBelow(sb: Super, v: Disk, b: nat) {
    Sane(sb, v) && b <= sb.size && forall c :: 0 <= c < b ==> Bit(sb, v, c)
  }

  /** The disk after balloc has marked and zeroed block b. */
  function AllocView(sb: Super, v: Disk, b: nat): Disk
    requires Sane(sb, v) && b < sb.size && !Bit(sb, v, b)
  {
    var m := BBlock(b, sb.ninodes);
    v[m := WithBit(v[m], b % BPB)][b := Zeroes()]
  }

  /** Data blocks not in use. */
  ghost function FreeData(sb: Super, alloc: set<nat>): set<nat> {
    set b | FirstData(sb) <= b < LogStart(sb) && b !in alloc
  }

  lemma TakeFree(sb: Super, alloc: set<nat>, b: nat)
    requires b in FreeData(sb, alloc)
    ensures FreeData(sb, alloc + {b}) == FreeData(sb, alloc) - {b}
    ensures |FreeData(sb, alloc + {b})| == |FreeData(sb, alloc)| - 1
  {
    assert FreeData(sb, alloc + {b}) == FreeData(sb, alloc) - {b};
  }

  /** First fit reaches the log, whose bits are clear, exactly when no data block is free; then it returns the log
      header. */
  lemma FirstFitAvoidsLog(sb: Super, v: Disk, alloc: set<nat>, b: nat)
    requires BitsAre(sb, v, alloc) && forall c :: c in alloc ==> c < LogStart(sb)
    requires b < sb.size && !Bit(sb, v, b) && NoneFreeBelow(sb, v, b)
    ensures b < LogStart(sb) <==> FreeData(sb, alloc) != {}
    ensures FreeData(sb, alloc) == {} ==> b == LogStart(sb)
  {
    if b < LogStart(sb) {
      assert b in FreeData(sb, alloc);
    } else {
      forall c | FirstData(sb) <= c < LogStart(sb) ensures c in alloc {
        assert Bit(sb, v, c);
      }
      assert LogStart(sb) < sb.size && !Bit(sb, v, LogStart(sb));
    }
  }

  /** The number of blocks bmap will allocate. */
  function Need(v: Disk, ip: Inode, bn: nat): nat
    requires bn < MAXFILE
  {
    if Addr(v, ip, Slot(bn)) != 0 then 0
    else if bn >= NDIRECT && ip.addrs[NDIRECT] == 0 then 2
    else 1
  }

  /** Everything but the bitmap and block b is as it was. */
  ghost predicate OnlyAllocated(sb: Super, v: Disk, u: Disk, b: nat) {
    |u| == |v| && forall x :: 0 <= x < |v| && x != b && !IsBitmap(sb, x) ==> u[x] == v[x]
  }

  lemma AllocEffect(sb: Super, v: Disk, inodes: Inodes, owner: Owner, b: nat)
    requires Refs(sb, v, inodes, owner) && BitsAre(sb, v, owner.Keys)
    requires b < sb.size && !Bit(sb, v, b)
    ensures var u := AllocView(sb, v, b);
      && Refs(sb, u, inodes, owner) && BitsAre(sb, u, owner.Keys + {b})
      && SameFiles(v, inodes, u, inodes) && SameRefs(v, u, inodes) && OnlyAllocated(sb, v, u, b)
      && b !in owner && FirstData(sb) <= b && u[b] == Zeroes()
  {
    hide BitOf, WithBit;
    var m := BBlock(b, sb.ninodes);
    BitmapIsMetadata(sb, b);
    var w := v[m := WithBit(v[m], b % BPB)];
    MarkBit(sb, v, owner.Keys, b);
    BitsFrame(sb, w, owner.Keys + {b}, b, Zeroes());
    OwnedIsData(sb, v, inodes, owner);
    UnownedWrite(sb, v, inodes, owner, m, WithBit(v[m], b % BPB));
    UnownedWrite(sb, w, inodes, owner, b, Zeroes());
    SameFilesTrans(v, inodes, w, inodes, AllocView(sb, v, b), inodes);
    forall i | i in inodes ensures SameRefsOf(v, AllocView(sb, v, b), inodes[i]) {
      assert SameRefsOf(v, w, inodes[i]) && SameRefsOf(w, AllocView(sb, v, b), inodes[i]);
    }
  }

  lemma SameFilesTrans(v: Disk, inodes: Inodes, u: Disk, jnodes: Inodes, w: Disk, knodes: Inodes)
    requires SameFiles(v, inodes, u, jnodes) && SameFiles(u, jnodes, w, knodes)
    ensures SameFiles(v, inodes, w, knodes)
  {
    forall i | i in inodes ensures SameData(v, inodes[i], w, knodes[i]) {
      SameDataTrans(v, inodes[i], u, jnodes[i], w, knodes[i]);
    }
  }

  // ---- room in the cache and in the log ----

  lemma SlotsCount(ws: seq<Write>)
    ensures |Slots(ws)| == |Logged(ws)|
  {
    if ws != [] {
      var us, w := ws[..|ws| - 1], ws[|ws| - 1];
      assert ws == us + [w];
      SlotsCount(us);
      SlotsSnoc(ws[..|ws| - 1], w);
    }
  }

  lemma LoggedMore(ws: seq<Write>, s: Uint, data: Block)
    ensures Logged(ws + [Write(s, data)]) == Logged(ws) + {s as nat}
  {
    hide Slots;
    SlotsSnoc(ws, Write(s, data));
  }

  /** How many distinct sectors a transaction must stay below for log_write not to panic. */
  function Capacity(sb: Super): int {
    if sb.nlog - 1 < LOGSIZE then sb.nlog - 1 else LOGSIZE
  }

  ghost function Bitmaps(sb: Super): set<nat> {
    set s | 0 <= s < FirstData(sb) && IsBitmap(sb, s)
  }

  /** Room to hold and to log the sectors of `extra`, and k more besides those held and logged already, while others
      hold o buffers. */
  ghost predicate Room(sb: Super, o: nat, held: set<nat>, ws: seq<Write>, extra: set<nat>, k: nat) {
    && |held + Logged(ws) + extra| + k < Capacity(sb)
    && |held + Logged(ws) + extra| + k + o < NBUF
  }

  /** With room, neither the cache nor the log is full. */
  lemma RoomNow(sb: Super, o: nat, held: set<nat>, ws: seq<Write>, extra: set<nat>, k: nat)
    requires Room(sb, o, held, ws, extra, k)
    ensures |held + Logged(ws)| + o < NBUF && |Slots(ws)| < LOGSIZE && |Slots(ws)| < sb.nlog - 1
  {
    hide Slots, Named;
    SubsetCount(held + Logged(ws), held + Logged(ws) + extra);
    SubsetCount(Logged(ws), held + Logged(ws) + extra);
    SlotsCount(ws);
  }

  /** Room shrinks by the sectors that are new. */
  lemma RoomStep(sb: Super, o: nat, held: set<nat>, ws: seq<Write>, extra: set<nat>, k: nat,
                 held': set<nat>, ws': seq<Write>, extra': set<nat>, k': nat, more: set<nat>)
    requires Room(sb, o, held, ws, extra, k) && held' + Logged(ws') + extra' <= held + Logged(ws) + extra + more &&
      |more| + k' <= k
    ensures Room(sb, o, held', ws', extra', k')
  {
    hide Logged;
    var all := held + Logged(ws) + extra;
    SubsetCount(held' + Logged(ws') + extra', all + more);
    assert all + more == all + (more - all);
    SubsetCount(more - all, more);
  }

  /** Buffer b is busy with sector s, whose contents it has. */
  predicate Holding(buf: seq<Buf>, b: nat, s: nat, v: Disk) {
    && b < |buf| && buf[b].busy && buf[b].valid && buf[b].dev == ROOTDEV && buf[b].sector == s
    && s < |v| && buf[b].data == v[s]
  }

  /** The buffers this process holds, all of sectors below the log. */
  ghost predicate InHand(sb: Super, buf: seq<Buf>, held: map<nat, nat>, v: Disk) {
    forall s :: s in held ==> s < LogStart(sb) && Holding(buf, held[s], s, v)
  }

  lemma HeldMore(held: map<nat, nat>, s: nat, b: nat)
    requires s !in held
    ensures held[s := b].Keys == held.Keys + {s} && held[s := b] - {s} == held
  {
  }

  predicate Idle(buf: seq<Buf>, s: int) { forall i :: 0 <= i < |buf| && buf[i].busy ==> buf[i].sector != s }

  predicate Parted(all: set<nat>, a: set<nat>, b: set<nat>) { all == a + b && a !! b }

  lemma PartedMore(all: set<nat>, a: set<nat>, b: set<nat>, s: nat)
    requires Parted(all, a, b) && s !in all
    ensures Parted(all + {s}, a + {s}, b) && Parted(all + {s}, a, b + {s}) && s !in a && s !in b
  {
  }

  lemma PartedLess(all: set<nat>, a: set<nat>, b: set<nat>, s: nat)
    requires Parted(all, a, b)
    ensures s in a ==> Parted(all - {s}, a - {s}, b) && s !in b
    ensures s in b ==> Parted(all - {s}, a, b - {s}) && s !in a
  {
  }

  /** This process and the others hold what is held, each sector once; the others no more than o. */
  ghost predicate Shared(sb: Super, o: nat, buf: seq<Buf>, held: map<nat, nat>, theirs: map<nat, nat>, v: Disk) {
    && Parted(Held(buf), held.Keys, theirs.Keys) && |theirs.Keys| <= o
    && InHand(sb, buf, held, v) && InHand(sb, buf, theirs, v)
  }

  /** The others' buffers fit besides what is held and logged. */
  lemma SharedCount(sb: Super, o: nat, buf: seq<Buf>, held: map<nat, nat>, theirs: map<nat, nat>, v: Disk,
                    logged: set<nat>, s: nat)
    requires Shared(sb, o, buf, held, theirs, v) && |held.Keys + logged| + o < NBUF
    ensures |Held(buf) + logged| < NBUF && (forall t :: t in Held(buf) ==> t < LogStart(sb))
    ensures Held(buf) == held.Keys + theirs.Keys
    ensures Idle(buf, s) ==> s !in Held(buf)
  {
    assert Held(buf) + logged == (held.Keys + logged) + (theirs.Keys - (held.Keys + logged));
    SubsetCount(theirs.Keys - (held.Keys + logged), theirs.Keys);
  }

  lemma OurBuffer(sb: Super, o: nat, buf: seq<Buf>, held: map<nat, nat>, theirs: map<nat, nat>, v: Disk, s: nat)
    requires Shared(sb, o, buf, held, theirs, v) && s in held
    ensures s < LogStart(sb) && Holding(buf, held[s], s, v)
  {
    hide Held;
  }

  lemma TheirBuffer(sb: Super, o: nat, buf: seq<Buf>, held: map<nat, nat>, theirs: map<nat, nat>, v: Disk, s: nat)
    requires Shared(sb, o, buf, held, theirs, v) && s in theirs
    ensures s < LogStart(sb) && Holding(buf, theirs[s], s, v)
  {
    hide Held;
  }

  lemma InHandMore(sb: Super, was: seq<Buf>, now: seq<Buf>, m: map<nat, nat>, v: Disk, s: nat, b: nat)
    requires InHand(sb, was, m, v) && b < |was| == |now| && !was[b].busy && now == was[b := now[b]]
    requires s < LogStart(sb) && Holding(now, b, s, v)
    ensures InHand(sb, now, m[s := b], v)
  {
  }

  lemma InHandLess(sb: Super, was: seq<Buf>, now: seq<Buf>, m: map<nat, nat>, v: Disk, s: nat)
    requires InHand(sb, was, m, v) && s in m && m[s] < |was| == |now| && now == was[m[s] := now[m[s]]]
    ensures InHand(sb, now, m - {s}, v) && was[m[s]].sector == s
  {
    assert Holding(was, m[s], s, v);
  }

  /** A change of a buffer that is none of these. */
  lemma InHandElse(sb: Super, was: seq<Buf>, now: seq<Buf>, m: map<nat, nat>, v: Disk, b: nat)
    requires InHand(sb, was, m, v) && b < |was| == |now| && now == was[b := now[b]]
    requires !was[b].busy || was[b].sector !in m
    ensures InHand(sb, now, m, v)
  {
    forall s | s in m ensures s < LogStart(sb) && Holding(now, m[s], s, v) {
      assert Holding(was, m[s], s, v);
    }
  }

  lemma InHandStored(sb: Super, was: seq<Buf>, now: seq<Buf>, m: map<nat, nat>, v: Disk, b: nat, s: nat, data: Block)
    requires InHand(sb, was, m, v) && b < |was| == |now| && Holding(was, b, s, v) && (s in m ==> m[s] == b)
    requires forall i :: 0 <= i < |was| && was[i].busy && i != b ==> now[i] == was[i]
    requires now[b] == was[b].(data := data, dirty := true)
    ensures InHand(sb, now, m, v[s := data])
  {
    forall t | t in m ensures t < LogStart(sb) && Holding(now, m[t], t, v[s := data]) {
      assert Holding(was, m[t], t, v);
    }
  }

  lemma OneMoreOurs(sb: Super, o: nat, was: seq<Buf>, now: seq<Buf>, held: map<nat, nat>, theirs: map<nat, nat>,
                    v: Disk, s: nat, b: nat)
    requires Shared(sb, o, was, held, theirs, v) && s !in Held(was) && Held(now) == Held(was) + {s}
    requires b < |was| == |now| && !was[b].busy && now == was[b := now[b]] && s < LogStart(sb) && Holding(now, b, s, v)
    ensures Shared(sb, o, now, held[s := b], theirs, v)
  {
    hide Held, InHand, Parted;
    PartedMore(Held(was), held.Keys, theirs.Keys, s);
    InHandMore(sb, was, now, held, v, s, b);
    InHandElse(sb, was, now, theirs, v, b);
    OneMoreKey(held, s, b);
  }

  lemma OneMoreKey(m: map<nat, nat>, s: nat, b: nat)
    ensures m[s := b].Keys == m.Keys + {s} && |m| == |m.Keys| && |m.Keys + {s}| <= |m.Keys| + 1
  {
  }

  lemma OneMoreTheirs(sb: Super, o: nat, was: seq<Buf>, now: seq<Buf>, held: map<nat, nat>, theirs: map<nat, nat>,
                      v: Disk, s: nat, b: nat)
    requires Shared(sb, o, was, held, theirs, v) && s !in Held(was) && Held(now) == Held(was) + {s} && |theirs| < o
    requires b < |was| == |now| && !was[b].busy && now == was[b := now[b]] && s < LogStart(sb) && Holding(now, b, s, v)
    ensures Shared(sb, o, now, held, theirs[s := b], v)
  {
    hide Held, InHand, Parted;
    PartedMore(Held(was), held.Keys, theirs.Keys, s);
    InHandMore(sb, was, now, theirs, v, s, b);
    InHandElse(sb, was, now, held, v, b);
    OneMoreKey(theirs, s, b);
  }

  lemma OneLessOurs(sb: Super, o: nat, was: seq<Buf>, now: seq<Buf>, held: map<nat, nat>, theirs: map<nat, nat>,
                    v: Disk, s: nat)
    requires Shared(sb, o, was, held, theirs, v) && s in held && Held(now) == Held(was) - {s}
    requires held[s] < |was| == |now| && now == was[held[s] := now[held[s]]]
    ensures Shared(sb, o, now, held - {s}, theirs, v)
  {
    hide Held, InHand, Parted;
    PartedLess(Held(was), held.Keys, theirs.Keys, s);
    InHandLess(sb, was, now, held, v, s);
    InHandElse(sb, was, now, theirs, v, held[s]);
    assert (held - {s}).Keys == held.Keys - {s};
  }

  lemma OneLessTheirs(sb: Super, o: nat, was: seq<Buf>, now: seq<Buf>, held: map<nat, nat>, theirs: map<nat, nat>,
                      v: Disk, s: nat)
    requires Shared(sb, o, was, held, theirs, v) && s in theirs && Held(now) == Held(was) - {s}
    requires theirs[s] < |was| == |now| && now == was[theirs[s] := now[theirs[s]]]
    ensures Shared(sb, o, now, held, theirs - {s}, v)
  {
    hide Held, InHand, Parted;
    PartedLess(Held(was), held.Keys, theirs.Keys, s);
    InHandLess(sb, was, now, theirs, v, s);
    InHandElse(sb, was, now, held, v, theirs[s]);
    assert (theirs - {s}).Keys == theirs.Keys - {s};
    SubsetCount(theirs.Keys - {s}, theirs.Keys);
  }

  lemma SharedStored(sb: Super, o: nat, was: seq<Buf>, now: seq<Buf>, held: map<nat, nat>, theirs: map<nat, nat>,
                     v: Disk, s: nat, data: Block)
    requires Shared(sb, o, was, held, theirs, v) && s in held && held[s] < |was| == |now| && Held(now) == Held(was)
    requires forall i :: 0 <= i < |was| && was[i].busy && i != held[s] ==> now[i] == was[i]
    requires now[held[s]] == was[held[s]].(data := data, dirty := true)
    ensures s < |v| && Shared(sb, o, now, held, theirs, v[s := data])
  {
    hide Held, InHand, Parted;
    PartedLess(Held(was), held.Keys, theirs.Keys, s);
    OurBuffer(sb, o, was, held, theirs, v, s);
    InHandStored(sb, was, now, held, v, held[s], s, data);
    InHandStored(sb, was, now, theirs, v, held[s], s, data);
  }

  lemma SharedCommitted(sb: Super, o: nat, was: seq<Buf>, now: seq<Buf>, theirs: map<nat, nat>, v: Disk, u: Disk)
    requires Shared(sb, o, was, map[], theirs, v) && Held(now) == Held(was) && J.Untouched(was, now)
    requires |u| == |v| && forall s :: 0 <= s < LogStart(sb) && s < |v| ==> u[s] == v[s]
    ensures Shared(sb, o, now, map[], theirs, u)
  {
    hide Held;
  }

  lemma SaneCommitted(sb: Super, v: Disk, u: Disk)
    requires Sane(sb, v) && |u| == |v| && forall s :: 0 <= s < LogStart(sb) && s < |v| ==> u[s] == v[s]
    ensures Sane(sb, u) && Apply(u, []) == u && 1 < |u| && u[1] == v[1]
  {
  }

  /** A committed transaction: the writes it issued since `mark`, and the disk they leave. */
  ghost predicate Committed(sb: Super, a: Area, d: Disk, ws: seq<Write>, mark: seq<Write>, trace: seq<Write>, e: Disk) {
    && WellFormed(a, d) && Word(d[a.start], 0) == 0 && Fits(a, d, ws) && TransOk(a, d, LogBlocks(a, ws), Slots(ws))
    && trace == mark + J.Issued(a, d, ws) && e == Apply(d, J.Issued(a, d, ws))
  }

  /** What balloc's search ends with: a block of the data area, one of the log, or none. */
  datatype Found = DataBlock(b: Uint) | LogBlock(b: Uint) | None

  /** The inner loop of balloc: the first clear bit of a bitmap block among its first n. */
  method FirstClear(data: Block, n: nat) returns (bi: nat)
    requires n <= BPB
    ensures bi <= n && (forall k :: 0 <= k < bi ==> BitOf(data, k)) && (bi < n ==> !BitOf(data, bi))
  {
    bi := 0;
    while bi < n
      invariant bi <= n && forall k :: 0 <= k < bi ==> BitOf(data, k)
    {
      if !BitOf(data, bi) {
        return;
      }
      bi := bi + 1;
    }
  }

  /** Blocks 0 and 1 are marked, and so is what the caller holds: balloc will return none of them. */
  ghost predicate FreshOnly(sb: Super, v: Disk, held: set<nat>) {
    && Sane(sb, v)
    && (forall c :: 0 <= c < 2 ==> c < sb.size && Bit(sb, v, c))
    && (forall s :: s in held ==> FirstData(sb) <= s < sb.size && Bit(sb, v, s))
  }

  /** What balloc has done once it has found a clear bit. */
  ghost predicate Ballocked(sb: Super, v: Disk, u: Disk, ws: seq<Write>, us: seq<Write>, r: Found)
    requires !r.None?
  {
    && Sane(sb, v) && r.b < sb.size && !Bit(sb, v, r.b) && NoneFreeBelow(sb, v, r.b)
    && (r.DataBlock? <==> r.b < LogStart(sb))
    && (r.DataBlock? ==> u == AllocView(sb, v, r.b) && Logged(us) == Logged(ws) + {BBlock(r.b, sb.ninodes), r.b})
  }

  lemma NotHeld(sb: Super, v: Disk, held: set<nat>, x: nat)
    requires FreshOnly(sb, v, held)
    ensures x < FirstData(sb) ==> x !in held
    ensures x < sb.size && !Bit(sb, v, x) ==> x !in held && 1 < x
  {
    hide Bit;
  }

  lemma TookData(sb: Super, v: Disk, u: Disk, ws: seq<Write>, us: seq<Write>, b: nat)
    requires NoneFreeBelow(sb, v, b) && b < LogStart(sb) && !Bit(sb, v, b) && BBlock(b, sb.ninodes) < |v| && b < |v|
    requires u == v[BBlock(b, sb.ninodes) := WithBit(v[BBlock(b, sb.ninodes)], b % BPB)][b := Zeroes()]
    requires Logged(us) == Logged(ws) + {BBlock(b, sb.ninodes)} + {b}
    ensures Ballocked(sb, v, u, ws, us, DataBlock(b))
  {
    hide BitOf, WithBit, Logged;
  }

  lemma TookLog(sb: Super, v: Disk, u: Disk, ws: seq<Write>, us: seq<Write>, b: nat)
    requires NoneFreeBelow(sb, v, b) && LogStart(sb) <= b < sb.size && !Bit(sb, v, b)
    ensures Ballocked(sb, v, u, ws, us, LogBlock(b))
  {
    hide BitOf, Logged;
  }

  lemma GrownTwice(a: Owner, b: Owner, c: Owner)
    requires OwnerGrown(a, b) && OwnerGrown(b, c)
    ensures OwnerGrown(a, c)
  {
  }

  /** What filling slot k of inode i with the new block b does. */
  ghost predicate Attached(sb: Super, v: Disk, inodes: Inodes, own: Owner, ws: seq<Write>,
                         u: Disk, jnodes: Inodes, now: Owner, us: seq<Write>, i: nat, k: nat, b: Uint) {
    && i in inodes && i in jnodes && k < SLOTS && jnodes == inodes[i := inodes[i].(addrs := jnodes[i].addrs)]
    && b != 0 && Addr(u, jnodes[i], k) == b && Kept(v, inodes[i], u, jnodes[i], k)
    && SameFiles(v, inodes, u, jnodes) && OwnerGrown(own, now) && MetaKept(sb, v, u)
    && |FreeData(sb, now.Keys)| == |FreeData(sb, own.Keys)| - 1
    && forall s :: s in Logged(us) ==>
         s in Logged(ws) || s == b || (k > NDIRECT && 0 != s == jnodes[i].addrs[NDIRECT]) || IsBitmap(sb, s)
  }

  /** balloc has given the data block b: zeroed, owned by nobody, the lowest that was free; no file and no reference has
      changed. */
  ghost predicate Allocated(sb: Super, v: Disk, inodes: Inodes, own: Owner, ws: seq<Write>, u: Disk, us: seq<Write>,
      b: nat) {
    && Refs(sb, u, inodes, own) && BitsAre(sb, u, own.Keys + {b}) && Fresh(sb, u, own, b)
    && b in FreeData(sb, own.Keys) && (forall c :: c in FreeData(sb, own.Keys) ==> b <= c)
    && SameFiles(v, inodes, u, inodes) && SameRefs(v, u, inodes) && OnlyAllocated(sb, v, u, b)
    && forall s :: s in Logged(us) ==> s in Logged(ws) || s == b || IsBitmap(sb, s)
  }

  lemma AttachDirect(sb: Super, v: Disk, inodes: Inodes, own: Owner, ws: seq<Write>, u: Disk, us: seq<Write>, i: nat,
      k: nat, b: Uint)
    requires Allocated(sb, v, inodes, own, ws, u, us, b) && i in inodes && k <= NDIRECT && inodes[i].addrs[k] == 0
    ensures var jnodes, now := inodes[i := inodes[i].(addrs := inodes[i].addrs[k := b])], own[b := (i, k)];
      && Refs(sb, u, jnodes, now) && BitsAre(sb, u, now.Keys)
      && Attached(sb, v, inodes, own, ws, u, jnodes, now, us, i, k, b)
  {
    hide Addr, FreeData, Logged, SameFiles, Refs, BitsAre, SameRefsOf;
    var jnodes, now := inodes[i := inodes[i].(addrs := inodes[i].addrs[k := b])], own[b := (i, k)];
    assert now.Keys == own.Keys + {b as nat};
    TakeFree(sb, own.Keys, b);
    LinkDirect(sb, u, inodes, own, i, k, b);
    SameFilesTrans(v, inodes, u, inodes, u, jnodes);
    DirectKept(v, u, inodes[i], k, b);
  }

  lemma DirectKept(v: Disk, u: Disk, ip: Inode, k: nat, b: Uint)
    requires k <= NDIRECT && ip.addrs[k] == 0 && SameRefsOf(v, u, ip)
    requires var jp := ip.(addrs := ip.addrs[k := b]); forall j :: 0 <= j < SLOTS ==>
      Addr(u, jp, j) == if j == k then b else Addr(u, ip, j)
    ensures Kept(v, ip, u, ip.(addrs := ip.addrs[k := b]), k)
  {
    hide Addr;
    SmallSlot(v, ip, k);
  }

  lemma AttachIndirect(sb: Super, v: Disk, inodes: Inodes, own: Owner, ws: seq<Write>, u: Disk, us: seq<Write>,
      ts: seq<Write>, i: nat, j: nat, b: Uint)
    requires Refs(sb, v, inodes, own) && Allocated(sb, v, inodes, own, ws, u, us, b) && i in inodes && j < NINDIRECT
    requires inodes[i].addrs[NDIRECT] != 0 && inodes[i].addrs[NDIRECT] < |v| &&
      Word(v[inodes[i].addrs[NDIRECT]], j) == 0
    requires Logged(ts) == Logged(us) + {inodes[i].addrs[NDIRECT] as nat}
    ensures var x := inodes[i].addrs[NDIRECT];
      && x < |u| && u[x] == v[x]
      && var w, now := u[x := PutWord(u[x], j, b)], own[b := (i, NDIRECT + 1 + j)];
         && Refs(sb, w, inodes, now) && BitsAre(sb, w, now.Keys)
         && Attached(sb, v, inodes, own, ws, w, inodes, now, ts, i, NDIRECT + 1 + j, b)
  {
    hide Addr, FreeData, Logged, SameFiles, Refs, BitsAre, SameRefsOf, Word, PutWord;
    var x := inodes[i].addrs[NDIRECT];
    IndirectIsOwned(sb, v, inodes, own, i);
    assert x != b && u[x] == v[x];
    var w, now := u[x := PutWord(u[x], j, b)], own[b := (i, NDIRECT + 1 + j)];
    assert now.Keys == own.Keys + {b as nat};
    TakeFree(sb, own.Keys, b);
    LinkIndirect(sb, u, inodes, own, i, j, b);
    BitsFrame(sb, u, own.Keys + {b}, x, PutWord(u[x], j, b));
    SameFilesTrans(v, inodes, u, inodes, w, inodes);
    EntryKept(v, u, w, inodes[i], NDIRECT + 1 + j, b);
    assert inodes[i] == inodes[i].(addrs := inodes[i].addrs);
  }

  lemma EntryKept(v: Disk, u: Disk, w: Disk, ip: Inode, k: nat, b: Uint)
    requires NDIRECT < k < SLOTS && SameRefsOf(v, u, ip) && ip.addrs[NDIRECT] != 0 && ip.addrs[NDIRECT] < |v|
    requires Word(v[ip.addrs[NDIRECT]], k - NDIRECT - 1) == 0
    requires forall j :: 0 <= j < SLOTS ==> Addr(w, ip, j) == if j == k then b else Addr(u, ip, j)
    ensures Kept(v, ip, w, ip, k)
  {
    hide Word;
  }

  lemma SmallSlot(v: Disk, ip: Inode, k: nat)
    requires k <= NDIRECT
    ensures Addr(v, ip, k) == ip.addrs[k]
  {
  }

  /** What bmap of block bn does. */
  ghost predicate Mapped(sb: Super, v: Disk, inodes: Inodes, own: Owner, ws: seq<Write>,
                         u: Disk, jnodes: Inodes, now: Owner, us: seq<Write>, i: nat, bn: nat, addr: Uint) {
    && i in inodes && i in jnodes && bn < MAXFILE && jnodes == inodes[i := inodes[i].(addrs := jnodes[i].addrs)]
    && addr != 0 && addr == Addr(u, jnodes[i], Slot(bn)) && Grown(v, inodes[i], u, jnodes[i], bn)
    && SameFiles(v, inodes, u, jnodes) && OwnerGrown(own, now) && MetaKept(sb, v, u)
    && |FreeData(sb, now.Keys)| == |FreeData(sb, own.Keys)| - Need(v, inodes[i], bn)
    && (Need(v, inodes[i], bn) == 0 ==> u == v && us == ws && jnodes == inodes && now == own)
    && forall s :: s in Logged(us) ==>
      s in Logged(ws) || s == addr || 0 != s == jnodes[i].addrs[NDIRECT] || IsBitmap(sb, s)
  }

  /** What writei uses of bmap. */
  lemma MappedFacts(sb: Super, v: Disk, inodes: Inodes, own: Owner, ws: seq<Write>,
                    u: Disk, jnodes: Inodes, now: Owner, us: seq<Write>, i: nat, bn: nat, addr: Uint)
    requires Mapped(sb, v, inodes, own, ws, u, jnodes, now, us, i, bn, addr)
    ensures i in inodes && i in jnodes && bn < MAXFILE && addr != 0 && addr == Addr(u, jnodes[i], Slot(bn)) &&
      OwnerGrown(own, now)
    ensures |FreeData(sb, now.Keys)| == |FreeData(sb, own.Keys)| - Need(v, inodes[i], bn)
    ensures inodes[i].addrs[NDIRECT] != 0 ==> jnodes[i].addrs[NDIRECT] == inodes[i].addrs[NDIRECT]
    ensures forall s :: s in Logged(us) ==>
      s in Logged(ws) || s == addr || 0 != s == jnodes[i].addrs[NDIRECT] || IsBitmap(sb, s)
  {
    hide Addr, FreeData, Logged, OwnerGrown, Grown;
    GrownKeeps(v, inodes[i], u, jnodes[i], bn);
    IndirectKept(v, inodes[i], u, jnodes[i]);
  }

  lemma Needed(sb: Super, v: Disk, ip: Inode, own: Owner, bn: nat)
    requires bn < MAXFILE && |FreeData(sb, own.Keys)| >= Need(v, ip, bn)
    ensures bn < NDIRECT && ip.addrs[bn] == 0 ==> Need(v, ip, bn) > 0
    ensures bn >= NDIRECT && ip.addrs[NDIRECT] == 0 ==> Need(v, ip, bn) > 0
    ensures Need(v, ip, bn) > 0 ==> FreeData(sb, own.Keys) != {}
  {
    hide FreeData;
  }

  lemma MappedDirect(sb: Super, v: Disk, inodes: Inodes, own: Owner, ws: seq<Write>,
                     u: Disk, jnodes: Inodes, now: Owner, us: seq<Write>, i: nat, bn: nat, addr: Uint)
    requires i in inodes && i in jnodes && bn < NDIRECT && addr == jnodes[i].addrs[bn] &&
      SameFiles(v, inodes, v, inodes)
    requires if inodes[i].addrs[bn] == 0 then Attached(sb, v, inodes, own, ws, u, jnodes, now, us, i, bn, addr)
             else u == v && us == ws && jnodes == inodes && now == own
    ensures Mapped(sb, v, inodes, own, ws, u, jnodes, now, us, i, bn, addr)
  {
    hide FreeData, Logged, SameFiles;
    assert inodes[i] == inodes[i].(addrs := inodes[i].addrs);
  }

  /** With the indirect block at hand: what is still to be had for its entry. */
  lemma Halfway(sb: Super, o: nat, v: Disk, inodes: Inodes, own: Owner, ws: seq<Write>,
                u: Disk, jnodes: Inodes, now: Owner, us: seq<Write>, i: nat, bn: nat)
    requires i in inodes && i in jnodes && NDIRECT <= bn < MAXFILE &&
      |FreeData(sb, own.Keys)| >= Need(v, inodes[i], bn) && |Logged(ws)| + o < NBUF
    requires Need(v, inodes[i], bn) > 0 ==> Room(sb, o, {}, ws, Bitmaps(sb) + Indirect(inodes[i]), 1 + Spare(inodes[i]))
    requires if inodes[i].addrs[NDIRECT] == 0 then
      Attached(sb, v, inodes, own, ws, u, jnodes, now, us, i, NDIRECT, jnodes[i].addrs[NDIRECT])
             else u == v && us == ws && jnodes == inodes && now == own
    ensures jnodes[i].addrs[NDIRECT] != 0 && |Logged(us)| + o < NBUF && Slot(bn) == NDIRECT + 1 + (bn - NDIRECT)
    ensures Addr(u, jnodes[i], Slot(bn)) == 0 ==>
              Need(v, inodes[i], bn) > 0 && FreeData(sb, now.Keys) != {} &&
                Room(sb, o, {jnodes[i].addrs[NDIRECT] as nat}, us, Bitmaps(sb), 1)
  {
    hide FreeData, Logged, SameFiles, Room;
    IndirectRoom(sb, o, ws, us, inodes[i], jnodes[i].addrs[NDIRECT]);
    assert Addr(v, inodes[i], NDIRECT) == inodes[i].addrs[NDIRECT];
    if Addr(u, jnodes[i], Slot(bn)) == 0 {
      assert Addr(v, inodes[i], Slot(bn)) == 0;
    }
  }

  lemma MappedIndirect(sb: Super, v: Disk, inodes: Inodes, own: Owner, ws: seq<Write>,
                       u: Disk, jnodes: Inodes, mown: Owner, us: seq<Write>,
                       w: Disk, now: Owner, ts: seq<Write>, i: nat, bn: nat, addr: Uint)
    requires i in inodes && i in jnodes && NDIRECT <= bn < MAXFILE && SameFiles(v, inodes, v, inodes)
    requires if inodes[i].addrs[NDIRECT] == 0 then
      Attached(sb, v, inodes, own, ws, u, jnodes, mown, us, i, NDIRECT, jnodes[i].addrs[NDIRECT])
             else u == v && us == ws && jnodes == inodes && mown == own
    requires if Addr(u, jnodes[i], Slot(bn)) == 0 then
      Attached(sb, u, jnodes, mown, us, w, jnodes, now, ts, i, Slot(bn), addr)
             else addr == Addr(w, jnodes[i], Slot(bn)) && w == u && ts == us && now == mown
    ensures Mapped(sb, v, inodes, own, ws, w, jnodes, now, ts, i, bn, addr)
  {
    hide FreeData, Logged, SameFiles, Word;
    var ip, jp := inodes[i], jnodes[i];
    assert Addr(v, ip, NDIRECT) == ip.addrs[NDIRECT] && Addr(u, jp, NDIRECT) == jp.addrs[NDIRECT];
    assert ip == ip.(addrs := ip.addrs);
    if Addr(u, jp, Slot(bn)) == 0 {
      SameFilesTrans(v, inodes, u, jnodes, w, jnodes);
    }
  }

  lemma NothingNew(own: Owner)
    ensures OwnerGrown(own, own)
  {
  }

  lemma BitIs(sb: Super, v: Disk, b: nat)
    requires Sane(sb, v) && b < sb.size
    ensures BBlock(b, sb.ninodes) < |v| && (Bit(sb, v, b) <==> BitOf(v[BBlock(b, sb.ninodes)], b % BPB))
  {
    hide BitOf;
    BitmapIsMetadata(sb, b);
  }

  lemma BitmapBlock(sb: Super, v: Disk, b: nat)
    requires Sane(sb, v) && b < sb.size
    ensures IsBitmap(sb, BBlock(b, sb.ninodes)) && 2 < BBlock(b, sb.ninodes) < FirstData(sb) <= LogStart(sb)
  {
    BitmapIsMetadata(sb, b);
  }

  /** Block b, of bitmap block m, is clear and nobody's, and there is room to log m and then b. */
  ghost predicate Claimable(sb: Super, o: nat, v: Disk, rest: set<nat>, ws: seq<Write>, b: nat, m: nat) {
    && Sane(sb, v) && b < sb.size && !Bit(sb, v, b) && 1 < b && b !in rest && m == BBlock(b, sb.ninodes)
    && 1 < m < |v| && m !in rest
    && |rest + {m} + Logged(ws)| + o < NBUF && Room(sb, o, rest, ws, {m}, 1)
  }

  /** Block b is the first that its bitmap block speaks for. */
  predicate Aligned(b: nat) { b % BPB == 0 }

  /** How many blocks the bitmap block of block b speaks for. */
  function Covered(sb: Super, b: nat): nat
    requires b <= sb.size
  {
    if sb.size - b < BPB then sb.size - b else BPB
  }

  lemma CoveredBounds(sb: Super, b: nat)
    requires b < sb.size
    ensures 0 < Covered(sb, b) <= BPB && b + Covered(sb, b) <= sb.size
    ensures b + Covered(sb, b) == if b + BPB < sb.size then b + BPB else sb.size
  {
  }

  lemma NextAligned(b: nat)
    requires Aligned(b)
    ensures Aligned(b + BPB)
  {
  }

  lemma NothingBelow(sb: Super, v: Disk)
    requires Sane(sb, v)
    ensures NoneFreeBelow(sb, v, 0) && Aligned(0)
  {
  }

  lemma BlockOfBits(sb: Super, v: Disk, b: nat, n: nat, bi: nat)
    requires NoneFreeBelow(sb, v, b) && Aligned(b) && n <= BPB && b + n <= sb.size && bi <= n && 0 < n
    requires BBlock(b, sb.ninodes) < |v|
    requires var data := v[BBlock(b, sb.ninodes)];
      (forall k :: 0 <= k < bi ==> BitOf(data, k)) && (bi < n ==> !BitOf(data, bi))
    ensures NoneFreeBelow(sb, v, b + bi)
    ensures bi < n ==> !Bit(sb, v, b + bi) && BBlock(b + bi, sb.ninodes) == BBlock(b, sb.ninodes)
  {
    forall c | b <= c < b + n ensures Bit(sb, v, c) <==> BitOf(v[BBlock(b, sb.ninodes)], c - b) {
      assert c / BPB == b / BPB && c % BPB == c - b;
    }
    if bi < n {
      assert (b + bi) / BPB == b / BPB && (b + bi) % BPB == bi;
    }
  }

  /** The first clear bit of a bitmap block is the first of the disk, and its block can be claimed. */
  lemma FoundBit(sb: Super, o: nat, v: Disk, held: set<nat>, ws: seq<Write>, b: nat, bi: nat)
    requires NoneFreeBelow(sb, v, b) && Aligned(b) && b < sb.size && bi <= Covered(sb, b) && FreshOnly(sb, v, held)
    requires BBlock(b, sb.ninodes) < |v|
    requires var data := v[BBlock(b, sb.ninodes)];
      (forall k :: 0 <= k < bi ==> BitOf(data, k)) && (bi < Covered(sb, b) ==> !BitOf(data, bi))
    requires |held + {BBlock(b, sb.ninodes)} + Logged(ws)| + o < NBUF &&
      Room(sb, o, held, ws, {BBlock(b, sb.ninodes)}, 1)
    ensures NoneFreeBelow(sb, v, b + bi)
    ensures bi < Covered(sb, b) ==> Claimable(sb, o, v, held, ws, b + bi, BBlock(b, sb.ninodes))
  {
    hide BitOf, Bit, Logged, Room, FreshOnly, NoneFreeBelow, Aligned, Covered, BBlock;
    CoveredBounds(sb, b);
    BlockOfBits(sb, v, b, Covered(sb, b), bi);
    BitmapBlock(sb, v, b);
    NotHeld(sb, v, held, BBlock(b, sb.ninodes));
    if bi < Covered(sb, b) {
      NotHeld(sb, v, held, b + bi);
    }
  }

  /** Reading and then logging one sector that is not in hand. */
  lemma RoomToLog(sb: Super, o: nat, held: set<nat>, ws: seq<Write>, s: nat)
    requires Room(sb, o, held, ws, {s}, 0)
    ensures |held + Logged(ws)| + o < NBUF && |held + {s} + Logged(ws)| + o < NBUF
    ensures |Slots(ws)| < LOGSIZE && |Slots(ws)| < sb.nlog - 1
  {
    hide Slots, Logged, Room;
    RoomNow(sb, o, held, ws, {s}, 0);
    RoomStep(sb, o, held, ws, {s}, 0, held + {s}, ws, {}, 0, {});
    RoomNow(sb, o, held + {s}, ws, {}, 0);
  }

  /** Room for whichever bitmap block balloc marks, and for the block it zeroes. */
  ghost predicate BitmapFits(sb: Super, o: nat, held: set<nat>, ws: seq<Write>) {
    forall m :: IsBitmap(sb, m) ==> Room(sb, o, held, ws, {m}, 1)
  }

  /** balloc may read its superblock, and read and log any bitmap block m. */
  lemma BitmapRoom(sb: Super, o: nat, held: set<nat>, ws: seq<Write>, m: nat)
    requires BitmapFits(sb, o, held, ws)
    ensures |held + Logged(ws)| + o < NBUF
    ensures IsBitmap(sb, m) ==>
              |held + {m} + Logged(ws)| + o < NBUF && |Slots(ws)| < LOGSIZE && |Slots(ws)| < sb.nlog - 1 &&
                Room(sb, o, held, ws, {m}, 1)
  {
    hide Slots, Logged;
    var x := sb.ninodes / IPB + 3;
    assert IsBitmap(sb, x);
    RoomNow(sb, o, held, ws, {x}, 1);
    if IsBitmap(sb, m) {
      RoomToLog(sb, o, held, ws, m);
    }
  }

  /** Room is left for the block itself once the bitmap block m is logged. */
  lemma RoomAfter(sb: Super, o: nat, held: set<nat>, ws: seq<Write>, us: seq<Write>, m: nat, b: nat)
    requires Room(sb, o, held, ws, {m}, 1) && Logged(us) == Logged(ws) + {m}
    ensures Room(sb, o, held, us, {b}, 0)
  {
    hide Logged, Room;
    RoomStep(sb, o, held, ws, {m}, 1, held, us, {b}, 0, {b});
  }

  lemma AnyBitmap(sb: Super, o: nat, held: set<nat>, ws: seq<Write>)
    requires Room(sb, o, held, ws, Bitmaps(sb), 1)
    ensures BitmapFits(sb, o, held, ws)
  {
    hide Logged, Room;
    forall m | IsBitmap(sb, m) ensures Room(sb, o, held, ws, {m}, 1) {
      RoomStep(sb, o, held, ws, Bitmaps(sb), 1, held, ws, {m}, 1, {});
    }
  }

  /** After an allocation a held sector can be logged. */
  lemma AllocRoom(sb: Super, o: nat, held: set<nat>, v: Disk, inodes: Inodes, own: Owner, ws: seq<Write>, u: Disk,
      us: seq<Write>, b: nat)
    requires Room(sb, o, held, ws, Bitmaps(sb), 1) && Allocated(sb, v, inodes, own, ws, u, us, b)
    ensures |held + Logged(us)| + o < NBUF && |Slots(us)| < LOGSIZE && |Slots(us)| < sb.nlog - 1
  {
    hide Logged, Room, Slots, Refs, BitsAre, FreeData;
    RoomStep(sb, o, held, ws, Bitmaps(sb), 1, held, us, {}, 0, {b});
    RoomNow(sb, o, held, us, {}, 0);
  }

  /** The indirect block of an inode, if it has one; otherwise one block to spare for it. */
  ghost function Indirect(ip: Inode): set<nat> {
    if ip.addrs[NDIRECT] == 0 then {} else {ip.addrs[NDIRECT] as nat}
  }

  ghost function Spare(ip: Inode): nat {
    if ip.addrs[NDIRECT] == 0 then 1 else 0
  }

  lemma DirectRoom(sb: Super, o: nat, ws: seq<Write>, ip: Inode)
    requires Room(sb, o, {}, ws, Bitmaps(sb) + Indirect(ip), 1 + Spare(ip))
    ensures Room(sb, o, {}, ws, Bitmaps(sb), 1)
  {
    hide Room, Logged;
    RoomStep(sb, o, {}, ws, Bitmaps(sb) + Indirect(ip), 1 + Spare(ip), {}, ws, Bitmaps(sb), 1, {});
  }

  /** With its indirect block x at hand bmap can still read it, and allocate one more block while it holds it. */
  lemma IndirectRoom(sb: Super, o: nat, ws: seq<Write>, us: seq<Write>, ip: Inode, x: nat)
    requires |Logged(ws)| + o < NBUF
    requires forall s :: s in Logged(us) ==> s in Logged(ws) || (ip.addrs[NDIRECT] == 0 && (s == x || IsBitmap(sb, s)))
    requires ip.addrs[NDIRECT] != 0 ==> x == ip.addrs[NDIRECT]
    requires ip.addrs[NDIRECT] == 0 ==> Room(sb, o, {}, ws, Bitmaps(sb) + Indirect(ip), 1 + Spare(ip))
    ensures |Logged(us)| + o < NBUF
    ensures Room(sb, o, {}, ws, Bitmaps(sb) + Indirect(ip), 1 + Spare(ip)) ==> Room(sb, o, {x}, us, Bitmaps(sb), 1)
  {
    hide Logged, Room, Slots;
    if Room(sb, o, {}, ws, Bitmaps(sb) + Indirect(ip), 1 + Spare(ip)) {
      RoomStep(sb, o, {}, ws, Bitmaps(sb) + Indirect(ip), 1 + Spare(ip), {x}, us, Bitmaps(sb), 1,
               if ip.addrs[NDIRECT] == 0 then {x} else {});
      RoomNow(sb, o, {x}, us, Bitmaps(sb), 1);
      SubsetCount(Logged(us), {x} + Logged(us));
    } else {
      SubsetCount(Logged(us), Logged(ws));
    }
  }

  // ---- room for a write ----

  /** The blocks that n bytes from offset off on lie in. */
  function BlocksLeft(off: nat, n: nat): nat {
    if n == 0 then 0 else Blocks512(off + n) - off / BSIZE
  }

  /** Room for writei of n blocks to file i: those, its indirect block, its inode block and the bitmap. */
  ghost predicate WriteRoom(sb: Super, o: nat, ws: seq<Write>, ip: Inode, i: nat, n: nat) {
    Room(sb, o, {}, ws, Bitmaps(sb) + Indirect(ip) + {IBlock(i)}, Spare(ip) + n)
  }

  lemma WithinRoom(sb: Super, o: nat, ws: seq<Write>, us: seq<Write>, ip: Inode, jp: Inode, addr: nat)
    requires Room(sb, o, {}, ws, Bitmaps(sb) + Indirect(ip), 1 + Spare(ip))
    requires ip.addrs[NDIRECT] != 0 ==> jp.addrs[NDIRECT] == ip.addrs[NDIRECT]
    requires forall s :: s in Logged(us) ==>
      s in Logged(ws) || s == addr || 0 != s == jp.addrs[NDIRECT] || IsBitmap(sb, s)
    ensures |Logged(us)| + o < NBUF && |{addr} + Logged(us)| + o < NBUF && |Slots(us)| < LOGSIZE &&
      |Slots(us)| < sb.nlog - 1
  {
    hide Room, Logged, Slots;
    RoomStep(sb, o, {}, ws, Bitmaps(sb) + Indirect(ip), 1 + Spare(ip), {}, us, {addr}, 0,
             {addr} + if ip.addrs[NDIRECT] == 0 then {jp.addrs[NDIRECT] as nat} else {});
    RoomToLog(sb, o, {}, us, addr);
    assert {} + Logged(us) == Logged(us) && {} + {addr} + Logged(us) == {addr} + Logged(us);
  }

  /** A round of writei's loop has room for its block. */
  lemma RoundRoom(sb: Super, o: nat, ws: seq<Write>, ip: Inode, i: nat, cur: nat, left: nat)
    requires WriteRoom(sb, o, ws, ip, i, BlocksLeft(cur, left)) && 0 < left
    ensures Room(sb, o, {}, ws, Bitmaps(sb) + Indirect(ip), 1 + Spare(ip))
  {
    hide Room, Logged, Indirect, Spare, Bitmaps;
    assert cur / BSIZE < Blocks512(cur + left);
    RoomStep(sb, o, {}, ws, Bitmaps(sb) + Indirect(ip) + {IBlock(i)}, Spare(ip) + BlocksLeft(cur, left),
             {}, ws, Bitmaps(sb) + Indirect(ip), 1 + Spare(ip), {});
  }

  /** ... and leaves room for the blocks after it. */
  lemma RoomLeft(sb: Super, o: nat, ws: seq<Write>, us: seq<Write>, v: Disk, ip: Inode, u: Disk, jp: Inode, i: nat,
      cur: nat,
      left: nat, m: nat)
    requires WriteRoom(sb, o, ws, ip, i, BlocksLeft(cur, left)) && 0 < m <= left && cur < MAXBYTES &&
      RefsKept(v, ip, u, jp)
    requires m == left || (cur + m) % BSIZE == 0
    requires LogsOnly(sb, ws, us, WriteSectors(u, jp, cur / BSIZE, cur / BSIZE + 1))
    ensures WriteRoom(sb, o, us, jp, i, BlocksLeft(cur + m, left - m))
  {
    hide Room, Logged, WriteSectors, Addr, RefsKept, LogsOnly, Bitmaps, BlocksLeft, Indirect, Spare;
    var bn := cur / BSIZE;
    var more := {Addr(u, jp, Slot(bn)) as nat} + (Indirect(jp) - Indirect(ip));
    IndirectKept(v, ip, u, jp);
    SpareCount(ip, jp, Addr(u, jp, Slot(bn)));
    OneBlockSectors(sb, ws, us, u, jp, bn);
    LeftShrinks(cur, left, m);
    SectorsWithin(Logged(ws), Logged(us), Bitmaps(sb), Indirect(ip), Indirect(jp), {IBlock(i)}, Addr(u, jp, Slot(bn)),
      more);
    RoomStep(sb, o, {}, ws, Bitmaps(sb) + Indirect(ip) + {IBlock(i)}, Spare(ip) + BlocksLeft(cur, left),
             {}, us, Bitmaps(sb) + Indirect(jp) + {IBlock(i)}, Spare(jp) + BlocksLeft(cur + m, left - m), more);
  }

  lemma SpareCount(ip: Inode, jp: Inode, a: nat)
    requires ip.addrs[NDIRECT] != 0 ==> jp.addrs[NDIRECT] == ip.addrs[NDIRECT]
    ensures |{a} + (Indirect(jp) - Indirect(ip))| + Spare(jp) <= 1 + Spare(ip)
  {
    if ip.addrs[NDIRECT] == 0 && jp.addrs[NDIRECT] != 0 {
      assert {a} + (Indirect(jp) - Indirect(ip)) == {a, jp.addrs[NDIRECT] as nat};
    } else {
      assert {a} + (Indirect(jp) - Indirect(ip)) == {a};
    }
  }

  lemma SectorsWithin(was: set<nat>, now: set<nat>, bitmaps: set<nat>, x: set<nat>, y: set<nat>, i: set<nat>, a: nat,
      more: set<nat>)
    requires (forall s :: s in now ==> s in was || s == a || s in y || s in bitmaps) && y <= x + more && a in more
    ensures {} + now + (bitmaps + y + i) <= {} + was + (bitmaps + x + i) + more
  {
  }

  lemma LeftShrinks(cur: nat, left: nat, m: nat)
    requires 0 < m <= left && (m == left || (cur + m) % BSIZE == 0)
    ensures BlocksLeft(cur + m, left - m) + 1 <= BlocksLeft(cur, left)
  {
    assert cur / BSIZE < Blocks512(cur + left);
    if m < left {
      assert cur / BSIZE + 1 <= (cur + m) / BSIZE;
    }
  }

  lemma IndirectKept(v: Disk, ip: Inode, u: Disk, jp: Inode)
    requires RefsKept(v, ip, u, jp)
    ensures ip.addrs[NDIRECT] != 0 ==> jp.addrs[NDIRECT] == ip.addrs[NDIRECT]
  {
    assert Addr(v, ip, NDIRECT) == ip.addrs[NDIRECT] && Addr(u, jp, NDIRECT) == jp.addrs[NDIRECT];
  }

  lemma OneBlockSectors(sb: Super, ws: seq<Write>, us: seq<Write>, u: Disk, jp: Inode, bn: nat)
    requires bn < MAXFILE && LogsOnly(sb, ws, us, WriteSectors(u, jp, bn, bn + 1))
    ensures forall s :: s in Logged(us) ==>
      s in Logged(ws) || s == Addr(u, jp, Slot(bn)) || s in Indirect(jp) || s in Bitmaps(sb)
  {
    hide Logged;
    var sectors := WriteSectors(u, jp, bn, bn + 1);
    forall s | s in sectors ensures s == Addr(u, jp, Slot(bn)) || 0 != s == jp.addrs[NDIRECT] {
      var k :| 0 <= k < SLOTS && (k == NDIRECT || SlotIn(k, bn, bn + 1)) && Addr(u, jp, k) != 0 && s == Addr(u, jp, k);
      assert k == NDIRECT || k == Slot(bn);
    }
  }

  lemma UpdateRoom(sb: Super, o: nat, ws: seq<Write>, ip: Inode, i: nat)
    requires WriteRoom(sb, o, ws, ip, i, 0)
    ensures Room(sb, o, {}, ws, {IBlock(i)}, 0)
  {
    hide Room, Logged, Indirect, Spare, Bitmaps;
    RoomStep(sb, o, {}, ws, Bitmaps(sb) + Indirect(ip) + {IBlock(i)}, Spare(ip), {}, ws, {IBlock(i)}, 0, {});
  }

  lemma NoSectors(sb: Super, ws: seq<Write>, sectors: set<nat>)
    ensures LogsOnly(sb, ws, ws, sectors)
  {
  }

  lemma OneLogged(sb: Super, ws: seq<Write>, us: seq<Write>, s: nat)
    requires Logged(us) == Logged(ws) + {s}
    ensures LogsOnly(sb, ws, us, {s})
  {
  }

  lemma LogsOnlyMore(sb: Super, ws: seq<Write>, us: seq<Write>, a: set<nat>, b: set<nat>)
    requires LogsOnly(sb, ws, us, a)
    ensures LogsOnly(sb, ws, us, a + b)
  {
  }

  /** What bmap and then storing one block come to. */
  lemma WroteOne(sb: Super, v: Disk, inodes: Inodes, own: Owner, ws: seq<Write>, u: Disk, jnodes: Inodes, now: Owner,
                 us: seq<Write>, w: Disk, i: nat, off: nat, src: seq<Byte>, addr: Uint)
    requires off < MAXBYTES && Mapped(sb, v, inodes, own, ws, u, jnodes, now, us, i, off / BSIZE, addr) &&
      FirstData(sb) <= addr
    requires |w| == |u| && (forall x :: 0 <= x < |u| && x != addr ==> w[x] == u[x])
    requires forall k :: 0 <= k < SLOTS ==> Addr(w, jnodes[i], k) == Addr(u, jnodes[i], k)
    requires (forall h :: h in jnodes && h != i ==> SameData(u, jnodes[h], w, jnodes[h]))
    requires Overlaid(u, jnodes[i], w, jnodes[i], off, src)
    ensures WroteWithin(sb, v, inodes, w, jnodes, i, off, src)
  {
    hide Addr, Data, FreeData, Logged, OwnerGrown;
    assert SameData(v, inodes[i], u, jnodes[i]);
    forall h | h in inodes && h != i ensures SameData(v, inodes[h], w, inodes[h]) {
      assert h in jnodes && SameData(v, inodes[h], u, jnodes[h]);
      SameDataTrans(v, inodes[h], u, jnodes[h], w, jnodes[h]);
    }
  }

  /** Overwriting part of a mapped block. */
  lemma PatchedBlock(sb: Super, v: Disk, inodes: Inodes, own: Owner, ws: seq<Write>, u: Disk, jnodes: Inodes,
                     now: Owner, us: seq<Write>, ts: seq<Write>, i: nat, off: nat, src: seq<Byte>, addr: Uint)
    requires off % BSIZE + |src| <= BSIZE && 0 < |src| && off + |src| <= MAXBYTES
    requires Mapped(sb, v, inodes, own, ws, u, jnodes, now, us, i, off / BSIZE, addr)
    requires Sane(sb, u) && Refs(sb, u, jnodes, now) && BitsAre(sb, u, now.Keys)
    requires FirstData(sb) <= addr < |u| && Logged(ts) == Logged(us) + {addr as nat}
    ensures var w := u[addr := Patched(u[addr], off % BSIZE, src)];
      && Refs(sb, w, jnodes, now) && BitsAre(sb, w, now.Keys) && i in jnodes
      && WroteWithin(sb, v, inodes, w, jnodes, i, off, src)
      && LogsOnly(sb, ws, ts, WriteSectors(w, jnodes[i], off / BSIZE, off / BSIZE + 1))
  {
    hide Bit, Refs, Logged, FreeData, BitsAre, Data, Addr, Need, WriteSectors, Mapped, WroteWithin, OwnerGrown,
      LogsOnly, IsBitmap, Patched, Overlaid;
    var bn, data := off / BSIZE, Patched(u[addr], off % BSIZE, src);
    var w := u[addr := data];
    MappedFacts(sb, v, inodes, own, ws, u, jnodes, now, us, i, bn, addr);
    WriteData(sb, u, jnodes, now, i, bn, data);
    BitsFrame(sb, u, now.Keys, addr, data);
    PatchedData(u, w, jnodes[i], off, src, addr, data);
    WroteOne(sb, v, inodes, own, ws, u, jnodes, now, us, w, i, off, src, addr);
    OneBlockLogged(sb, ws, us, ts, w, jnodes[i], bn);
  }

  // ---- writei's loop ----

  /** The loop has written the first tot bytes of src: what has changed, what has been logged, and what is still
      needed. */
  ghost predicate SoFar(sb: Super, o: nat, v: Disk, inodes: Inodes, own: Owner, ws: seq<Write>,
                        u: Disk, jnodes: Inodes, now: Owner, us: seq<Write>, i: nat, off: nat, src: seq<Byte>,
                        tot: nat) {
    && i in inodes && i in jnodes && off + |src| <= MAXBYTES && tot <= |src|
    && (tot == 0 || tot == |src| || (off + tot) % BSIZE == 0)
    && OwnerGrown(own, now) && Wrote(sb, v, inodes, u, jnodes, i, off, src[..tot])
    && LogsOnly(sb, ws, us, WriteSectors(u, jnodes[i], off / BSIZE, Blocks512(off + tot)))
    && WriteRoom(sb, o, us, jnodes[i], i, BlocksLeft(off + tot, |src| - tot))
    && |FreeData(sb, now.Keys)| >= Needs(u, jnodes[i], off + tot, off + |src|)
    && |FreeData(sb, own.Keys)| - |FreeData(sb, now.Keys)| ==
      Needs(v, inodes[i], off, off + |src|) - Needs(u, jnodes[i], off + tot, off + |src|)
  }

  /** The blocks that bytes off up to end still have to be given. */
  ghost function Needs(v: Disk, ip: Inode, off: nat, end: nat): nat {
    if off < end then |Missing(v, ip, off / BSIZE, Blocks512(end))| else 0
  }

  lemma SoFarNothing(sb: Super, o: nat, v: Disk, inodes: Inodes, own: Owner, ws: seq<Write>, i: nat, off: nat,
      src: seq<Byte>)
    requires i in inodes && off + |src| <= MAXBYTES && WriteRoom(sb, o, ws, inodes[i], i, BlocksLeft(off, |src|))
    requires |FreeData(sb, own.Keys)| >= |Missing(v, inodes[i], off / BSIZE, Blocks512(off + |src|))|
    ensures SoFar(sb, o, v, inodes, own, ws, v, inodes, own, ws, i, off, src, 0)
  {
    hide Wrote, WriteSectors, Missing, FreeData, LogsOnly, WriteRoom, OwnerGrown, BlocksLeft;
    WroteNothing(sb, v, inodes, own, i, off);
    NothingNew(own);
    NoSectors(sb, ws, WriteSectors(v, inodes[i], off / BSIZE, Blocks512(off)));
    assert src[..0] == [];
  }

  lemma SoFarRoom(sb: Super, o: nat, v: Disk, inodes: Inodes, own: Owner, ws: seq<Write>,
                  u: Disk, jnodes: Inodes, now: Owner, us: seq<Write>, i: nat, off: nat, src: seq<Byte>, tot: nat)
    requires SoFar(sb, o, v, inodes, own, ws, u, jnodes, now, us, i, off, src, tot) && tot < |src|
    ensures i in jnodes && off + |src| <= MAXBYTES &&
      |FreeData(sb, now.Keys)| >= Need(u, jnodes[i], (off + tot) / BSIZE)
    ensures Room(sb, o, {}, us, Bitmaps(sb) + Indirect(jnodes[i]), 1 + Spare(jnodes[i]))
  {
    hide Wrote, WriteSectors, Missing, FreeData, LogsOnly, WriteRoom, OwnerGrown, Room, Need, BlocksLeft, Indirect,
      Spare, Bitmaps;
    RoundRoom(sb, o, us, jnodes[i], i, off + tot, |src| - tot);
    MissingCoversNeed(u, jnodes[i], (off + tot) / BSIZE, Blocks512(off + |src|));
  }

  lemma SoFarMore(sb: Super, o: nat, v: Disk, inodes: Inodes, own: Owner, ws: seq<Write>, u: Disk, jnodes: Inodes,
      mown: Owner,
      us: seq<Write>,
                  w: Disk, knodes: Inodes, now: Owner, ts: seq<Write>, i: nat, off: nat, src: seq<Byte>, tot: nat,
                    m: nat)
    requires SoFar(sb, o, v, inodes, own, ws, u, jnodes, mown, us, i, off, src, tot) && 0 < m && tot + m <= |src|
    requires (off + tot) % BSIZE + m <= BSIZE && (tot + m == |src| || (off + tot) % BSIZE + m == BSIZE)
    requires WroteWithin(sb, u, jnodes, w, knodes, i, off + tot, src[tot..tot + m]) && OwnerGrown(mown, now) &&
      i in knodes
    requires |FreeData(sb, now.Keys)| == |FreeData(sb, mown.Keys)| - Need(u, jnodes[i], (off + tot) / BSIZE)
    requires LogsOnly(sb, us, ts, WriteSectors(w, knodes[i], (off + tot) / BSIZE, (off + tot) / BSIZE + 1))
    ensures SoFar(sb, o, v, inodes, own, ws, w, knodes, now, ts, i, off, src, tot + m)
  {
    hide Wrote, WroteWithin, WriteSectors, Missing, FreeData, LogsOnly, WriteRoom, OwnerGrown, Need, BlocksLeft,
      RefsKept, Grown, Addr;
    var cur := off + tot;
    WithinKeeps(sb, u, jnodes, w, knodes, i, cur, src[tot..tot + m]);
    RoomLeft(sb, o, us, ts, u, jnodes[i], w, knodes[i], i, cur, |src| - tot, m);
    LoopStep(sb, v, inodes, ws, u, jnodes, us, w, knodes, ts, i, off, src, tot, m);
    GrownTwice(own, mown, now);
  }

  lemma SoFarDone(sb: Super, o: nat, v: Disk, inodes: Inodes, own: Owner, ws: seq<Write>,
                  u: Disk, jnodes: Inodes, now: Owner, us: seq<Write>, i: nat, off: nat, src: seq<Byte>)
    requires SoFar(sb, o, v, inodes, own, ws, u, jnodes, now, us, i, off, src, |src|)
    ensures i in inodes && i in jnodes && OwnerGrown(own, now) && Wrote(sb, v, inodes, u, jnodes, i, off, src)
    ensures LogsOnly(sb, ws, us, WriteSectors(u, jnodes[i], off / BSIZE, Blocks512(off + |src|)))
    ensures WriteRoom(sb, o, us, jnodes[i], i, 0)
    ensures |src| > 0 ==>
      |FreeData(sb, now.Keys)| ==
      |FreeData(sb, own.Keys)| - |Missing(v, inodes[i], off / BSIZE, Blocks512(off + |src|))|
  {
    hide Wrote, WriteSectors, Missing, FreeData, LogsOnly, WriteRoom, OwnerGrown;
    assert src[..|src|] == src;
  }

  /** These are the bytes of the file from off on. */
  ghost predicate Reads(v: Disk, ip: Inode, off: nat, dst: seq<Byte>) {
    off + |dst| <= MAXBYTES && forall j :: 0 <= j < |dst| ==> dst[j] == Data(v, ip, off + j)
  }

  lemma PartRead(v: Disk, ip: Inode, off: nat, m: nat)
    requires off % BSIZE + m <= BSIZE && off + m <= MAXBYTES && 0 < m && 0 < Addr(v, ip, Slot(off / BSIZE)) < |v|
    ensures Reads(v, ip, off, v[Addr(v, ip, Slot(off / BSIZE))].bytes[off % BSIZE..off % BSIZE + m])
  {
    hide Addr;
    var part := v[Addr(v, ip, Slot(off / BSIZE))].bytes[off % BSIZE..off % BSIZE + m];
    forall j | 0 <= j < m ensures part[j] == Data(v, ip, off + j) {
      Offset(off, j);
    }
  }

  lemma Offset(off: nat, j: nat)
    requires off % BSIZE + j < BSIZE
    ensures (off + j) / BSIZE == off / BSIZE && (off + j) % BSIZE == off % BSIZE + j
  {
  }

  lemma ReadsNothing(v: Disk, ip: Inode, off: nat)
    ensures off <= MAXBYTES ==> Reads(v, ip, off, [])
  {
  }

  lemma ReadsMore(v: Disk, ip: Inode, off: nat, dst: seq<Byte>, part: seq<Byte>)
    requires Reads(v, ip, off, dst) && Reads(v, ip, off + |dst|, part)
    ensures Reads(v, ip, off, dst + part)
  {
    hide Data;
  }

  lemma ReadsAll(v: Disk, ip: Inode, off: nat, dst: seq<Byte>)
    requires Reads(v, ip, off, dst)
    ensures off + |dst| <= MAXBYTES && forall j :: 0 <= j < |dst| ==> dst[j] == Data(v, ip, off + j)
  {
  }

  lemma WithinFile(sb: Super, v: Disk, inodes: Inodes, i: nat)
    requires i in inodes && Sane(sb, v) && FileOk(sb, v, inodes, i)
    ensures inodes[i].size <= MAXBYTES
  {
  }

  lemma HasBlock(sb: Super, v: Disk, inodes: Inodes, i: nat, cur: nat)
    requires i in inodes && Sane(sb, v) && FileOk(sb, v, inodes, i) && cur < inodes[i].size
    ensures cur / BSIZE < MAXFILE && Addr(v, inodes[i], Slot(cur / BSIZE)) != 0
  {
    hide Addr, DiskInode;
  }

  // ---- room for itrunc ----

  lemma FreeingRoom(sb: Super, o: nat, held: set<nat>, ws: seq<Write>, us: seq<Write>)
    requires Room(sb, o, held, ws, Bitmaps(sb), 0) && LogsOnly(sb, ws, us, {})
    ensures Room(sb, o, held, us, Bitmaps(sb), 0)
  {
    hide Room, Logged;
    RoomStep(sb, o, held, ws, Bitmaps(sb), 0, held, us, Bitmaps(sb), 0, {});
  }

  /** Freeing logs bitmap blocks only, so room set aside for them lasts. */
  lemma BitmapsOnly(sb: Super, o: nat, held: set<nat>, ws: seq<Write>, us: seq<Write>, extra: set<nat>)
    requires Room(sb, o, held, ws, Bitmaps(sb) + extra, 0) && LogsOnly(sb, ws, us, {})
    ensures Room(sb, o, held, us, Bitmaps(sb) + extra, 0)
  {
    hide Room, Logged;
    RoomStep(sb, o, held, ws, Bitmaps(sb) + extra, 0, held, us, Bitmaps(sb) + extra, 0, {});
  }

  lemma TruncRoom(sb: Super, o: nat, ws: seq<Write>, x: nat)
    requires Room(sb, o, {}, ws, Bitmaps(sb) + {x}, 0)
    ensures |Logged(ws)| + o < NBUF && Room(sb, o, {x}, ws, Bitmaps(sb), 0) &&
      Room(sb, o, {}, ws, Bitmaps(sb) + {}, 0) &&
      Room(sb, o, {}, ws, Bitmaps(sb), 0)
    ensures Room(sb, o, {x}, ws, Bitmaps(sb) + {}, 0)
  {
    hide Room, Logged, Bitmaps;
    RoomNow(sb, o, {}, ws, Bitmaps(sb) + {x}, 0);
    assert {} + Logged(ws) == Logged(ws);
    RoomStep(sb, o, {}, ws, Bitmaps(sb) + {x}, 0, {x}, ws, Bitmaps(sb), 0, {});
    RoomStep(sb, o, {}, ws, Bitmaps(sb) + {x}, 0, {x}, ws, Bitmaps(sb) + {}, 0, {});
    RoomStep(sb, o, {}, ws, Bitmaps(sb) + {x}, 0, {}, ws, Bitmaps(sb) + {}, 0, {});
    RoomStep(sb, o, {}, ws, Bitmaps(sb) + {x}, 0, {}, ws, Bitmaps(sb), 0, {});
  }

  lemma TruncateRoom(sb: Super, o: nat, ws: seq<Write>, ip: Inode, i: nat)
    requires WriteRoom(sb, o, ws, ip, i, 0)
    ensures Room(sb, o, {}, ws, Bitmaps(sb) + Indirect(ip), 0) && Room(sb, o, {}, ws, Bitmaps(sb) + {IBlock(i)}, 0)
  {
    hide Room, Logged, Bitmaps, Indirect;
    RoomStep(sb, o, {}, ws, Bitmaps(sb) + Indirect(ip) + {IBlock(i)}, Spare(ip), {}, ws, Bitmaps(sb) + Indirect(ip), 0,
      {});
    RoomStep(sb, o, {}, ws, Bitmaps(sb) + Indirect(ip) + {IBlock(i)}, Spare(ip), {}, ws, Bitmaps(sb) + {IBlock(i)}, 0,
      {});
  }

  lemma NoHoles()
    ensures Upto(SLOTS) - {NDIRECT} + {NDIRECT} == Upto(SLOTS)
  {
  }

  lemma Emptied(addrs: Addrs)
    ensures ZeroedUpto(addrs, NDIRECT)[NDIRECT] == addrs[NDIRECT] &&
      ZeroedUpto(addrs, NDIRECT)[NDIRECT := 0] == FREE_INODE.addrs
    ensures addrs[NDIRECT] == 0 ==> ZeroedUpto(addrs, NDIRECT) == FREE_INODE.addrs
  {
  }

  lemma TruncatedInodes(sb: Super, v: Disk, inodes: Inodes, u: Disk)
    requires Sane(sb, v) && OnlyBitmap(sb, v, u, inodes)
    ensures |u| == |v| && forall j :: 0 <= j < sb.ninodes ==> IBlock(j) < |v| && DiskInode(u, j) == DiskInode(v, j)
  {
    hide SameFiles, GetDinode;
  }

  lemma TruncatedOthers(sb: Super, v: Disk, inodes: Inodes, u: Disk, w: Disk, jnodes: Inodes, i: nat)
    requires i in jnodes && jnodes == inodes[i := jnodes[i]] && OnlyBitmap(sb, v, u, inodes) &&
      SameFiles(u, jnodes, w, jnodes)
    ensures forall h :: h in jnodes && h != i ==> SameData(v, jnodes[h], w, jnodes[h])
  {
    hide Data;
    forall h | h in jnodes && h != i ensures SameData(v, jnodes[h], w, jnodes[h]) {
      assert h in inodes;
      SameDataTrans(v, inodes[h], u, jnodes[h], w, jnodes[h]);
    }
  }

  /** File i is gone with all its blocks; every other file has its bytes. */
  ghost predicate Discarded(v: Disk, inodes: Inodes, own: Owner, u: Disk, jnodes: Inodes, now: Owner, i: nat) {
    && i in inodes && i in jnodes && jnodes == inodes[i := inodes[i].(typ := 0, addrs := jnodes[i].addrs, size := 0)]
    && (forall k :: 0 <= k <= NDIRECT ==> jnodes[i].addrs[k] == 0)
    && now == own - BlocksOf(own, i)
    && forall h :: h in inodes && h != i ==> SameData(v, inodes[h], u, inodes[h])
  }

  lemma Numbered(sb: Super, v: Disk, inodes: Inodes, i: nat)
    requires i in inodes && Sane(sb, v) && FileOk(sb, v, inodes, i)
    ensures i < sb.ninodes
  {
  }

  /** Having logged bitmap blocks and the inode's block, there is room to log that block again. */
  lemma InodeRoom(sb: Super, o: nat, ws: seq<Write>, us: seq<Write>, i: nat)
    requires Room(sb, o, {}, ws, Bitmaps(sb) + {IBlock(i)}, 0) && LogsOnly(sb, ws, us, {IBlock(i)})
    ensures Room(sb, o, {}, us, {IBlock(i)}, 0)
  {
    hide Room, Logged;
    RoomStep(sb, o, {}, ws, Bitmaps(sb) + {IBlock(i)}, 0, {}, us, {IBlock(i)}, 0, {});
  }

  lemma FreedFiles(sb: Super, v: Disk, inodes: Inodes, u: Disk, jnodes: Inodes, w: Disk, knodes: Inodes, i: nat)
    requires Sane(sb, u) && Sane(sb, w) && i in inodes && i in jnodes && i < sb.ninodes &&
      jnodes == inodes[i := jnodes[i]]
    requires knodes == jnodes[i := jnodes[i].(typ := 0)] && jnodes[i].size == 0
    requires forall h :: h in jnodes && h != i ==> SameData(v, jnodes[h], u, jnodes[h])
    requires forall h :: h in jnodes ==> FileOk(sb, u, jnodes, h)
    requires SameFiles(u, knodes, w, knodes) && SameRefs(u, w, knodes)
    requires forall j :: 0 <= j < sb.ninodes ==> DiskInode(w, j) == if j == i then knodes[i] else DiskInode(u, j)
    ensures forall h :: h in knodes ==> FileOk(sb, w, knodes, h)
    ensures forall h :: h in inodes && h != i ==> SameData(v, inodes[h], w, inodes[h])
  {
    hide Data, GetDinode, Addr;
    forall h | h in knodes ensures FileOk(sb, w, knodes, h) {
      assert FileOk(sb, u, jnodes, h) && SameRefsOf(u, w, knodes[h]);
    }
    forall h | h in inodes && h != i ensures SameData(v, inodes[h], w, inodes[h]) {
      assert h in knodes && h in jnodes;
      SameDataTrans(v, inodes[h], u, inodes[h], w, inodes[h]);
    }
  }

  /** bmap may need a block for entry j of the indirect block; if so, there is one, and room for it. */
  ghost predicate EntryRoom(sb: Super, o: nat, v: Disk, ip: Inode, own: Owner, ws: seq<Write>, j: nat, busy: bool)
    requires j < NINDIRECT
  {
    Addr(v, ip, NDIRECT + 1 + j) == 0 ==>
      busy && FreeData(sb, own.Keys) != {} && Room(sb, o, {ip.addrs[NDIRECT] as nat}, ws, Bitmaps(sb), 1)
  }

  /** What bmap does to entry j: a missing block is attached, a present one is found. */
  ghost predicate Entered(sb: Super, v: Disk, inodes: Inodes, own: Owner, ws: seq<Write>, u: Disk, now: Owner,
                          us: seq<Write>, i: nat, j: nat, addr: Uint)
    requires i in inodes && j < NINDIRECT
  {
    if Addr(v, inodes[i], NDIRECT + 1 + j) == 0
    then Attached(sb, v, inodes, own, ws, u, inodes, now, us, i, NDIRECT + 1 + j, addr)
    else addr == Addr(u, inodes[i], NDIRECT + 1 + j) && u == v && us == ws && now == own
  }

  class FileSystem {
    const sb: Super
    const log: J.Journal
    var inodes: Inodes             // in-memory inodes by number
    ghost var view: Disk           // block contents as the open transaction sees them
    ghost var base: Disk           // block contents when the transaction began
    ghost var ws: seq<Write>       // its log_writes so far
    ghost var held: map<nat, nat>  // the sectors this process holds, and their buffers
    ghost var owner: Owner
    const others: nat              // how many buffers other processes may hold at a time
    var theirs: map<nat, nat>      // the sectors they hold now, and the buffers

    /** The kernel with its log recovered and a superblock that describes the disk. */
    constructor (log: J.Journal, sb: Super, inodes: Inodes, others: nat, ghost owner: Owner)
      requires log.Valid() && !log.busy && Held(log.bc.buf) == {} && log.base == log.bc.disk
      requires log.a.start == LogStart(sb) && log.a.size == sb.nlog
      requires Sane(sb, log.base) && SuperOf(log.base[1]) == sb
      ensures this.sb == sb && this.log == log && view == log.bc.disk && this.inodes == inodes && this.owner == owner
      ensures InTrans() && base == view && ws == [] && held == map[] && this.others == others
    {
      this.sb, this.log, this.inodes, this.owner, this.others := sb, log, inodes, owner, others;
      view, base, ws, held, theirs := log.base, log.base, [], map[], map[];
    }

    /** Log, cache and processes agree: the buffers they hold are busy with the view's contents. */
    ghost predicate Synced()
      reads `view, `base, `ws, `held, `theirs, log, log.bc
    {
      && log.Valid() && log.a.start == LogStart(sb) && log.a.size == sb.nlog
      && base == log.base && ws == log.ws && |view| == |base|
      && Shared(sb, others, log.bc.buf, held, theirs, view)
    }

    /** The open transaction's view is what its log_writes make of the disk it began with. */
    ghost predicate InTrans()
      reads `view, `base, `ws, `held, `theirs, log, log.bc
    {
      && Synced() && view == Apply(base, ws)
      && Sane(sb, view) && 1 < |view| && SuperOf(view[1]) == sb
    }

    // ---- buffers and the log ----

    /** bread, with whatever others do before it is granted. The last requires leaves room for what they may hold: with
        it, bget finds a buffer. */
    method Bread(s: Uint) returns (b: nat)
      requires InTrans() && s < LogStart(sb) && s !in held
      requires |held.Keys + Logged(ws)| + others < NBUF
      modifies this`held, this`theirs, log.bc
      ensures InTrans() && held == old(held)[s := b] && held.Keys == old(held).Keys + {s} && held - {s} == old(held)
    {
      hide Synced, Apply, SuperOf, Logged;
      Meanwhile(s);
      b := Acquire(s);
    }

    /** bread of a block that nobody holds. */
    method Acquire(s: Uint) returns (b: nat)
      requires InTrans() && s < LogStart(sb) && s !in held && s !in theirs
      requires |held.Keys + Logged(ws)| + others < NBUF
      modifies this`held, log.bc
      ensures InTrans() && held == old(held)[s := b] && held.Keys == old(held).Keys + {s} && held - {s} == old(held)
    {
      hide Apply, SuperOf, Held, Dirty, BufferCache.Valid, J.InStep, Logged, Cached, Shared;
      LogFacts();
      SharedCount(sb, others, log.bc.buf, held, theirs, view, Logged(ws), s);
      b := log.bc.Bread(ROOTDEV, s);
      OneMoreOurs(sb, others, old(log.bc.buf), log.bc.buf, held, theirs, view, s, b);
      HeldMore(held, s, b);
      held := held[s := b];
    }

    /** Until sector s is not held by anybody else: other processes read blocks below the log and let go of them. */
    method Meanwhile(s: Uint)
      requires InTrans() && |held.Keys + Logged(ws)| + others < NBUF
      modifies this`theirs, log.bc
      ensures InTrans() && s !in theirs
    {
      hide Synced, Apply, SuperOf, Logged;
      var steps: nat := *;
      while steps > 0
        invariant InTrans()
      {
        var t: Uint := *;
        if t in theirs {
          LetGo(t);
        } else if t < LogStart(sb) && |theirs| < others && Idle(log.bc.buf, t) {
          Take(t);
        }
        steps := steps - 1;
      }
      if s in theirs {
        LetGo(s);
      }
    }

    /** bread by somebody else. */
    method Take(t: Uint)
      requires InTrans() && t < LogStart(sb) && t !in theirs && |theirs| < others && Idle(log.bc.buf, t)
      requires |held.Keys + Logged(ws)| + others < NBUF
      modifies this`theirs, log.bc
      ensures InTrans()
    {
      hide Apply, SuperOf, Held, Idle, Dirty, BufferCache.Valid, J.InStep, Logged, Cached, Shared;
      LogFacts();
      SharedCount(sb, others, log.bc.buf, held, theirs, view, Logged(ws), t);
      ghost var was := log.bc.buf;
      var b := log.bc.Bread(ROOTDEV, t);
      OneMoreTheirs(sb, others, was, log.bc.buf, held, theirs, view, t, b);
      theirs := theirs[t := b];
    }

    /** brelse by somebody else. */
    method LetGo(t: nat)
      requires InTrans() && t in theirs
      modifies this`theirs, log.bc
      ensures InTrans() && theirs == old(theirs) - {t}
    {
      hide Apply, SuperOf, Held, Dirty, BufferCache.Valid, J.InStep, Logged, Shared;
      LogFacts();
      TheirBuffer(sb, others, log.bc.buf, held, theirs, view, t);
      ghost var was := log.bc.buf;
      log.bc.Brelse(theirs[t]);
      OneLessTheirs(sb, others, was, log.bc.buf, held, theirs, view, t);
      theirs := theirs - {t};
    }

    /** What the log's invariant gives its user: dirty is logged, and the latest data below the log is the view. */
    lemma LogFacts()
      requires log.Valid() && ws == log.ws && base == log.base
      ensures Dirty(log.bc.buf) == Logged(ws) && |log.bc.disk| == |base| == |log.bc.latest| && log.n == |Slots(ws)|
      ensures forall s :: 0 <= s < log.a.start ==> s < |base| && log.bc.latest[s] == Apply(base, ws)[s]
    {
      hide Apply, Slots;
    }

    /** bp->data of a held buffer. */
    method Contents(b: nat, ghost s: nat) returns (data: Block)
      requires InTrans() && s in held && held[s] == b
      ensures s < |view| && data == view[s]
    {
      OurBuffer(sb, others, log.bc.buf, held, theirs, view, s);
      data := log.bc.buf[b].data;
    }

    /** brelse of a held buffer. */
    method Brelse(b: nat, ghost s: nat)
      requires InTrans() && s in held && held[s] == b
      modifies this`held, this`theirs, log.bc
      ensures InTrans() && held == old(held) - {s}
    {
      hide Apply, SuperOf, Held, Dirty, BufferCache.Valid, J.InStep, Logged, Shared;
      LogFacts();
      OurBuffer(sb, others, log.bc.buf, held, theirs, view, s);
      log.bc.Brelse(b);
      OneLessOurs(sb, others, old(log.bc.buf), log.bc.buf, held, theirs, view, s);
      held := held - {s};
    }

    /** A held buffer gets new contents, then log_write. The last two requires are the cache's and log_write's panic. */
    method LogWrite(b: nat, ghost s: Uint, data: Block)
      requires InTrans() && log.busy && s in held && held[s] == b && 1 < s
      requires |held.Keys + Logged(ws)| + others < NBUF
      requires |Slots(ws)| < LOGSIZE && |Slots(ws)| < sb.nlog - 1
      modifies this`view, this`ws, log`n, log`sector, log`ws, log.bc
      ensures InTrans() && log.busy
      ensures s < |old(view)| && view == old(view)[s := data] && ws == old(ws) + [Write(s, data)]
      ensures Logged(ws) == Logged(old(ws)) + {s}
    {
      hide Apply, Slots, SuperOf, Held, Dirty, BufferCache.Valid, J.InStep, Named, Shared, Logged;
      LogFacts();
      OurBuffer(sb, others, log.bc.buf, held, theirs, view, s);
      SharedCount(sb, others, log.bc.buf, held, theirs, view, Logged(ws), s);
      ApplySnoc(base, ws, Write(s, data));
      LoggedMore(ws, s, data);
      log.bc.Store(b, data);
      log.LogWrite(b);
      SharedStored(sb, others, old(log.bc.buf), log.bc.buf, held, theirs, view, s, data);
      view := view[s := data];
      ws := ws + [Write(s, data)];
    }

    /** begin_trans: from here on the log_writes are collected. */
    method BeginTrans()
      requires InTrans() && !log.busy
      modifies log`busy, log`base, log`ws, log`mark
      ensures InTrans() && log.busy && base == view && ws == [] && log.mark == log.bc.trace
    {
      hide BufferCache.Valid, Held;
      StartsEmpty();
      log.BeginTrans();
    }

    lemma StartsEmpty()
      requires InTrans() && !log.busy
      ensures ws == [] && view == base == log.bc.disk
    {
    }

    /** commit_trans. From here on the view is the disk itself; it differs from the transaction's in the log area
        only. */
    method CommitTrans()
      requires InTrans() && log.busy && held == map[] && |Logged(ws)| + others < NBUF
      modifies this`view, this`base, this`ws, this`theirs, log, log.bc
      ensures InTrans() && !log.busy && base == view && ws == [] && view == log.bc.disk
      ensures Committed(sb, log.a, old(base), old(ws), old(log.mark), log.bc.trace, view)
      ensures |view| == |old(view)| && forall s :: 0 <= s < LogStart(sb) ==> view[s] == old(view)[s]
    {
      hide Synced, Apply, SuperOf, Logged, Committed, Sane;
      WaitForLogged();
      Commit();
    }

    /** The same once nobody else holds a logged sector. */
    method Commit()
      requires InTrans() && log.busy && held == map[] && |Logged(ws)| + others < NBUF
      requires forall s :: s in theirs ==> s !in Logged(ws)
      modifies this`view, this`base, this`ws, log, log.bc
      ensures InTrans() && !log.busy && base == view && ws == [] && view == log.bc.disk
      ensures Committed(sb, log.a, old(base), old(ws), old(log.mark), log.bc.trace, view)
      ensures |view| == |old(view)| && forall s :: 0 <= s < LogStart(sb) ==> view[s] == old(view)[s]
    {
      hide Apply, SuperOf, Held, Dirty, BufferCache.Valid, Slots, J.Untouched, J.Issued, Shared, J.InStep, Sane;
      LogFacts();
      assert held.Keys + Logged(ws) == Logged(ws);
      SharedCount(sb, others, log.bc.buf, held, theirs, view, Logged(ws), 0);
      log.CommitTrans();
      view, base, ws := log.bc.disk, log.bc.disk, [];
      SharedCommitted(sb, others, old(log.bc.buf), log.bc.buf, theirs, old(view), view);
      SaneCommitted(sb, old(view), view);
    }

    /** Before install_trans can have its buffers, nobody else holds a logged sector. */
    method WaitForLogged()
      requires InTrans()
      modifies this`theirs, log.bc
      ensures InTrans() && forall s :: s in theirs ==> s !in Logged(ws)
    {
      hide Synced, Apply, SuperOf, Slots;
      LoggedSectors();
      var i := 0;
      while i < log.n
        invariant i <= log.n && InTrans() && forall j :: 0 <= j < i ==> log.sector[j] !in theirs
      {
        if log.sector[i] in theirs {
          LetGo(log.sector[i]);
        }
        i := i + 1;
      }
    }

    lemma LoggedSectors()
      requires Synced()
      ensures log.n <= |log.sector| && log.sector[..log.n] == Slots(ws)
    {
      hide Apply, Slots;
    }

    /** readsb. */
    method ReadSb() returns (r: Super)
      requires InTrans() && 1 !in held && |held.Keys + Logged(ws)| + others < NBUF
      modifies this`held, this`theirs, log.bc
      ensures InTrans() && held == old(held) && r == sb
    {
      hide Synced, Apply, SuperOf, Logged;
      var bp := Bread(1);
      var data := Contents(bp, 1);
      r := SuperOf(data);
      Brelse(bp, 1);
    }

    /** bzero. */
    method Bzero(b: Uint)
      requires InTrans() && log.busy && 1 < b < LogStart(sb) && b !in held && Room(sb, others, held.Keys, ws, {b}, 0)
      modifies this`view, this`ws, this`held, this`theirs, log`n, log`sector, log`ws, log.bc
      ensures InTrans() && held == old(held) && b < |old(view)| && view == old(view)[b := Zeroes()]
      ensures Logged(ws) == Logged(old(ws)) + {b}
    {
      hide Synced, Apply, SuperOf, Logged, Room;
      RoomToLog(sb, others, held.Keys, ws, b);
      var bp := Bread(b);
      LogWrite(bp, b, Zeroes());
      Brelse(bp, b);
    }

    /** One round of balloc: look through the bitmap block of blocks b, b + 1, ... and take its first clear bit. */
    method TakeFrom(b: nat) returns (r: Found)
      requires InTrans() && log.busy && Aligned(b) && b < sb.size && NoneFreeBelow(sb, view, b) &&
        FreshOnly(sb, view, held.Keys)
      requires BitmapFits(sb, others, held.Keys, ws)
      modifies this`view, this`ws, this`held, this`theirs, log`n, log`sector, log`ws, log.bc
      ensures InTrans() && held == old(held)
      ensures r.None? ==> view == old(view) && ws == old(ws) && NoneFreeBelow(sb, view, b + Covered(sb, b))
      ensures !r.None? ==> Ballocked(sb, old(view), view, old(ws), ws, r)
    {
      hide Synced, Apply, SuperOf, Logged, Room, Bit, Ballocked, NoneFreeBelow, FreshOnly, Claimable, BBlock, Covered;
      var bp, data, bi := LookAt(b);
      CoveredBounds(sb, b);
      if bi < Covered(sb, b) {
        r := Claim(b + bi, bp, data, BBlock(b, sb.ninodes), old(held));
        return;
      }
      Brelse(bp, BBlock(b, sb.ninodes));
      return None;
    }

    /** balloc reads a bitmap block and looks for its first clear bit. */
    method LookAt(b: nat) returns (bp: nat, data: Block, bi: nat)
      requires InTrans() && Aligned(b) && b < sb.size && NoneFreeBelow(sb, view, b) && FreshOnly(sb, view, held.Keys)
      requires BitmapFits(sb, others, held.Keys, ws)
      modifies this`held, this`theirs, log.bc
      ensures var m := BBlock(b, sb.ninodes);
        && m < UINT && InTrans() && held == old(held)[m := bp] && held - {m} == old(held) && m < |view|
        && data == view[m]
        && bi <= Covered(sb, b) && NoneFreeBelow(sb, view, b + bi)
        && (bi < Covered(sb, b) ==> Claimable(sb, others, view, old(held).Keys, ws, b + bi, m))
    {
      hide Synced, Apply, SuperOf, BitOf, Logged, Room, Bit, NoneFreeBelow, FreshOnly;
      hide BBlock, FirstData, IsBitmap, Covered, Aligned, Claimable;
      CoveredBounds(sb, b);
      var m := BBlock(b, sb.ninodes);
      BitmapBlock(sb, view, b);
      BitmapRoom(sb, others, held.Keys, ws, m);
      NotHeld(sb, view, held.Keys, m);
      ghost var v, h, us := view, held.Keys, ws;
      bp := Bread(m);
      data := Contents(bp, m);
      bi := FirstClear(data, Covered(sb, b));
      FoundBit(sb, others, v, h, us, b, bi);
    }

    /** balloc's find: mark block b in its bitmap block, which is in hand, release that, and zero the block. */
    method Claim(b: Uint, bp: nat, data: Block, ghost m: Uint, ghost rest: map<nat, nat>) returns (r: Found)
      requires InTrans() && log.busy && NoneFreeBelow(sb, view, b) && Claimable(sb, others, view, rest.Keys, ws, b, m)
      requires held == rest[m := bp] && held - {m} == rest && m < |view| && data == view[m]
      modifies this`view, this`ws, this`held, this`theirs, log`n, log`sector, log`ws, log.bc
      ensures InTrans() && held == rest
      ensures !r.None? && Ballocked(sb, old(view), view, old(ws), ws, r)
    {
      hide Synced, Apply, SuperOf, BitOf, WithBit, Logged, Room, Bit, AllocView, Ballocked, NoneFreeBelow;
      RoomNow(sb, others, rest.Keys, ws, {m as nat}, 1);
      BitIs(sb, view, b);
      assert held.Keys == rest.Keys + {m as nat};
      LogWrite(bp, m, WithBit(data, b % BPB));
      Brelse(bp, m);
      if b >= LogStart(sb) {
        TookLog(sb, old(view), view, old(ws), ws, b);
        return LogBlock(b);
      }
      RoomAfter(sb, others, held.Keys, old(ws), ws, m, b);
      Bzero(b);
      TookData(sb, old(view), view, old(ws), ws, b);
      return DataBlock(b);
    }

    /** balloc: first fit. Without a clear bit the kernel panics; a clear bit in the log area it takes for a free
        block. */
    method Balloc() returns (r: Found)
      requires InTrans() && log.busy && FreshOnly(sb, view, held.Keys)
      requires BitmapFits(sb, others, held.Keys, ws)
      modifies this`view, this`ws, this`held, this`theirs, log`n, log`sector, log`ws, log.bc
      ensures InTrans() && held == old(held)
      ensures r.None? ==> view == old(view) && ws == old(ws) && NoneFreeBelow(sb, view, sb.size)
      ensures !r.None? ==> Ballocked(sb, old(view), view, old(ws), ws, r)
    {
      hide Synced, Apply, SuperOf, BitOf, WithBit, Logged, Room, Bit, Ballocked, BitmapFits, Aligned, NoneFreeBelow,
        Covered;
      BitmapRoom(sb, others, held.Keys, ws, 0);
      NothingBelow(sb, view);
      var sb := ReadSb();
      var b := 0;
      while b < sb.size
        invariant Aligned(b) && InTrans() && held == old(held)
        invariant NoneFreeBelow(sb, view, if b <= sb.size then b else sb.size)
        invariant view == old(view) && ws == old(ws)
      {
        r := TakeFrom(b);
        if !r.None? {
          return;
        }
        CoveredBounds(sb, b);
        NextAligned(b);
        b := b + BPB;
      }
      return None;
    }

    /** The bitmap marks exactly the metadata and the referenced blocks, and no block is referenced twice. */
    ghost predicate Owned()
      reads this, log, log.bc
    {
      && InTrans()
      && Refs(sb, view, inodes, owner)
      && BitsAre(sb, view, owner.Keys)
    }

    /** balloc while a data block is free: the block is below the log, owned by nobody and zeroed; no file changes. */
    method AllocBlock() returns (b: Uint)
      requires Owned() && log.busy && FreeData(sb, owner.Keys) != {}
      requires held.Keys <= owner.Keys && Room(sb, others, held.Keys, ws, Bitmaps(sb), 1)
      modifies this`view, this`ws, this`held, this`theirs, log`n, log`sector, log`ws, log.bc
      ensures InTrans() && held == old(held) && Allocated(sb, old(view), inodes, owner, old(ws), view, ws, b)
    {
      hide Synced, Bit, Refs, Apply, SuperOf, AllocView, SameFiles, Logged, Room;
      OwnedIsData(sb, view, inodes, owner);
      AnyBitmap(sb, others, held.Keys, ws);
      var r := Balloc();
      ghost var free :| free in FreeData(sb, owner.Keys);
      assert !Bit(sb, old(view), free);
      FirstFitAvoidsLog(sb, old(view), owner.Keys, r.b);
      b := r.b;
      AllocEffect(sb, old(view), inodes, owner, b);
      BitmapIsMetadata(sb, b);
      assert b <= free;
    }

    /** bmap, direct case with an empty element: allocate and store. */
    method LinkNewDirect(i: nat, k: nat)
      requires Owned() && log.busy && i in inodes && k <= NDIRECT && inodes[i].addrs[k] == 0
      requires FreeData(sb, owner.Keys) != {}
      requires held.Keys <= owner.Keys && Room(sb, others, held.Keys, ws, Bitmaps(sb), 1)
      modifies this`view, this`ws, this`held, this`theirs, this`inodes, this`owner, log`n, log`sector, log`ws, log.bc
      ensures Owned() && held == old(held) && i in inodes
      ensures inodes[i].addrs == old(inodes)[i].addrs[k := inodes[i].addrs[k]]
      ensures Attached(sb, old(view), old(inodes), old(owner), old(ws), view, inodes, owner, ws, i, k,
        inodes[i].addrs[k])
    {
      hide Synced, Bit, Refs, Apply, SuperOf, Logged, FreeData, BitsAre, Room, Attached, Allocated;
      var b := AllocBlock();
      AttachDirect(sb, old(view), inodes, owner, old(ws), view, ws, i, k, b);
      inodes := inodes[i := inodes[i].(addrs := inodes[i].addrs[k := b])];
      owner := owner[b := (i, k)];
    }

    /** bmap, indirect case with an empty entry, the indirect block in hand: allocate, store, log. */
    method LinkNewIndirect(i: nat, j: nat, bp: nat) returns (b: Uint)
      requires Owned() && log.busy && i in inodes && j < NINDIRECT && inodes[i].addrs[NDIRECT] != 0
      requires inodes[i].addrs[NDIRECT] < |view| && Word(view[inodes[i].addrs[NDIRECT]], j) == 0
      requires FreeData(sb, owner.Keys) != {}
      requires held == map[inodes[i].addrs[NDIRECT] := bp] && Room(sb, others, held.Keys, ws, Bitmaps(sb), 1)
      modifies this`view, this`ws, this`held, this`theirs, this`owner, log`n, log`sector, log`ws, log.bc
      ensures Owned() && held == old(held)
      ensures Attached(sb, old(view), inodes, old(owner), old(ws), view, inodes, owner, ws, i, NDIRECT + 1 + j, b)
    {
      hide Synced, Bit, Refs, Apply, SuperOf, Logged, FreeData, BitsAre, Word, PutWord, Room, Attached, Allocated;
      var x := inodes[i].addrs[NDIRECT];
      IndirectIsOwned(sb, view, inodes, owner, i);
      b := AllocBlock();
      var data := Contents(bp, x);
      AllocRoom(sb, others, held.Keys, old(view), inodes, owner, old(ws), view, ws, b);
      ghost var mid, mws := view, ws;
      LogWrite(bp, x, PutWord(data, j, b));
      AttachIndirect(sb, old(view), inodes, owner, old(ws), mid, mws, ws, i, j, b);
      owner := owner[b := (i, NDIRECT + 1 + j)];
    }

    /** bmap's second half: the j-th entry of the indirect block, read under its buffer and filled if empty. */
    method Entry(i: nat, j: nat) returns (addr: Uint)
      requires Owned() && i in inodes && j < NINDIRECT && inodes[i].addrs[NDIRECT] != 0
      requires held == map[] && |Logged(ws)| + others < NBUF
      requires EntryRoom(sb, others, view, inodes[i], owner, ws, j, log.busy)
      modifies this`view, this`ws, this`held, this`theirs, this`owner, log`n, log`sector, log`ws, log.bc
      ensures Owned() && held == map[]
      ensures Entered(sb, old(view), inodes, old(owner), old(ws), view, owner, ws, i, j, addr)
    {
      hide Synced, Bit, Refs, Apply, SuperOf, Logged, FreeData, BitsAre, Word, Room, Attached;
      RefsBounded(sb, view, inodes, owner);
      IndirectIsOwned(sb, view, inodes, owner, i);
      var x := inodes[i].addrs[NDIRECT];
      assert held.Keys + Logged(ws) == Logged(ws);
      var bp := Bread(x);
      var data := Contents(bp, x);
      addr := Word(data, j);
      if addr == 0 {
        assert held.Keys == {x as nat};
        addr := LinkNewIndirect(i, j, bp);
      }
      Brelse(bp, x);
    }

    /** The address of the bn-th block of file i, allocating what is missing; no file's bytes change. */
    method Bmap(i: nat, bn: nat) returns (addr: Uint)
      requires Owned() && i in inodes
      requires bn < MAXFILE
      requires |FreeData(sb, owner.Keys)| >= Need(view, inodes[i], bn)
      requires held == map[] && |Logged(ws)| + others < NBUF
      requires Need(view, inodes[i], bn) > 0 ==>
        log.busy && Room(sb, others, {}, ws, Bitmaps(sb) + Indirect(inodes[i]), 1 + Spare(inodes[i]))
      modifies this`view, this`ws, this`held, this`theirs, this`inodes, this`owner, log`n, log`sector, log`ws, log.bc
      ensures Owned() && held == map[]
      ensures Mapped(sb, old(view), old(inodes), old(owner), old(ws), view, inodes, owner, ws, i, bn, addr)
    {
      hide Synced, Bit, Refs, Apply, SuperOf, Logged, FreeData, BitsAre, Room, Addr, Need, Attached, Mapped;
      hide Bitmaps, Indirect, Spare, SameFiles;
      RefsBounded(sb, view, inodes, owner);
      assert held.Keys == {};
      Needed(sb, view, inodes[i], owner, bn);
      if bn < NDIRECT {
        addr := inodes[i].addrs[bn];
        if addr == 0 {
          DirectRoom(sb, others, ws, inodes[i]);
          LinkNewDirect(i, bn);
          addr := inodes[i].addrs[bn];
        }
        MappedDirect(sb, old(view), old(inodes), old(owner), old(ws), view, inodes, owner, ws, i, bn, addr);
        return;
      }
      if inodes[i].addrs[NDIRECT] == 0 {
        DirectRoom(sb, others, ws, inodes[i]);
        LinkNewDirect(i, NDIRECT);
      }
      ghost var mid, mnodes, mown, mws := view, inodes, owner, ws;
      Halfway(sb, others, old(view), old(inodes), old(owner), old(ws), mid, mnodes, mown, mws, i, bn);
      addr := Entry(i, bn - NDIRECT);
      MappedIndirect(sb, old(view), old(inodes), old(owner), old(ws), mid, mnodes, mown, mws, view, owner, ws, i, bn,
        addr);
    }

    /** writei's bread, memmove, log_write and brelse. */
    method Patch(addr: Uint, at: nat, src: seq<Byte>)
      requires InTrans() && log.busy && held == map[] && 1 < addr < LogStart(sb) && at + |src| <= BSIZE
      requires |Logged(ws)| + others < NBUF && |{addr as nat} + Logged(ws)| + others < NBUF && |Slots(ws)| < LOGSIZE &&
        |Slots(ws)| < sb.nlog - 1
      modifies this`view, this`ws, this`held, this`theirs, log`n, log`sector, log`ws, log.bc
      ensures InTrans() && held == map[] && addr < |old(view)| &&
        view == old(view)[addr := Patched(old(view)[addr], at, src)]
      ensures Logged(ws) == Logged(old(ws)) + {addr as nat}
    {
      hide Synced, Apply, SuperOf, Logged, Slots;
      assert held.Keys + Logged(ws) == Logged(ws);
      var bp := Bread(addr);
      var was := Contents(bp, addr);
      assert held.Keys == {addr as nat};
      LogWrite(bp, addr, Patched(was, at, src));
      Brelse(bp, addr);
    }

    /** One iteration of writei's loop: m bytes inside one block. */
    method WriteWithin(i: nat, off: nat, src: seq<Byte>)
      requires Owned() && log.busy && held == map[] && i in inodes
      requires off % BSIZE + |src| <= BSIZE && 0 < |src| && off + |src| <= MAXBYTES
      requires |FreeData(sb, owner.Keys)| >= Need(view, inodes[i], off / BSIZE)
      requires Room(sb, others, {}, ws, Bitmaps(sb) + Indirect(inodes[i]), 1 + Spare(inodes[i]))
      modifies this`view, this`ws, this`held, this`theirs, this`inodes, this`owner, log`n, log`sector, log`ws, log.bc
      ensures Owned() && held == map[] && OwnerGrown(old(owner), owner) && i in inodes
      ensures WroteWithin(sb, old(view), old(inodes), view, inodes, i, off, src)
      ensures |FreeData(sb, owner.Keys)| ==
        |FreeData(sb, old(owner).Keys)| - Need(old(view), old(inodes)[i], off / BSIZE)
      ensures LogsOnly(sb, old(ws), ws, WriteSectors(view, inodes[i], off / BSIZE, off / BSIZE + 1))
    {
      hide Synced, Bit, Refs, Apply, SuperOf, Logged, FreeData, BitsAre, Data, Addr, Need, Room, WriteSectors,
        Indirect, Spare, Bitmaps, Slots;
      hide Mapped, WroteWithin, OwnerGrown, LogsOnly, IsBitmap, Sane, Patched, Overlaid;
      var bn := off / BSIZE;
      RoomNow(sb, others, {}, ws, Bitmaps(sb) + Indirect(inodes[i]), 1 + Spare(inodes[i]));
      assert {} + Logged(ws) == Logged(ws);
      var addr := Bmap(i, bn);
      ghost var mid, mws := view, ws;
      MappedFacts(sb, old(view), old(inodes), old(owner), old(ws), view, inodes, owner, ws, i, bn, addr);
      AddrIsData(sb, view, inodes, owner, i, Slot(bn));
      WithinRoom(sb, others, old(ws), ws, old(inodes)[i], inodes[i], addr);
      Patch(addr, off % BSIZE, src);
      PatchedBlock(sb, old(view), old(inodes), old(owner), old(ws), mid, inodes, owner, mws, ws, i, off, src, addr);
    }

    /** Every inode is numbered within the table, has no holes, and agrees with its copy on disk. */
    ghost predicate Consistent()
      reads this, log, log.bc
    {
      && Owned()
      && forall i :: i in inodes ==> FileOk(sb, view, inodes, i)
    }

    /** iupdate: copy the in-memory inode to its slot on disk. */
    method Iupdate(i: nat)
      requires Owned() && log.busy && i in inodes && i < sb.ninodes
      requires held == map[] && Room(sb, others, {}, ws, {IBlock(i)}, 0)
      modifies this`view, this`ws, this`held, this`theirs, log`n, log`sector, log`ws, log.bc
      ensures Owned() && held == map[] && SameFiles(old(view), inodes, view, inodes) &&
        SameRefs(old(view), view, inodes)
      ensures |view| == |old(view)|
      ensures forall j :: 0 <= j < sb.ninodes ==>
        DiskInode(view, j) == if j == i then inodes[i] else DiskInode(old(view), j)
      ensures Logged(ws) == Logged(old(ws)) + {IBlock(i)}
    {
      hide Synced, Bit, Refs, Apply, SuperOf, Logged, SameFiles, BitsAre, PutDinode, GetDinode, Room,
        DiskInode, SameRefs;
      var x := IBlock(i);
      RoomToLog(sb, others, held.Keys, ws, x);
      var bp := Bread(x);
      var was := Contents(bp, x);
      var data := PutDinode(was, i % IPB, inodes[i]);
      InodeStored(sb, view, inodes, owner, i);
      LogWrite(bp, x, data);
      Brelse(bp, x);
    }

    /** The copying loop of writei. */
    method WriteLoop(i: nat, src: seq<Byte>, off: nat)
      requires Owned() && log.busy && held == map[] && i in inodes && off + |src| <= MAXBYTES
      requires |FreeData(sb, owner.Keys)| >= |Missing(view, inodes[i], off / BSIZE, Blocks512(off + |src|))|
      requires WriteRoom(sb, others, ws, inodes[i], i, BlocksLeft(off, |src|))
      modifies this`view, this`ws, this`held, this`theirs, this`inodes, this`owner, log`n, log`sector, log`ws, log.bc
      ensures Owned() && held == map[]
      ensures OwnerGrown(old(owner), owner) && Wrote(sb, old(view), old(inodes), view, inodes, i, off, src)
      ensures LogsOnly(sb, old(ws), ws, WriteSectors(view, inodes[i], off / BSIZE, Blocks512(off + |src|)))
      ensures |src| > 0 ==>
                |FreeData(sb, owner.Keys)| ==
                  |FreeData(sb, old(owner).Keys)| - |Missing(old(view), old(inodes)[i], off / BSIZE,
                  Blocks512(off + |src|))|
      ensures WriteRoom(sb, others, ws, inodes[i], i, 0)
    {
      hide Synced, Bit, Refs, Apply, SuperOf, FreeData, BitsAre, Addr, Need, Wrote, WroteWithin, WriteSectors, Missing,
        Logged;
      hide Room, WriteRoom, LogsOnly, OwnerGrown, SoFar, BlocksLeft;
      var n := |src|;
      var tot := 0;
      SoFarNothing(sb, others, view, inodes, owner, ws, i, off, src);
      while tot < n
        invariant 0 <= tot <= n && Owned() && i in inodes && held == map[]
        invariant SoFar(sb, others, old(view), old(inodes), old(owner), old(ws), view, inodes, owner, ws, i, off, src,
          tot)
      {
        var cur := off + tot;
        var m := if n - tot < BSIZE - cur % BSIZE then n - tot else BSIZE - cur % BSIZE;
        ghost var was, wnodes, wws, wown := view, inodes, ws, owner;
        SoFarRoom(sb, others, old(view), old(inodes), old(owner), old(ws), view, inodes, owner, ws, i, off, src, tot);
        WriteWithin(i, cur, src[tot..tot + m]);
        SoFarMore(sb, others, old(view), old(inodes), old(owner), old(ws), was, wnodes, wown, wws, view, inodes, owner,
          ws, i,
          off, src, tot, m);
        tot := tot + m;
      }
      SoFarDone(sb, others, old(view), old(inodes), old(owner), old(ws), view, inodes, owner, ws, i, off, src);
    }

    /** writei: all or nothing on its bounds checks, then exactly the requested bytes, with the disk inode in step. */
    method Writei(i: nat, src: seq<Byte>, off: Uint) returns (r: int)
      requires Consistent() && held == map[] && i in inodes && |src| < UINT && inodes[i].typ != T_DEV
      requires Writable(inodes[i].size, off, |src|) ==>
                 && |FreeData(sb, owner.Keys)| >= |Missing(view, inodes[i], off / BSIZE, Blocks512(off + |src|))|
                 && log.busy && WriteRoom(sb, others, ws, inodes[i], i, BlocksLeft(off, |src|))
      modifies this`view, this`ws, this`held, this`theirs, this`inodes, this`owner, log`n, log`sector, log`ws, log.bc
      ensures Consistent() && held == map[]
      ensures r == -1 <==> off > old(inodes)[i].size || off + |src| >= UINT || off + |src| > MAXBYTES
      ensures off <= old(inodes)[i].size && off + |src| <= MAXBYTES ==> r == |src|
      ensures !Writable(old(inodes)[i].size, off, |src|) ==>
        r == -1 && view == old(view) && ws == old(ws) && inodes == old(inodes) && owner == old(owner)
      ensures Writable(old(inodes)[i].size, off, |src|) ==>
        r == |src| && WroteFile(old(view), old(inodes), view, inodes, i, off, src)
      ensures Writable(old(inodes)[i].size, off, |src|) ==>
                LogsOnly(sb, old(ws), ws, WriteSectors(view, inodes[i], off / BSIZE, Blocks512(off + |src|)) +
                  {IBlock(i)})
      ensures OwnerGrown(old(owner), owner)
      ensures |src| > 0 && Writable(old(inodes)[i].size, off, |src|) ==>
                |FreeData(sb, owner.Keys)| ==
                  |FreeData(sb, old(owner).Keys)| - |Missing(old(view), old(inodes)[i], off / BSIZE,
                  Blocks512(off + |src|))|
    {
      hide Synced, Bit, Refs, Apply, SuperOf, FreeData, BitsAre, Addr, Need, Wrote, WriteSectors, Missing, Logged,
        DiskInode, Filled, SameData, Overlaid;
      hide WriteRoom, Room, LogsOnly;
      var n := |src|;
      NothingNew(owner);
      if off > inodes[i].size || (off + n) % UINT < off {
        return -1;
      }
      if (off + n) % UINT > MAXFILE * BSIZE {
        return -1;
      }
      WriteLoop(i, src, off);
      WroteKeepsFiles(sb, old(view), old(inodes), old(owner), view, inodes, owner, i, off, src);
      if n > 0 && off + n > inodes[i].size {
        ghost var mid, mnodes, mws := view, inodes, ws;
        UpdateRoom(sb, others, ws, inodes[i], i);
        inodes := inodes[i := inodes[i].(size := off + n)];
        SameAddrs(sb, view, mnodes, owner, i, inodes[i]);
        Iupdate(i);
        OneLogged(sb, mws, ws, IBlock(i));
        UpdatedFiles(sb, old(view), old(inodes), mid, mnodes, view, inodes, i, off, src);
        WriteSectorsGrow(mid, mnodes[i], view, inodes[i], off / BSIZE, Blocks512(off + n), Blocks512(off + n));
        LogsOnlyTrans(sb, old(ws), mws, ws, WriteSectors(mid, mnodes[i], off / BSIZE, Blocks512(off + n)), {IBlock(i)},
          WriteSectors(view, inodes[i], off / BSIZE, Blocks512(off + n)) + {IBlock(i)});
      } else {
        LogsOnlyMore(sb, old(ws), ws, WriteSectors(view, inodes[i], off / BSIZE, Blocks512(off + n)), {IBlock(i)});
      }
      return n;
    }

    /** One iteration of readi's loop: m bytes inside one allocated block. */
    method ReadWithin(i: nat, off: nat, m: nat) returns (part: seq<Byte>)
      requires Owned() && held == map[] && |Logged(ws)| + others < NBUF && i in inodes && off % BSIZE + m <= BSIZE &&
        off + m <= MAXBYTES && 0 < m
      requires Addr(view, inodes[i], Slot(off / BSIZE)) != 0
      modifies this`view, this`ws, this`held, this`theirs, this`inodes, this`owner, log`n, log`sector, log`ws, log.bc
      ensures Owned() && held == map[] && view == old(view) && ws == old(ws) && inodes == old(inodes) &&
        owner == old(owner)
      ensures |part| == m && Reads(view, inodes[i], off, part)
    {
      hide Synced, Bit, Refs, Apply, SuperOf, FreeData, BitsAre, Addr, Logged, Room, Reads, Data;
      var addr := Bmap(i, off / BSIZE);
      AddrIsData(sb, view, inodes, owner, i, Slot(off / BSIZE));
      assert held.Keys + Logged(ws) == Logged(ws);
      var bp := Bread(addr);
      var data := Contents(bp, addr);
      part := data.bytes[off % BSIZE..off % BSIZE + m];
      Brelse(bp, addr);
      PartRead(view, inodes[i], off, m);
    }

    /** readi: the bytes of the file from off on, as many as asked for or as there are; it never allocates. */
    method Readi(i: nat, off: Uint, n: Uint) returns (r: int, dst: seq<Byte>)
      requires Consistent() && held == map[] && |Logged(ws)| + others < NBUF && i in inodes && inodes[i].typ != T_DEV
      modifies this`view, this`ws, this`held, this`theirs, this`inodes, this`owner, log`n, log`sector, log`ws, log.bc
      ensures view == old(view) && ws == old(ws) && inodes == old(inodes) && owner == old(owner)
      ensures Consistent() && held == map[]
      ensures off > inodes[i].size || (off + n) % UINT < off ==> r == -1 && dst == []
      ensures !(off > inodes[i].size || (off + n) % UINT < off) ==>
                && r == |dst| == (if off + n > inodes[i].size then inodes[i].size - off else n)
                && off + |dst| <= MAXBYTES
                && forall j :: 0 <= j < |dst| ==> dst[j] == Data(view, inodes[i], off + j)
    {
      hide Synced, Bit, Refs, Apply, SuperOf, FreeData, BitsAre, Addr, Logged, FileOk, Data, Reads;
      dst := [];
      if off > inodes[i].size || (off + n) % UINT < off {
        return -1, [];
      }
      var len := if (off + n) % UINT > inodes[i].size then inodes[i].size - off else n;
      assert FileOk(sb, view, inodes, i);
      WithinFile(sb, view, inodes, i);
      ReadsNothing(view, inodes[i], off);
      var tot := 0;
      while tot < len
        invariant 0 <= tot <= len
        invariant Owned() && held == map[] && view == old(view) && ws == old(ws) && inodes == old(inodes) &&
          owner == old(owner)
        invariant |dst| == tot && Reads(view, inodes[i], off, dst)
      {
        var cur := off + tot;
        var m := if len - tot < BSIZE - cur % BSIZE then len - tot else BSIZE - cur % BSIZE;
        HasBlock(sb, view, inodes, i, cur);
        var part := ReadWithin(i, cur, m);
        ReadsMore(view, inodes[i], off, dst, part);
        dst := dst + part;
        tot := tot + m;
      }
      ReadsAll(view, inodes[i], off, dst);
      r := len;
    }

    /** bfree; the panic "freeing free block" is the second requires. */
    method Bfree(b: nat)
      requires InTrans() && log.busy && FirstData(sb) <= b < sb.size
      requires Bit(sb, view, b)
      requires (forall s :: s in held ==> FirstData(sb) <= s) &&
        Room(sb, others, held.Keys, ws, {BBlock(b, sb.ninodes)}, 0)
      modifies this`view, this`ws, this`held, this`theirs, log`n, log`sector, log`ws, log.bc
      ensures InTrans() && held == old(held)
      ensures var m := BBlock(b, sb.ninodes);
        m < |old(view)| && Bit(sb, old(view), b) && view == old(view)[m := WithoutBit(old(view)[m], b % BPB)]
      ensures LogsOnly(sb, old(ws), ws, {})
    {
      hide Synced, Apply, SuperOf, BitOf, WithoutBit, Logged, Room;
      var m := BBlock(b, sb.ninodes);
      BitmapIsMetadata(sb, b);
      RoomToLog(sb, others, held.Keys, ws, m);
      var sb := ReadSb();
      var bp := Bread(m);
      var data := Contents(bp, m);
      LogWrite(bp, m, WithoutBit(data, b % BPB));
      Brelse(bp, m);
    }

    /** One step of itrunc: free the block in a slot of inode i, if there is one. */
    method FreeSlot(ghost nodes: Inodes, i: nat, k: nat, addr: Uint, ghost done: set<nat>)
      requires Freeing(nodes, i, done) && log.busy && k < SLOTS && k !in done && addr == Addr(view, nodes[i], k)
      requires held.Keys <= owner.Keys && Room(sb, others, held.Keys, ws, Bitmaps(sb), 0)
      modifies this`view, this`ws, this`held, this`theirs, log`n, log`sector, log`ws, log.bc
      ensures Freeing(nodes, i, done + {k}) && held == old(held)
      ensures OnlyBitmap(sb, old(view), view, nodes)
      ensures LogsOnly(sb, old(ws), ws, {})
    {
      hide Synced, Apply, SuperOf, Refs, BitsAre, Logged, Addr, Bit, WithoutBit, SameFiles, Room, OnlyBitmap, InSlots,
        LogsOnly, BBlock, Bitmaps;
      OwnedIsData(sb, view, nodes, owner);
      if addr != 0 {
        ghost var m := BBlock(addr, sb.ninodes);
        OneFreed(sb, view, nodes, owner, i, k, done);
        RoomStep(sb, others, held.Keys, ws, Bitmaps(sb), 0, held.Keys, ws, {m}, 0, {});
        Bfree(addr);
      } else {
        NoneFreed(sb, view, nodes, owner, i, k, done);
        NoSectors(sb, ws, {});
      }
    }

    /** Inside itrunc: the references of `nodes` still stand on disk, the bitmap already lacks the blocks of the slots
        done. */
    ghost predicate Freeing(nodes: Inodes, i: nat, done: set<nat>)
      reads `view, `base, `ws, `held, `theirs, `owner, log, log.bc
    {
      && InTrans() && Refs(sb, view, nodes, owner) && i in nodes
      && BitsAre(sb, view, owner.Keys - InSlots(owner, i, done))
    }

    /** The first loop of itrunc. */
    method FreeDirect(i: nat)
      requires Owned() && log.busy && held == map[] && i in inodes && Room(sb, others, {}, ws, Bitmaps(sb), 0)
      modifies this`view, this`ws, this`held, this`theirs, this`inodes, log`n, log`sector, log`ws, log.bc
      ensures Freeing(old(inodes), i, Upto(NDIRECT)) && held == map[]
      ensures inodes == old(inodes)[i := old(inodes)[i].(addrs := ZeroedUpto(old(inodes)[i].addrs, NDIRECT))]
      ensures OnlyBitmap(sb, old(view), view, old(inodes)) && LogsOnly(sb, old(ws), ws, {})
    {
      hide Synced, Apply, SuperOf, Refs, Logged, BitsAre, SameFiles, InSlots, IsBitmap, Room, LogsOnly, OnlyBitmap;
      ghost var nodes := inodes;
      NothingDone(sb, view, nodes, owner, i);
      NoSectors(sb, ws, {});
      assert ZeroedUpto(nodes[i].addrs, 0) == nodes[i].addrs;
      assert nodes[i] == nodes[i].(addrs := ZeroedUpto(nodes[i].addrs, 0));
      var k := 0;
      while k < NDIRECT
        invariant 0 <= k <= NDIRECT && held == map[]
        invariant Freeing(nodes, i, Upto(k))
        invariant inodes == nodes[i := nodes[i].(addrs := ZeroedUpto(nodes[i].addrs, k))]
        invariant OnlyBitmap(sb, old(view), view, nodes) && LogsOnly(sb, old(ws), ws, {})
      {
        ghost var was, wws := view, ws;
        assert Upto(k + 1) == Upto(k) + {k};
        if inodes[i].addrs[k] != 0 {
          FreeingRoom(sb, others, {}, old(ws), ws);
          assert held.Keys == {};
          FreeSlot(nodes, i, k, inodes[i].addrs[k], Upto(k));
          OnlyBitmapTrans(sb, old(view), was, view, nodes);
          LogsOnlyTrans(sb, old(ws), wws, ws, {}, {}, {});
          inodes := inodes[i := inodes[i].(addrs := inodes[i].addrs[k := 0])];
        } else {
          SlotFreed(sb, view, nodes, owner, i, k, Upto(k));
        }
        assert ZeroedUpto(nodes[i].addrs, k + 1) == inodes[i].addrs;
        k := k + 1;
      }
    }

    /** The loop over the indirect block's entries, with the block in hand. */
    method FreeEntries(ghost nodes: Inodes, i: nat, x: Uint, bp: nat)
      requires Freeing(nodes, i, Upto(NDIRECT)) && log.busy && x != 0 && x == nodes[i].addrs[NDIRECT]
      requires held == map[x as nat := bp] && held.Keys <= owner.Keys && FirstData(sb) <= x &&
        Room(sb, others, {x as nat}, ws, Bitmaps(sb), 0)
      modifies this`view, this`ws, this`held, this`theirs, log`n, log`sector, log`ws, log.bc
      ensures Freeing(nodes, i, Upto(SLOTS) - {NDIRECT}) && held == old(held)
      ensures OnlyBitmap(sb, old(view), view, nodes) && LogsOnly(sb, old(ws), ws, {})
    {
      hide Synced, Apply, SuperOf, Refs, BitsAre, SameFiles, InSlots, Word, LogsOnly, OnlyBitmap, Upto, Room, Logged;
      NothingDone(sb, view, nodes, owner, i);
      NoSectors(sb, ws, {});
      var data := Contents(bp, x);
      assert held.Keys == {x as nat};
      var j := 0;
      ghost var done: set<nat> := Upto(NDIRECT);
      while j < NINDIRECT
        invariant 0 <= j <= NINDIRECT && held == old(held)
        invariant done == Upto(NDIRECT + 1 + j) - {NDIRECT}
        invariant Freeing(nodes, i, done) && view[x] == data
        invariant OnlyBitmap(sb, old(view), view, nodes) && LogsOnly(sb, old(ws), ws, {})
      {
        ghost var was, wws := view, ws;
        FreeingRoom(sb, others, {x as nat}, old(ws), ws);
        FreeSlot(nodes, i, NDIRECT + 1 + j, Word(data, j), done);
        OnlyBitmapAt(sb, was, view, nodes, x);
        OnlyBitmapTrans(sb, old(view), was, view, nodes);
        LogsOnlyTrans(sb, old(ws), wws, ws, {}, {}, {});
        done := done + {NDIRECT + 1 + j};
        j := j + 1;
      }
    }

    /** The second half of itrunc: the entries of the indirect block, then the block itself. */
    method FreeIndirect(ghost nodes: Inodes, i: nat, x: Uint)
      requires Freeing(nodes, i, Upto(NDIRECT)) && log.busy && x != 0 && x == nodes[i].addrs[NDIRECT]
      requires held == map[] && Room(sb, others, {}, ws, Bitmaps(sb) + {x as nat}, 0)
      modifies this`view, this`ws, this`held, this`theirs, log`n, log`sector, log`ws, log.bc
      ensures Freeing(nodes, i, Upto(SLOTS)) && held == map[]
      ensures OnlyBitmap(sb, old(view), view, nodes) && LogsOnly(sb, old(ws), ws, {})
    {
      hide Synced, Apply, SuperOf, Refs, BitsAre, SameFiles, InSlots, Word, LogsOnly, OnlyBitmap, Upto, Room, Logged,
        Bitmaps, Slots;
      IndirectIsOwned(sb, view, nodes, owner, i);
      TruncRoom(sb, others, ws, x);
      assert held.Keys + Logged(ws) == Logged(ws);
      var bp := Bread(x);
      FreeEntries(nodes, i, x, bp);
      Brelse(bp, x);
      ghost var was, wws := view, ws;
      FreeingRoom(sb, others, {}, old(ws), ws);
      NoHoles();
      FreeSlot(nodes, i, NDIRECT, x, Upto(SLOTS) - {NDIRECT});
      OnlyBitmapTrans(sb, old(view), was, view, nodes);
      LogsOnlyTrans(sb, old(ws), wws, ws, {}, {}, {});
    }

    /** Both halves: all blocks of the file are off the bitmap, all its in-memory references cleared. */
    method FreeBlocks(i: nat)
      requires Owned() && log.busy && held == map[] && i in inodes &&
        Room(sb, others, {}, ws, Bitmaps(sb) + Indirect(inodes[i]), 0)
      modifies this`view, this`ws, this`held, this`theirs, this`inodes, log`n, log`sector, log`ws, log.bc
      ensures InTrans() && Refs(sb, view, old(inodes), owner) &&
        BitsAre(sb, view, (owner - BlocksOf(owner, i)).Keys) && held == map[]
      ensures inodes == old(inodes)[i := old(inodes)[i].(addrs := FREE_INODE.addrs)]
      ensures OnlyBitmap(sb, old(view), view, old(inodes)) && LogsOnly(sb, old(ws), ws, {})
    {
      hide Synced, Apply, SuperOf, Refs, Logged, BitsAre, InSlots, BlocksOf, SameFiles, IsBitmap, Room, LogsOnly,
        OnlyBitmap, Bitmaps, Upto, ZeroedUpto;
      ghost var nodes := inodes;
      RoomStep(sb, others, {}, ws, Bitmaps(sb) + Indirect(inodes[i]), 0, {}, ws, Bitmaps(sb), 0, {});
      Emptied(nodes[i].addrs);
      FreeDirect(i);
      AllFreed(sb, view, nodes, owner, i);
      if inodes[i].addrs[NDIRECT] != 0 {
        ghost var was, wws := view, ws;
        BitmapsOnly(sb, others, {}, old(ws), ws, Indirect(nodes[i]));
        FreeIndirect(nodes, i, inodes[i].addrs[NDIRECT]);
        OnlyBitmapTrans(sb, old(view), was, view, nodes);
        LogsOnlyTrans(sb, old(ws), wws, ws, {}, {}, {});
        inodes := inodes[i := inodes[i].(addrs := inodes[i].addrs[NDIRECT := 0])];
      }
    }

    /** itrunc: every block of file i is freed exactly once, nothing else is, and the emptied inode goes to disk. */
    method Itrunc(i: nat)
      requires Owned() && log.busy && held == map[] && i in inodes && i < sb.ninodes &&
        WriteRoom(sb, others, ws, inodes[i], i, 0)
      modifies this`view, this`ws, this`held, this`theirs, this`inodes, this`owner, log`n, log`sector, log`ws, log.bc
      ensures Owned() && held == map[]
      ensures inodes == old(inodes)[i := old(inodes)[i].(addrs := FREE_INODE.addrs, size := 0)]
      ensures owner == old(owner) - BlocksOf(old(owner), i)
      ensures forall h :: h in inodes && h != i ==> SameData(old(view), inodes[h], view, inodes[h])
      ensures |view| == |old(view)|
      ensures forall j :: 0 <= j < sb.ninodes ==>
        DiskInode(view, j) == if j == i then inodes[i] else DiskInode(old(view), j)
      ensures LogsOnly(sb, old(ws), ws, {IBlock(i)})
      ensures old(Consistent()) ==> Consistent()
    {
      hide Synced, Apply, SuperOf, Refs, Logged, BitsAre, Addr, Data, GetDinode, BlocksOf, Filled, Room, LogsOnly,
        Bitmaps, Indirect;
      hide SameData, SameFiles, SameRefs, DiskInode, WriteRoom, OnlyBitmap;
      ghost var nodes := inodes;
      TruncateRoom(sb, others, ws, inodes[i], i);
      FreeBlocks(i);
      inodes := inodes[i := inodes[i].(size := 0)];
      assert inodes == nodes[i := inodes[i]];
      Truncated(sb, view, nodes, owner, i, inodes[i]);
      owner := owner - BlocksOf(owner, i);
      ghost var mid, mws := view, ws;
      BitmapsOnly(sb, others, {}, old(ws), ws, {IBlock(i)});
      RoomStep(sb, others, {}, ws, Bitmaps(sb) + {IBlock(i)}, 0, {}, ws, {IBlock(i)}, 0, {});
      Iupdate(i);
      OneLogged(sb, mws, ws, IBlock(i));
      LogsOnlyTrans(sb, old(ws), mws, ws, {}, {IBlock(i)}, {IBlock(i)});
      TruncatedOthers(sb, old(view), nodes, mid, view, inodes, i);
      TruncatedInodes(sb, old(view), nodes, mid);
      if forall h :: h in nodes ==> FileOk(sb, old(view), nodes, h) {
        TruncatedFiles(sb, old(view), nodes, old(owner), view, inodes, owner, i);
      }
    }

    /** The end of iput for the last reference to an unlinked inode: its blocks and then the inode itself are free. */
    method FreeInode(i: nat)
      requires Consistent() && log.busy && held == map[] && i in inodes && WriteRoom(sb, others, ws, inodes[i], i, 0)
      modifies this`view, this`ws, this`held, this`theirs, this`inodes, this`owner, log`n, log`sector, log`ws, log.bc
      ensures Consistent() && held == map[] && Discarded(old(view), old(inodes), old(owner), view, inodes, owner, i)
      ensures LogsOnly(sb, old(ws), ws, {IBlock(i)})
    {
      hide Synced, Apply, SuperOf, Refs, Logged, BitsAre, FileOk, BlocksOf, Room, LogsOnly, SameData, SameFiles,
        SameRefs, DiskInode, WriteRoom;
      Numbered(sb, view, inodes, i);
      TruncateRoom(sb, others, ws, inodes[i], i);
      Itrunc(i);
      ghost var mid, mnodes, mws := view, inodes, ws;
      InodeRoom(sb, others, old(ws), ws, i);
      inodes := inodes[i := inodes[i].(typ := 0)];
      SameAddrs(sb, view, mnodes, owner, i, inodes[i]);
      Iupdate(i);
      OneLogged(sb, mws, ws, IBlock(i));
      LogsOnlyTrans(sb, old(ws), mws, ws, {IBlock(i)}, {IBlock(i)}, {IBlock(i)});
      FreedFiles(sb, old(view), old(inodes), mid, mnodes, view, inodes, i);
    }

    /** One link less, on disk too. */
    method DropLink(i: nat)
      requires Consistent() && log.busy && held == map[] && i in inodes && inodes[i].nlink > 0
      requires Room(sb, others, {}, ws, {IBlock(i)}, 0)
      modifies this`view, this`ws, this`held, this`theirs, this`inodes, log`n, log`sector, log`ws, log.bc
      ensures Consistent() && held == map[]
      ensures inodes == old(inodes)[i := old(inodes)[i].(nlink := old(inodes)[i].nlink - 1)]
      ensures Logged(ws) == Logged(old(ws)) + {IBlock(i)}
    {
      hide Synced, Apply, SuperOf, Refs, Logged, BitsAre, FileOk, Room, SameFiles, SameRefs, DiskInode;
      Numbered(sb, view, inodes, i);
      inodes := inodes[i := inodes[i].(nlink := inodes[i].nlink - 1)];
      SameAddrs(sb, view, old(inodes), owner, i, inodes[i]);
      Iupdate(i);
      RelinkedFiles(sb, old(view), old(inodes), view, inodes, i);
    }

    // ---- iput up to its first log_write ----

    /** bfree up to its log_write: the bitmap block is held. */
    method ReachBfree(b: Uint)
      requires InTrans() && FirstData(sb) <= b < sb.size && Bit(sb, view, b)
      requires (forall s :: s in held ==> FirstData(sb) <= s)
      requires Room(sb, others, held.Keys, ws, {BBlock(b, sb.ninodes)}, 0)
      modifies this`held, this`theirs, log.bc
      ensures InTrans() && BBlock(b, sb.ninodes) in held && IsBitmap(sb, BBlock(b, sb.ninodes))
    {
      hide Synced, Apply, SuperOf, BitOf, Logged, Room;
      var m := BBlock(b, sb.ninodes);
      BitmapIsMetadata(sb, b);
      RoomToLog(sb, others, held.Keys, ws, m);
      var sb := ReadSb();
      var bp := Bread(m);
    }

    /** The same for the block in slot k of inode i. */
    method ReachFree(i: nat, ghost k: nat, addr: Uint) returns (ghost s: nat)
      requires Owned() && i in inodes && k < SLOTS && addr == Addr(view, inodes[i], k) && addr != 0
      requires held.Keys <= owner.Keys && Room(sb, others, held.Keys, ws, Bitmaps(sb), 0)
      modifies this`held, this`theirs, log.bc
      ensures InTrans() && s in held && IsBitmap(sb, s)
    {
      hide Synced, Apply, SuperOf, Refs, BitsAre, Logged, Addr, Bit, Room, InSlots, BBlock, Bitmaps, OnlyBitmap,
        IsBitmap, WithoutBit;
      OwnedIsData(sb, view, inodes, owner);
      NoSlots(owner, i);
      OneFreed(sb, view, inodes, owner, i, k, {});
      s := BBlock(addr, sb.ninodes);
      RoomStep(sb, others, held.Keys, ws, Bitmaps(sb), 0, held.Keys, ws, {s}, 0, {});
      ReachBfree(addr);
    }

    /** The search of the indirect block x: its first entry in use, or none and x is released. */
    method ReachEntry(i: nat, x: Uint, bp: nat) returns (found: bool, ghost s: nat)
      requires Owned() && i in inodes && x == inodes[i].addrs[NDIRECT] && x != 0 && x in owner
      requires held == map[x as nat := bp] && Room(sb, others, {x as nat}, ws, Bitmaps(sb), 0)
      modifies this`held, this`theirs, log.bc
      ensures if found then InTrans() && s in held && IsBitmap(sb, s) else Owned() && held == map[]
    {
      hide Synced, Apply, SuperOf, Refs, BitsAre, Logged, Room, Word, Bitmaps, IsBitmap, Addr;
      assert held.Keys == {x as nat};
      var a := Contents(bp, x);
      var j := FirstEntry(a);
      found := j < NINDIRECT;
      if found {
        IndirectSlots(view, inodes[i], j);
        s := ReachFree(i, NDIRECT + 1 + j, Word(a, j));
      } else {
        Brelse(bp, x);
        s := 0;
      }
    }

    /** The rest when there is no direct block: the first entry of the indirect block, or that block itself. */
    method ReachIndirect(i: nat, x: Uint) returns (ghost s: nat)
      requires Owned() && i in inodes && x == inodes[i].addrs[NDIRECT] && x != 0 && held == map[]
      requires Room(sb, others, {}, ws, Bitmaps(sb) + {x as nat}, 0)
      modifies this`held, this`theirs, log.bc
      ensures InTrans() && s in held && IsBitmap(sb, s)
    {
      hide Synced, Apply, SuperOf, Refs, BitsAre, Logged, Room, Bitmaps, IsBitmap, Addr;
      IndirectIsOwned(sb, view, inodes, owner, i);
      TruncRoom(sb, others, ws, x);
      assert held.Keys + Logged(ws) == Logged(ws);
      var bp := Bread(x);
      var found;
      found, s := ReachEntry(i, x, bp);
      if !found {
        IndirectSlots(view, inodes[i], 0);
        assert held.Keys == {};
        s := ReachFree(i, NDIRECT, x);
      }
    }

    /** itrunc up to the first log_write there is: a bitmap block of bfree's, or else the inode's block of iupdate's.
        Everything so far has been reading. */
    method ReachLogWrite(i: nat) returns (ghost s: nat)
      requires Consistent() && held == map[] && i in inodes && WriteRoom(sb, others, ws, inodes[i], i, 0)
      modifies this`held, this`theirs, log.bc
      ensures InTrans() && s in held && (IsBitmap(sb, s) || s == IBlock(i))
    {
      hide Synced, Apply, SuperOf, Refs, BitsAre, FileOk, Logged, Room, WriteRoom, Bitmaps, IsBitmap;
      Numbered(sb, view, inodes, i);
      TruncateRoom(sb, others, ws, inodes[i], i);
      ReachRoom(sb, others, ws, inodes[i], i);
      var k := 0;
      while k < NDIRECT
        invariant k <= NDIRECT && Owned() && held == map[]
      {
        if inodes[i].addrs[k] != 0 {
          assert Addr(view, inodes[i], k) == inodes[i].addrs[k];
          s := ReachFree(i, k, inodes[i].addrs[k]);
          return;
        }
        k := k + 1;
      }
      if inodes[i].addrs[NDIRECT] != 0 {
        s := ReachIndirect(i, inodes[i].addrs[NDIRECT]);
        return;
      }
      s := IBlock(i);
      InodeStored(sb, view, inodes, owner, i);
      assert held.Keys + Logged(ws) == Logged(ws);
      var bp := Bread(IBlock(i));
    }
  }

  /** The first entry in use of an indirect block. */
  method FirstEntry(a: Block) returns (j: nat)
    ensures j <= NINDIRECT && (j < NINDIRECT ==> Word(a, j) != 0) && forall k :: 0 <= k < j ==> Word(a, k) == 0
  {
    j := 0;
    while j < NINDIRECT && Word(a, j) == 0
      invariant j <= NINDIRECT && forall k :: 0 <= k < j ==> Word(a, k) == 0
    {
      j := j + 1;
    }
  }

  lemma IndirectSlots(v: Disk, ip: Inode, j: nat)
    requires 0 < ip.addrs[NDIRECT] < |v|
    ensures Addr(v, ip, NDIRECT) == ip.addrs[NDIRECT]
    ensures j < NINDIRECT ==> Addr(v, ip, NDIRECT + 1 + j) == Word(v[ip.addrs[NDIRECT]], j)
  {
  }

  lemma NoSlots(owner: Owner, i: nat)
    ensures InSlots(owner, i, {}) == {} && owner.Keys - {} == owner.Keys
  {
  }

  lemma ReachRoom(sb: Super, o: nat, ws: seq<Write>, ip: Inode, i: nat)
    requires Room(sb, o, {}, ws, Bitmaps(sb) + Indirect(ip), 0)
    ensures Room(sb, o, {}, ws, Bitmaps(sb), 0) && |Logged(ws)| + o < NBUF
    ensures ip.addrs[NDIRECT] != 0 ==> Room(sb, o, {}, ws, Bitmaps(sb) + {ip.addrs[NDIRECT] as nat}, 0)
  {
    hide Room, Logged, Bitmaps;
    RoomStep(sb, o, {}, ws, Bitmaps(sb) + Indirect(ip), 0, {}, ws, Bitmaps(sb), 0, {});
    RoomNow(sb, o, {}, ws, Bitmaps(sb), 0);
    assert {} + Logged(ws) == Logged(ws);
    if ip.addrs[NDIRECT] != 0 {
      RoomStep(sb, o, {}, ws, Bitmaps(sb) + Indirect(ip), 0, {}, ws, Bitmaps(sb) + {ip.addrs[NDIRECT] as nat}, 0, {});
    }
  }

  lemma RelinkedFiles(sb: Super, v: Disk, inodes: Inodes, u: Disk, jnodes: Inodes, i: nat)
    requires Sane(sb, v) && Sane(sb, u) && i in inodes && i in jnodes && jnodes == inodes[i := jnodes[i]]
    requires jnodes[i] == inodes[i].(nlink := jnodes[i].nlink) && i < sb.ninodes
    requires forall h :: h in inodes ==> FileOk(sb, v, inodes, h)
    requires SameFiles(v, jnodes, u, jnodes) && SameRefs(v, u, jnodes)
    requires forall j :: 0 <= j < sb.ninodes ==> DiskInode(u, j) == if j == i then jnodes[i] else DiskInode(v, j)
    ensures forall h :: h in jnodes ==> FileOk(sb, u, jnodes, h)
  {
    hide Data, GetDinode;
    forall h | h in jnodes ensures FileOk(sb, u, jnodes, h) {
      assert FileOk(sb, v, inodes, h) && SameRefsOf(v, u, jnodes[h]);
    }
  }

  /** After itrunc the other files still have all their blocks, and the emptied one needs none. */
  lemma TruncatedFiles(sb: Super, v: Disk, inodes: Inodes, own: Owner, u: Disk, jnodes: Inodes, now: Owner, i: nat)
    requires Refs(sb, v, inodes, own) && Refs(sb, u, jnodes, now) && now == own - BlocksOf(own, i) && |u| == |v|
    requires i in inodes && i in jnodes && jnodes == inodes[i := jnodes[i]] && jnodes[i].size == 0
    requires forall h :: h in inodes ==> FileOk(sb, v, inodes, h)
    requires forall j :: 0 <= j < sb.ninodes ==> DiskInode(u, j) == if j == i then jnodes[i] else DiskInode(v, j)
    ensures forall h :: h in jnodes ==> FileOk(sb, u, jnodes, h)
  {
    hide Addr, GetDinode;
    forall h | h in jnodes ensures FileOk(sb, u, jnodes, h) {
      assert FileOk(sb, v, inodes, h) && RefsOf(v, h, inodes[h], own);
      if h != i {
        forall k | 0 <= k < SLOTS && Addr(v, inodes[h], k) != 0 ensures Addr(u, jnodes[h], k) != 0 {
          assert OwnedAt(sb, u, jnodes, now, Addr(v, inodes[h], k));
        }
      }
    }
  }

  function Blocks512(n: nat): nat {
    (n + BSIZE - 1) / BSIZE
  }

  /** The on-disk copy of an inode. */
  function DiskInode(v: Disk, i: nat): Inode
    requires IBlock(i) < |v|
  {
    GetDinode(v[IBlock(i)], i % IPB)
  }

  /** Blocks lo up to hi of a file are allocated. */
  ghost predicate Filled(v: Disk, ip: Inode, lo: nat, hi: nat) {
    forall bn :: lo <= bn < hi && bn < MAXFILE ==> Addr(v, ip, Slot(bn)) != 0
  }

  /** Storing inode i in its slot changes that slot alone. */
  lemma InodeStored(sb: Super, v: Disk, inodes: Inodes, owner: Owner, i: nat)
    requires Sane(sb, v) && Refs(sb, v, inodes, owner) && BitsAre(sb, v, owner.Keys) && i in inodes && i < sb.ninodes
    ensures var x := IBlock(i);
      && 1 < x < |v|
      && var u := v[x := PutDinode(v[x], i % IPB, inodes[i])];
         && Refs(sb, u, inodes, owner) && BitsAre(sb, u, owner.Keys)
         && SameFiles(v, inodes, u, inodes) && SameRefs(v, u, inodes)
         && forall j :: 0 <= j < sb.ninodes ==> DiskInode(u, j) == if j == i then inodes[i] else DiskInode(v, j)
  {
    hide Bit, Refs, SameFiles, SameRefs, BitsAre, PutDinode, GetDinode;
    var x := IBlock(i);
    var data := PutDinode(v[x], i % IPB, inodes[i]);
    OwnedIsData(sb, v, inodes, owner);
    UnownedWrite(sb, v, inodes, owner, x, data);
    BitsFrame(sb, v, owner.Keys, x, data);
    forall j | 0 <= j < sb.ninodes
      ensures DiskInode(v[x := data], j) == if j == i then inodes[i] else DiskInode(v, j)
    {
      DinodeRoundTrip(v[x], i % IPB, inodes[i], j % IPB);
    }
  }

  ghost predicate FileOk(sb: Super, v: Disk, inodes: Inodes, i: nat)
    requires i in inodes && Sane(sb, v)
  {
    && i < sb.ninodes
    && inodes[i].size <= MAXBYTES && Filled(v, inodes[i], 0, Blocks512(inodes[i].size))
    && DiskInode(v, i) == inodes[i]
  }

  predicate SlotIn(k: nat, lo: nat, hi: nat) {
    lo < hi && (if k < NDIRECT then lo <= k < hi else if k == NDIRECT then hi > NDIRECT else lo <= k - 1 < hi)
  }

  /** The slots a write to blocks lo up to hi has to fill. */
  ghost function Missing(v: Disk, ip: Inode, lo: nat, hi: nat): set<nat> {
    set k | 0 <= k < SLOTS && SlotIn(k, lo, hi) && Addr(v, ip, k) == 0
  }

  /** References that were set keep their value. */
  ghost predicate RefsKept(v: Disk, ip: Inode, u: Disk, jp: Inode) {
    forall k :: 0 <= k < SLOTS && Addr(v, ip, k) != 0 ==> Addr(u, jp, k) == Addr(v, ip, k)
  }

  ghost predicate OwnerGrown(own: Owner, now: Owner) {
    forall b :: b in own ==> b in now && now[b] == own[b]
  }

  /** While no block changes hands, every reference of every inode keeps its value. */
  lemma OwnersKeepRefs(sb: Super, v: Disk, inodes: Inodes, own: Owner, u: Disk, jnodes: Inodes, now: Owner, h: nat)
    requires Refs(sb, v, inodes, own) && Refs(sb, u, jnodes, now) && OwnerGrown(own, now) && h in inodes
    ensures h in jnodes ==> RefsKept(v, inodes[h], u, jnodes[h])
  {
    assert RefsOf(v, h, inodes[h], own);
    forall k | 0 <= k < SLOTS && Addr(v, inodes[h], k) != 0 && h in jnodes
      ensures Addr(u, jnodes[h], k) == Addr(v, inodes[h], k)
    {
      assert OwnedAt(sb, u, jnodes, now, Addr(v, inodes[h], k));
    }
  }

  lemma GrownKeeps(v: Disk, ip: Inode, u: Disk, jp: Inode, bn: nat)
    requires bn < MAXFILE && Grown(v, ip, u, jp, bn)
    ensures RefsKept(v, ip, u, jp)
  {
  }

  /** What writing src at off has done: those bytes of file i and no others, blocks filled, references and metadata
      kept; and when all the blocks were there already, the inode itself is untouched. */
  ghost predicate Wrote(sb: Super, v: Disk, inodes: Inodes, u: Disk, jnodes: Inodes, i: nat, off: nat, src: seq<Byte>) {
    && i in inodes && i in jnodes && jnodes == inodes[i := inodes[i].(addrs := jnodes[i].addrs)]
    && (forall h :: h in inodes && h != i ==> SameData(v, inodes[h], u, inodes[h]))
    && Overlaid(v, inodes[i], u, jnodes[i], off, src)
    && Filled(u, jnodes[i], off / BSIZE, if |src| == 0 then 0 else Blocks512(off + |src|))
    && RefsKept(v, inodes[i], u, jnodes[i])
    && MetaKept(sb, v, u)
    && (Filled(v, inodes[i], off / BSIZE, Blocks512(off + |src|)) ==> jnodes == inodes)
  }

  /** The same for one block's worth of bytes. */
  ghost predicate WroteWithin(sb: Super, v: Disk, inodes: Inodes, u: Disk, jnodes: Inodes, i: nat, off: nat,
      src: seq<Byte>)
    requires off < MAXBYTES
  {
    && i in inodes && i in jnodes && jnodes == inodes[i := inodes[i].(addrs := jnodes[i].addrs)]
    && (forall h :: h in inodes && h != i ==> SameData(v, inodes[h], u, inodes[h]))
    && Overlaid(v, inodes[i], u, jnodes[i], off, src)
    && Grown(v, inodes[i], u, jnodes[i], off / BSIZE) && Addr(u, jnodes[i], Slot(off / BSIZE)) != 0
    && MetaKept(sb, v, u)
    && (Need(v, inodes[i], off / BSIZE) == 0 ==> jnodes == inodes)
  }

  lemma WithinKeeps(sb: Super, v: Disk, inodes: Inodes, u: Disk, jnodes: Inodes, i: nat, off: nat, src: seq<Byte>)
    requires off < MAXBYTES && WroteWithin(sb, v, inodes, u, jnodes, i, off, src)
    ensures i in inodes && i in jnodes && jnodes.Keys == inodes.Keys
    ensures RefsKept(v, inodes[i], u, jnodes[i]) && Grown(v, inodes[i], u, jnodes[i], off / BSIZE)
    ensures Addr(u, jnodes[i], Slot(off / BSIZE)) != 0
  {
    hide Addr;
    GrownKeeps(v, inodes[i], u, jnodes[i], off / BSIZE);
  }

  lemma WroteNothing(sb: Super, v: Disk, inodes: Inodes, owner: Owner, i: nat, off: nat)
    requires i in inodes
    ensures Wrote(sb, v, inodes, v, inodes, i, off, [])
  {
    assert inodes[i] == inodes[i].(addrs := inodes[i].addrs);
  }

  lemma OverlaidMore(v: Disk, ip: Inode, u: Disk, jp: Inode, w: Disk, kp: Inode, off: nat, src: seq<Byte>,
      more: seq<Byte>)
    requires Overlaid(v, ip, u, jp, off, src) && Overlaid(u, jp, w, kp, off + |src|, more)
    ensures Overlaid(v, ip, w, kp, off, src + more)
  {
    hide Data;
  }

  lemma WroteMore(sb: Super, v: Disk, inodes: Inodes, u: Disk, jnodes: Inodes, w: Disk, knodes: Inodes, i: nat,
      off: nat, src: seq<Byte>, more: seq<Byte>)
    requires Wrote(sb, v, inodes, u, jnodes, i, off, src) && 0 < |more| && off + |src| + |more| <= MAXBYTES
    requires |src| == 0 || (off + |src|) % BSIZE == 0
    requires (off + |src|) % BSIZE + |more| <= BSIZE && WroteWithin(sb, u, jnodes, w, knodes, i, off + |src|, more)
    ensures Wrote(sb, v, inodes, w, knodes, i, off, src + more)
  {
    hide Addr, Data, SameData, Overlaid, Grown, RefsKept, Filled, Need, Blocks512;
    var cur := off + |src|;
    GrownKeeps(u, jnodes[i], w, knodes[i], cur / BSIZE);
    OverlaidMore(v, inodes[i], u, jnodes[i], w, knodes[i], off, src, more);
    FilledMore(v, inodes[i], u, jnodes[i], w, knodes[i], off, |src|, |more|);
    forall h | h in inodes && h != i ensures SameData(v, inodes[h], w, inodes[h]) {
      assert h in jnodes;
      SameDataTrans(v, inodes[h], u, jnodes[h], w, inodes[h]);
    }
  }

  lemma FilledMore(v: Disk, ip: Inode, u: Disk, jp: Inode, w: Disk, kp: Inode, off: nat, n: nat, m: nat)
    requires 0 < m && off + n + m <= MAXBYTES && (n == 0 || (off + n) % BSIZE == 0) && (off + n) % BSIZE + m <= BSIZE
    requires RefsKept(v, ip, u, jp) && RefsKept(u, jp, w, kp)
    requires Filled(u, jp, off / BSIZE, if n == 0 then 0 else Blocks512(off + n))
    requires Addr(w, kp, Slot((off + n) / BSIZE)) != 0
    ensures RefsKept(v, ip, w, kp) && Filled(w, kp, off / BSIZE, Blocks512(off + n + m))
    ensures Filled(v, ip, off / BSIZE, Blocks512(off + n + m)) ==>
      Filled(v, ip, off / BSIZE, Blocks512(off + n)) && Need(u, jp, (off + n) / BSIZE) == 0
  {
    hide Addr;
    var cur := off + n;
    assert Blocks512(cur + m) == cur / BSIZE + 1 && Blocks512(cur) <= cur / BSIZE + 1;
    assert 0 < n ==> Blocks512(cur) == cur / BSIZE;
    if Filled(v, ip, off / BSIZE, Blocks512(cur + m)) {
      assert Addr(v, ip, Slot(cur / BSIZE)) != 0;
    }
  }

  /** One iteration of writei's loop, from the state before it to the state after it. */
  lemma LoopStep(sb: Super, v: Disk, inodes: Inodes, ws: seq<Write>, u: Disk, jnodes: Inodes, us: seq<Write>,
                 w: Disk, knodes: Inodes, ts: seq<Write>, i: nat, off: nat, src: seq<Byte>, tot: nat, m: nat)
    requires tot + m <= |src| && 0 < m && off + |src| <= MAXBYTES && (tot == 0 || (off + tot) % BSIZE == 0)
    requires (off + tot) % BSIZE + m <= BSIZE && (tot + m == |src| || (off + tot) % BSIZE + m == BSIZE)
    requires Wrote(sb, v, inodes, u, jnodes, i, off, src[..tot])
    requires WroteWithin(sb, u, jnodes, w, knodes, i, off + tot, src[tot..tot + m])
    requires i in jnodes && LogsOnly(sb, ws, us, WriteSectors(u, jnodes[i], off / BSIZE, Blocks512(off + tot)))
    requires i in knodes &&
      LogsOnly(sb, us, ts, WriteSectors(w, knodes[i], (off + tot) / BSIZE, (off + tot) / BSIZE + 1))
    ensures Wrote(sb, v, inodes, w, knodes, i, off, src[..tot + m])
    ensures LogsOnly(sb, ws, ts, WriteSectors(w, knodes[i], off / BSIZE, Blocks512(off + tot + m)))
    ensures (if tot + m < |src| then |Missing(w, knodes[i], (off + tot + m) / BSIZE, Blocks512(off + |src|))| else 0) ==
              |Missing(u, jnodes[i], (off + tot) / BSIZE, Blocks512(off + |src|))| - Need(u, jnodes[i],
                (off + tot) / BSIZE)
  {
    hide Wrote, WroteWithin, WriteSectors, Missing, LogsOnly, Addr, Need, Grown, RefsKept;
    var cur := off + tot;
    WithinKeeps(sb, u, jnodes, w, knodes, i, cur, src[tot..tot + m]);
    MissingStep(u, jnodes[i], w, knodes[i], cur / BSIZE, Blocks512(off + |src|));
    MissingNone(w, knodes[i], Blocks512(off + |src|));
    WriteSectorsGrow(u, jnodes[i], w, knodes[i], off / BSIZE, Blocks512(cur), Blocks512(cur + m));
    WriteSectorsPart(w, knodes[i], off / BSIZE, Blocks512(cur + m), cur / BSIZE);
    LogsOnlyTrans(sb, ws, us, ts, WriteSectors(u, jnodes[i], off / BSIZE, Blocks512(cur)),
                  WriteSectors(w, knodes[i], cur / BSIZE, cur / BSIZE + 1),
                  WriteSectors(w, knodes[i], off / BSIZE, Blocks512(cur + m)));
    WroteMore(sb, v, inodes, u, jnodes, w, knodes, i, off, src[..tot], src[tot..tot + m]);
    assert src[..tot] + src[tot..tot + m] == src[..tot + m];
  }

  /** What writei accepts: no gap after the end, within the largest file. */
  predicate Writable(size: nat, off: Uint, n: nat) { off <= size && off + n <= MAXBYTES }

  /** A completed write: file i has src laid over it and is as long as that needs; every other file is untouched. */
  ghost predicate WroteFile(v: Disk, inodes: Inodes, u: Disk, jnodes: Inodes, i: nat, off: nat, src: seq<Byte>) {
    && i in inodes && i in jnodes && off + |src| <= MAXBYTES
    && jnodes ==
      inodes[i := inodes[i].(addrs := jnodes[i].addrs, size := if off + |src| > inodes[i].size then off + |src|
      else inodes[i].size)]
    && (forall h :: h in inodes && h != i ==> SameData(v, inodes[h], u, inodes[h]))
    && Overlaid(v, inodes[i], u, jnodes[i], off, src)
  }

  /** After writei's loop: the other files are still in order, and file i has a block for every byte it may now
      claim. */
  lemma WroteKeepsFiles(sb: Super, v: Disk, inodes: Inodes, own: Owner, u: Disk, jnodes: Inodes, now: Owner, i: nat,
      off: nat, src: seq<Byte>)
    requires Sane(sb, v) && Sane(sb, u) && Refs(sb, v, inodes, own) && Refs(sb, u, jnodes, now) && OwnerGrown(own, now)
    requires forall h :: h in inodes ==> FileOk(sb, v, inodes, h)
    requires Wrote(sb, v, inodes, u, jnodes, i, off, src) && off <= inodes[i].size && off + |src| <= MAXBYTES
    ensures i in jnodes && jnodes == inodes[i := inodes[i].(addrs := jnodes[i].addrs)]
    ensures forall h :: h in inodes && h != i ==> SameData(v, inodes[h], u, inodes[h])
    ensures Overlaid(v, inodes[i], u, jnodes[i], off, src)
    ensures forall h :: h in jnodes && h != i ==> FileOk(sb, u, jnodes, h)
    ensures Filled(u, jnodes[i], 0, Blocks512(if off + |src| > inodes[i].size then off + |src| else inodes[i].size))
    ensures off + |src| <= inodes[i].size ==> FileOk(sb, u, jnodes, i)
  {
    hide Addr, Refs, OwnerGrown, GetDinode, SameData, Overlaid;
    forall h | h in jnodes ensures RefsKept(v, inodes[h], u, jnodes[h]) {
      OwnersKeepRefs(sb, v, inodes, own, u, jnodes, now, h);
    }
    forall h | h in jnodes ensures h < sb.ninodes && DiskInode(u, h) == DiskInode(v, h) {
      assert FileOk(sb, v, inodes, h);
    }
    forall h | h in jnodes && h != i ensures FileOk(sb, u, jnodes, h) {
      assert FileOk(sb, v, inodes, h);
    }
    assert FileOk(sb, v, inodes, i);
    if off + |src| <= inodes[i].size {
      assert Filled(v, inodes[i], off / BSIZE, Blocks512(off + |src|));
    }
  }

  /** An inode whose other fields change keeps its blocks and its bytes. */
  lemma SameAddrs(sb: Super, v: Disk, inodes: Inodes, owner: Owner, i: nat, jp: Inode)
    requires Refs(sb, v, inodes, owner) && i in inodes && jp.addrs == inodes[i].addrs
    ensures Refs(sb, v, inodes[i := jp], owner)
    ensures SameData(v, inodes[i], v, jp)
  {
    var jnodes := inodes[i := jp];
    forall k | 0 <= k < SLOTS ensures Addr(v, jp, k) == Addr(v, inodes[i], k) {
    }
    forall h | h in jnodes ensures RefsOf(v, h, jnodes[h], owner) {
      assert RefsOf(v, h, inodes[h], owner);
    }
    forall b | b in owner ensures OwnedAt(sb, v, jnodes, owner, b) {
      assert OwnedAt(sb, v, inodes, owner, b);
    }
  }

  /** After iupdate of the grown inode: every file is in order and the write is complete. */
  lemma UpdatedFiles(sb: Super, v: Disk, inodes: Inodes, u: Disk, jnodes: Inodes, w: Disk, knodes: Inodes, i: nat,
      off: nat, src: seq<Byte>)
    requires Sane(sb, u) && Sane(sb, w) && i in jnodes && i in inodes && off + |src| <= MAXBYTES &&
      off + |src| > inodes[i].size
    requires i < sb.ninodes
    requires jnodes == inodes[i := inodes[i].(addrs := jnodes[i].addrs)] &&
      knodes == jnodes[i := jnodes[i].(size := off + |src|)]
    requires forall h :: h in inodes && h != i ==> SameData(v, inodes[h], u, inodes[h])
    requires Overlaid(v, inodes[i], u, jnodes[i], off, src)
    requires forall h :: h in jnodes && h != i ==> FileOk(sb, u, jnodes, h)
    requires Filled(u, jnodes[i], 0, Blocks512(off + |src|))
    requires SameData(u, jnodes[i], u, knodes[i])
    requires SameFiles(u, knodes, w, knodes) && SameRefs(u, w, knodes)
    requires forall j :: 0 <= j < sb.ninodes ==> DiskInode(w, j) == if j == i then knodes[i] else DiskInode(u, j)
    ensures forall h :: h in knodes ==> FileOk(sb, w, knodes, h)
    ensures WroteFile(v, inodes, w, knodes, i, off, src)
    ensures RefsKept(u, jnodes[i], w, knodes[i])
  {
    hide DiskInode, Data;
    assert SameRefsOf(u, w, knodes[i]);
    forall h | h in knodes ensures FileOk(sb, w, knodes, h) {
      assert SameRefsOf(u, w, knodes[h]);
      if h != i {
        assert FileOk(sb, u, jnodes, h);
      } else {
        forall bn | 0 <= bn < Blocks512(off + |src|) && bn < MAXFILE ensures Addr(w, knodes[i], Slot(bn)) != 0 {
          assert Addr(u, jnodes[i], Slot(bn)) != 0;
        }
      }
    }
    forall h | h in inodes && h != i ensures SameData(v, inodes[h], w, inodes[h]) {
      assert h in knodes;
      SameDataTrans(v, inodes[h], u, inodes[h], w, inodes[h]);
    }
    SameDataTrans(u, jnodes[i], u, knodes[i], w, knodes[i]);
  }

  /** The blocks inode i refers to from the given slots. */
  ghost function InSlots(owner: Owner, i: nat, slots: set<nat>): set<nat> {
    set b | b in owner && owner[b].0 == i && owner[b].1 in slots
  }

  /** An empty slot holds no block; a set one holds exactly one, still marked unless its slot is done. */
  lemma SlotFreed(sb: Super, v: Disk, inodes: Inodes, owner: Owner, i: nat, k: nat, done: set<nat>)
    requires Refs(sb, v, inodes, owner) && i in inodes && k < SLOTS && k !in done
    ensures var b := Addr(v, inodes[i], k);
      if b == 0 then InSlots(owner, i, done + {k}) == InSlots(owner, i, done)
      else
        && b in owner && FirstData(sb) <= b < LogStart(sb)
        && b !in InSlots(owner, i, done) && InSlots(owner, i, done + {k}) == InSlots(owner, i, done) + {b}
  {
    var b := Addr(v, inodes[i], k);
    assert RefsOf(v, i, inodes[i], owner);
    OwnedIsData(sb, v, inodes, owner);
    forall c | c in owner && owner[c] == (i, k) ensures c == b {
      assert OwnedAt(sb, v, inodes, owner, c);
    }
  }

  lemma NoneFreed(sb: Super, v: Disk, inodes: Inodes, owner: Owner, i: nat, k: nat, done: set<nat>)
    requires Refs(sb, v, inodes, owner) && i in inodes && k < SLOTS && k !in done && Addr(v, inodes[i], k) == 0
    ensures InSlots(owner, i, done + {k}) == InSlots(owner, i, done) && OnlyBitmap(sb, v, v, inodes)
  {
    hide Refs, Addr, InSlots;
    SlotFreed(sb, v, inodes, owner, i, k, done);
    RefsBounded(sb, v, inodes, owner);
  }

  /** Clearing the bit of the block in slot k: what is marked is what is owned, less the slots done. */
  lemma OneFreed(sb: Super, v: Disk, inodes: Inodes, owner: Owner, i: nat, k: nat, done: set<nat>)
    requires Sane(sb, v) && Refs(sb, v, inodes, owner) && BitsAre(sb, v, owner.Keys - InSlots(owner, i, done))
    requires i in inodes && k < SLOTS && k !in done && Addr(v, inodes[i], k) != 0
    ensures var b := Addr(v, inodes[i], k);
      && FirstData(sb) <= b < LogStart(sb) && Bit(sb, v, b)
      && var m := BBlock(b, sb.ninodes);
         && 1 < m < |v| && IsBitmap(sb, m) && m in Bitmaps(sb)
         && var u := v[m := WithoutBit(v[m], b % BPB)];
            && Sane(sb, u) && u[1] == v[1] && Refs(sb, u, inodes, owner) && OnlyBitmap(sb, v, u, inodes)
            && BitsAre(sb, u, owner.Keys - InSlots(owner, i, done + {k}))
  {
    hide Refs, Addr, BitOf, WithoutBit, InSlots;
    var b := Addr(v, inodes[i], k);
    var m := BBlock(b, sb.ninodes);
    SlotFreed(sb, v, inodes, owner, i, k, done);
    RefsBounded(sb, v, inodes, owner);
    OwnedIsData(sb, v, inodes, owner);
    BitmapIsMetadata(sb, b);
    UnmarkBit(sb, v, owner.Keys - InSlots(owner, i, done), b);
    UnownedWrite(sb, v, inodes, owner, m, WithoutBit(v[m], b % BPB));
    assert owner.Keys - InSlots(owner, i, done) - {b} == owner.Keys - InSlots(owner, i, done + {k});
  }

  ghost function Upto(n: nat): (r: set<nat>)
    ensures forall k :: k in r <==> 0 <= k < n
  {
    if n == 0 then {} else Upto(n - 1) + {n - 1}
  }

  function ZeroedUpto(addrs: Addrs, n: nat): Addrs {
    seq<Uint>(NDIRECT + 1, k requires 0 <= k < NDIRECT + 1 => if k < n then 0 else addrs[k])
  }

  /** A change to bitmap blocks only: files and references stay. */
  ghost predicate OnlyBitmap(sb: Super, v: Disk, u: Disk, nodes: Inodes) {
    && |u| == |v| && (forall x :: 0 <= x < |v| && !IsBitmap(sb, x) ==> u[x] == v[x])
    && SameFiles(v, nodes, u, nodes)
  }

  lemma OnlyBitmapAt(sb: Super, v: Disk, u: Disk, nodes: Inodes, x: nat)
    requires OnlyBitmap(sb, v, u, nodes) && FirstData(sb) <= x < |v|
    ensures x < |u| && u[x] == v[x]
  {
  }

  lemma OnlyBitmapTrans(sb: Super, v: Disk, u: Disk, w: Disk, nodes: Inodes)
    requires OnlyBitmap(sb, v, u, nodes) && OnlyBitmap(sb, u, w, nodes)
    ensures OnlyBitmap(sb, v, w, nodes)
  {
    SameFilesTrans(v, nodes, u, nodes, w, nodes);
  }

  lemma NothingDone(sb: Super, v: Disk, nodes: Inodes, owner: Owner, i: nat)
    requires Refs(sb, v, nodes, owner)
    ensures OnlyBitmap(sb, v, v, nodes) && owner.Keys - InSlots(owner, i, Upto(0)) == owner.Keys
  {
    RefsBounded(sb, v, nodes, owner);
  }

  /** With every non-empty slot done, the blocks taken off the bitmap are all blocks of the file. */
  lemma AllFreed(sb: Super, v: Disk, nodes: Inodes, owner: Owner, i: nat)
    requires Refs(sb, v, nodes, owner) && i in nodes
    ensures InSlots(owner, i, Upto(SLOTS)) == BlocksOf(owner, i)
    ensures nodes[i].addrs[NDIRECT] == 0 ==> InSlots(owner, i, Upto(NDIRECT)) == BlocksOf(owner, i)
    ensures owner.Keys - BlocksOf(owner, i) == (owner - BlocksOf(owner, i)).Keys
  {
    forall b | b in owner && owner[b].0 == i
      ensures owner[b].1 < SLOTS && (nodes[i].addrs[NDIRECT] == 0 ==> owner[b].1 < NDIRECT)
    {
      assert OwnedAt(sb, v, nodes, owner, b);
    }
  }

  lemma SameDataTrans(v: Disk, ip: Inode, u: Disk, jp: Inode, w: Disk, kp: Inode)
    requires SameData(v, ip, u, jp) && SameData(u, jp, w, kp)
    ensures SameData(v, ip, w, kp)
  {
    forall o | 0 <= o < MAXBYTES ensures Data(v, ip, o) == Data(w, kp, o) {
      assert Data(v, ip, o) == Data(u, jp, o);
    }
  }

  /** The sectors a write to blocks lo up to hi may log, besides the bitmap. */
  ghost function WriteSectors(v: Disk, ip: Inode, lo: nat, hi: nat): set<nat> {
    (set k | 0 <= k < SLOTS && (k == NDIRECT || SlotIn(k, lo, hi)) && Addr(v, ip, k) != 0 :: Addr(v, ip, k))
  }

  lemma WriteSectorsGrow(v: Disk, ip: Inode, u: Disk, jp: Inode, lo: nat, mid: nat, hi: nat)
    requires mid <= hi && RefsKept(v, ip, u, jp)
    ensures WriteSectors(v, ip, lo, mid) <= WriteSectors(u, jp, lo, hi)
  {
    hide Addr;
    forall s | s in WriteSectors(v, ip, lo, mid) ensures s in WriteSectors(u, jp, lo, hi) {
      var k :| 0 <= k < SLOTS && (k == NDIRECT || SlotIn(k, lo, mid)) && Addr(v, ip, k) != 0 && s == Addr(v, ip, k);
      assert Addr(u, jp, k) == s;
    }
  }

  /** A stretch of the transaction logs, besides bitmap blocks, only sectors of the given set. */
  ghost predicate LogsOnly(sb: Super, ws: seq<Write>, us: seq<Write>, sectors: set<nat>) {
    forall s :: s in Logged(us) ==> s in Logged(ws) || s in sectors || IsBitmap(sb, s)
  }

  lemma LogsOnlyTrans(sb: Super, ws: seq<Write>, us: seq<Write>, ts: seq<Write>, a: set<nat>, b: set<nat>, c: set<nat>)
    requires LogsOnly(sb, ws, us, a) && LogsOnly(sb, us, ts, b) && a <= c && b <= c
    ensures LogsOnly(sb, ws, ts, c)
  {
  }

  lemma WriteSectorsPart(v: Disk, ip: Inode, lo: nat, hi: nat, bn: nat)
    requires lo <= bn < hi
    ensures WriteSectors(v, ip, bn, bn + 1) <= WriteSectors(v, ip, lo, hi)
  {
    assert forall k :: SlotIn(k, bn, bn + 1) ==> SlotIn(k, lo, hi);
  }

  lemma WriteSectorsHas(v: Disk, ip: Inode, lo: nat, hi: nat, bn: nat)
    requires lo <= bn < hi && bn < MAXFILE
    ensures Addr(v, ip, Slot(bn)) != 0 ==> Addr(v, ip, Slot(bn)) in WriteSectors(v, ip, lo, hi)
    ensures ip.addrs[NDIRECT] != 0 ==> ip.addrs[NDIRECT] in WriteSectors(v, ip, lo, hi)
  {
    assert SlotIn(Slot(bn), lo, hi);
    assert Addr(v, ip, NDIRECT) == ip.addrs[NDIRECT];
  }

  lemma OneBlockLogged(sb: Super, ws: seq<Write>, us: seq<Write>, ts: seq<Write>, v: Disk, ip: Inode, bn: nat)
    requires bn < MAXFILE && Addr(v, ip, Slot(bn)) != 0 && Logged(ts) == Logged(us) + {Addr(v, ip, Slot(bn)) as nat}
    requires forall s :: s in Logged(us) ==>
      s in Logged(ws) || s == Addr(v, ip, Slot(bn)) || 0 != s == ip.addrs[NDIRECT] || IsBitmap(sb, s)
    ensures LogsOnly(sb, ws, ts, WriteSectors(v, ip, bn, bn + 1))
  {
    hide Addr, Logged, WriteSectors, IsBitmap;
    WriteSectorsHas(v, ip, bn, bn + 1, bn);
  }

  lemma IndirectFirst(v: Disk, ip: Inode, bn: nat)
    requires bn < MAXFILE
    ensures Addr(v, ip, NDIRECT) == ip.addrs[NDIRECT]
    ensures bn >= NDIRECT && Addr(v, ip, Slot(bn)) != 0 ==> Addr(v, ip, NDIRECT) != 0
  {
  }

  /** The slots that bmap fills for block bn. */
  ghost function FilledFor(v: Disk, ip: Inode, bn: nat): set<nat>
    requires bn < MAXFILE
  {
    if Addr(v, ip, Slot(bn)) != 0 then {} else if bn >= NDIRECT &&
      Addr(v, ip, NDIRECT) == 0 then {Slot(bn), NDIRECT} else {Slot(bn)}
  }

  lemma FilledForNeed(v: Disk, ip: Inode, bn: nat)
    requires bn < MAXFILE
    ensures |FilledFor(v, ip, bn)| == Need(v, ip, bn)
  {
    hide Addr;
    IndirectFirst(v, ip, bn);
  }

  lemma MissingRest(v: Disk, ip: Inode, u: Disk, jp: Inode, lo: nat, hi: nat)
    requires lo < hi <= MAXFILE && Grown(v, ip, u, jp, lo) && Addr(u, jp, Slot(lo)) != 0
    ensures FilledFor(v, ip, lo) <= Missing(v, ip, lo, hi)
    ensures Missing(u, jp, lo + 1, hi) == Missing(v, ip, lo, hi) - FilledFor(v, ip, lo)
  {
    hide Addr;
    IndirectFirst(v, ip, lo);
    IndirectFirst(u, jp, lo);
  }

  /** Filling the first block of a range leaves the rest of the range's slots to fill. */
  lemma MissingStep(v: Disk, ip: Inode, u: Disk, jp: Inode, lo: nat, hi: nat)
    requires lo < hi <= MAXFILE && Grown(v, ip, u, jp, lo) && Addr(u, jp, Slot(lo)) != 0
    ensures Need(v, ip, lo) <= |Missing(v, ip, lo, hi)|
    ensures |Missing(u, jp, lo + 1, hi)| == |Missing(v, ip, lo, hi)| - Need(v, ip, lo)
  {
    hide Addr, Missing, FilledFor, Need, Grown;
    FilledForNeed(v, ip, lo);
    MissingRest(v, ip, u, jp, lo, hi);
    assert Missing(v, ip, lo, hi) == Missing(u, jp, lo + 1, hi) + FilledFor(v, ip, lo);
  }

  lemma MissingNone(v: Disk, ip: Inode, hi: nat)
    ensures Missing(v, ip, hi, hi) == {}
  {
  }

  lemma MissingCoversNeed(v: Disk, ip: Inode, lo: nat, hi: nat)
    requires lo < hi <= MAXFILE
    ensures Need(v, ip, lo) <= |Missing(v, ip, lo, hi)|
  {
    var was := Missing(v, ip, lo, hi);
    assert Addr(v, ip, NDIRECT) == ip.addrs[NDIRECT];
    if Addr(v, ip, Slot(lo)) == 0 {
      var filled := if lo >= NDIRECT && ip.addrs[NDIRECT] == 0 then {Slot(lo), NDIRECT} else {Slot(lo)};
      assert filled <= was && was == filled + (was - filled);
    }
  }

  /** memmove(bp->data + at, src, m). */
  function Patched(b: Block, at: nat, src: seq<Byte>): Block
    requires at + |src| <= BSIZE
  {
    Block(b.bytes[..at] + src + b.bytes[at + |src|..])
  }

  /** The bytes src laid over a file from offset off on; every other byte is kept. */
  ghost predicate Overlaid(v: Disk, ip: Inode, u: Disk, jp: Inode, off: nat, src: seq<Byte>) {
    forall o :: 0 <= o < MAXBYTES ==>
      Data(u, jp, o) == if off <= o < off + |src| then src[o - off] else Data(v, ip, o)
  }

  lemma PatchedData(v: Disk, u: Disk, ip: Inode, off: nat, src: seq<Byte>, addr: nat, data: Block)
    requires off % BSIZE + |src| <= BSIZE && off + |src| <= MAXBYTES && 0 < |src|
    requires 0 < addr < |v| && addr == Addr(v, ip, Slot(off / BSIZE)) && data == Patched(v[addr], off % BSIZE, src)
    requires forall o :: 0 <= o < MAXBYTES ==>
               Data(u, ip, o) == if o / BSIZE == off / BSIZE then data.bytes[o % BSIZE] else Data(v, ip, o)
    ensures Overlaid(v, ip, u, ip, off, src)
  {
    forall o | 0 <= o < MAXBYTES
      ensures Data(u, ip, o) == if off <= o < off + |src| then src[o - off] else Data(v, ip, o)
    {
      if o / BSIZE == off / BSIZE {
        assert o - off == o % BSIZE - off % BSIZE;
      }
    }
  }

  lemma RefsBounded(sb: Super, v: Disk, inodes: Inodes, owner: Owner)
    requires Refs(sb, v, inodes, owner)
    ensures forall i :: i in inodes ==> inodes[i].addrs[NDIRECT] < |v|
    ensures SameFiles(v, inodes, v, inodes)
  {
    forall i | i in inodes ensures inodes[i].addrs[NDIRECT] < |v| && SameData(v, inodes[i], v, inodes[i]) {
      assert RefsOf(v, i, inodes[i], owner);
    }
  }

  lemma AddrIsData(sb: Super, v: Disk, inodes: Inodes, owner: Owner, i: nat, k: nat)
    requires Refs(sb, v, inodes, owner) && i in inodes && k < SLOTS && Addr(v, inodes[i], k) != 0
    ensures FirstData(sb) <= Addr(v, inodes[i], k) < LogStart(sb)
  {
    assert RefsOf(v, i, inodes[i], owner);
    OwnedIsData(sb, v, inodes, owner);
  }

  lemma IndirectIsOwned(sb: Super, v: Disk, inodes: Inodes, owner: Owner, i: nat)
    requires Refs(sb, v, inodes, owner) && i in inodes && inodes[i].addrs[NDIRECT] != 0
    ensures inodes[i].addrs[NDIRECT] in owner && FirstData(sb) <= inodes[i].addrs[NDIRECT] < LogStart(sb)
  {
    assert RefsOf(v, i, inodes[i], owner);
    assert Addr(v, inodes[i], NDIRECT) == inodes[i].addrs[NDIRECT];
    OwnedIsData(sb, v, inodes, owner);
  }

  /** bmap of block bn keeps every reference that was set, and sets at most its own and the indirect block. */
  ghost predicate Grown(v: Disk, ip: Inode, u: Disk, jp: Inode, bn: nat)
    requires bn < MAXFILE
  {
    forall k :: 0 <= k < SLOTS && (Addr(v, ip, k) != 0 || (k != Slot(bn) && (k != NDIRECT || bn < NDIRECT))) ==>
      Addr(u, jp, k) == Addr(v, ip, k)
  }

  /** Blocks below the data area, other than the bitmap, are as they were. */
  ghost predicate MetaKept(sb: Super, v: Disk, u: Disk) {
    |u| == |v| && forall x :: 0 <= x < |v| && x < FirstData(sb) && !IsBitmap(sb, x) ==> u[x] == v[x]
  }

  /** References that were set keep their value; the only slot newly set is k. */
  ghost predicate Kept(v: Disk, ip: Inode, u: Disk, jp: Inode, k: nat) {
    forall j :: 0 <= j < SLOTS && (j != k || Addr(v, ip, j) != 0) ==> Addr(u, jp, j) == Addr(v, ip, j)
  }
}

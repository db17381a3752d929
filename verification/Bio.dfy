/** The buffer cache over the in-memory disk (kernel/bio.c, kernel/memdisk.c). */
module Bio {
  import opened Ints
  import opened Blocks

  const NBUF: nat := 10
  const HEAD: nat := NBUF             // index standing for &bcache.head
  const ROOTDEV: Uint := 1
  const NODEV: Uint := 0xFFFF_FFFF    // binit stores -1 in the unsigned dev field

  datatype Buf = Buf(busy: bool, valid: bool, dirty: bool, dev: Uint, sector: Uint, data: Block)

  type Bufs = s: seq<Buf> | |s| == NBUF witness seq(NBUF, _ => Buf(false, false, false, NODEV, 0, Zeroes()))

  /** What bget does: hand out a buffer, sleep on a busy one, or panic. */
  datatype Got = Buffer(b: nat) | Wait(b: nat) | NoBuffers

  /** One sector write as it reaches the disk. */
  datatype Write = Write(sector: Uint, data: Block)

  // ---- the doubly linked list ----

  /** next and prev form one cycle that visits exactly r, in order, starting at the head. */
  ghost predicate Ring(next: seq<nat>, prev: seq<nat>, r: seq<nat>) {
    && |next| == |prev| == NBUF + 1
    && 0 < |r| && r[0] == HEAD
    && Distinct(r)
    && (forall k :: 0 <= k < |r| ==> Linked(next, prev, r, k))
  }

  ghost predicate Distinct(r: seq<nat>) {
    && (forall k :: 0 <= k < |r| ==> r[k] <= NBUF)
    && (forall j, k :: 0 <= j < k < |r| ==> r[j] != r[k])
  }

  /** The k-th element of the cycle and its successor point at each other. */
  ghost predicate Linked(next: seq<nat>, prev: seq<nat>, r: seq<nat>, k: nat)
    requires |next| == |prev| == NBUF + 1 && k < |r| && Distinct(r)
  {
    var succ := if k + 1 < |r| then r[k + 1] else r[0];
    next[r[k]] == succ && prev[succ] == r[k]
  }

  /** The first two assignments of brelse take one buffer out of the cycle. */
  lemma RingUnlink(next: seq<nat>, prev: seq<nat>, r: seq<nat>, k: nat)
    requires Ring(next, prev, r) && 0 < k < |r|
    ensures next[r[k]] <= NBUF && prev[r[k]] <= NBUF
    ensures Ring(next[prev[r[k]] := next[r[k]]], prev[next[r[k]] := prev[r[k]]], r[..k] + r[k + 1..])
  {
    var q := r[..k] + r[k + 1..];
    assert Distinct(q);
    assert Linked(next, prev, r, k - 1) && Linked(next, prev, r, k);
    var n := next[prev[r[k]] := next[r[k]]];
    var p := prev[next[r[k]] := prev[r[k]]];
    forall j | 0 <= j < |q|
      ensures Linked(n, p, q, j)
    {
      assert Linked(next, prev, r, if j < k then j else j + 1);
    }
  }

  /** The remaining assignments of brelse (and the body of binit's loop) put a buffer right after the head. */
  lemma RingPush(next: seq<nat>, prev: seq<nat>, r: seq<nat>, b: nat)
    requires Ring(next, prev, r) && b < NBUF && b !in r
    ensures next[HEAD] <= NBUF
    ensures Ring(next[b := next[HEAD]][HEAD := b], prev[b := HEAD][next[HEAD] := b], [HEAD, b] + r[1..])
  {
    var q := [HEAD, b] + r[1..];
    assert Distinct(q);
    assert Linked(next, prev, r, 0);
    var n := next[b := next[HEAD]][HEAD := b];
    var p := prev[b := HEAD][next[HEAD] := b];
    forall j | 0 <= j < |q|
      ensures Linked(n, p, q, j)
    {
      if j >= 2 {
        assert Linked(next, prev, r, j - 1);
      }
    }
  }

  // ---- what the buffers hold ----

  ghost predicate Unique(buf: seq<Buf>) {
    forall i, j :: 0 <= i < j < |buf| && buf[i].dev != NODEV && buf[i].dev == buf[j].dev ==>
      buf[i].sector != buf[j].sector
  }

  predicate CachedAt(buf: seq<Buf>, b: nat, dev: Uint, sector: Uint) {
    b < |buf| && buf[b].dev == dev && buf[b].sector == sector
  }

  ghost predicate Cached(buf: seq<Buf>, dev: Uint, sector: Uint) {
    exists b :: CachedAt(buf, b, dev, sector)
  }

  predicate Pinned(x: Buf) {
    x.busy || x.dirty
  }

  /** bget's victim: the least recently released buffer that is neither busy nor dirty. */
  ghost predicate Victim(buf: seq<Buf>, order: seq<nat>, b: nat) {
    exists k :: 0 <= k < |order| && order[k] == b && b < |buf| && !Pinned(buf[b])
                && forall j :: k < j < |order| ==> order[j] < |buf| && Pinned(buf[order[j]])
  }

  ghost predicate PinnedFrom(buf: seq<Buf>, order: seq<nat>, k: nat) {
    forall j :: k <= j < |order| ==> order[j] < |buf| && Pinned(buf[order[j]])
  }

  lemma NonePinned(buf: seq<Buf>, order: seq<nat>)
    ensures PinnedFrom(buf, order, |order|)
  {
  }

  lemma OnePinned(buf: seq<Buf>, order: seq<nat>, k: nat)
    requires PinnedFrom(buf, order, k + 1) && k < |order| && order[k] < |buf| && Pinned(buf[order[k]])
    ensures PinnedFrom(buf, order, k)
  {
  }

  lemma IsVictim(buf: seq<Buf>, order: seq<nat>, k: nat)
    requires PinnedFrom(buf, order, k + 1) && k < |order| && order[k] < |buf| && !Pinned(buf[order[k]])
    ensures Victim(buf, order, order[k])
  {
  }

  lemma AllPinned(buf: seq<Buf>, order: seq<nat>)
    requires PinnedFrom(buf, order, 0) && |buf| == NBUF && forall i :: 0 <= i < NBUF ==> i in order
    ensures forall i :: 0 <= i < NBUF ==> Pinned(buf[i])
  {
    forall i | 0 <= i < NBUF ensures Pinned(buf[i]) {
      assert i in order;
    }
  }

  /** The k-th element of the cycle that starts at the head. */
  ghost function InRing(order: seq<nat>, k: nat): nat
    requires k <= |order|
  {
    if k == 0 then HEAD else order[k - 1]
  }

  lemma Before(next: seq<nat>, prev: seq<nat>, order: seq<nat>, k: nat)
    requires Ring(next, prev, [HEAD] + order) && k <= |order|
    ensures |prev| == NBUF + 1 && HEAD <= NBUF && InRing(order, k) <= NBUF && (0 < k ==> InRing(order, k) < NBUF)
    ensures k == |order| ==> prev[HEAD] == InRing(order, k)
    ensures k < |order| ==> order[k] < NBUF && prev[order[k]] == InRing(order, k)
  {
    var ring := [HEAD] + order;
    assert Linked(next, prev, ring, k);
    assert forall j :: 0 <= j < |order| ==> order[j] == ring[j + 1];
  }

  /** bget's grant: the cached buffer if it is not busy, else the victim, renamed and marked unread. */
  ghost predicate Granted(was: seq<Buf>, now: seq<Buf>, order: seq<nat>, b: nat, dev: Uint, sector: Uint)
    requires b < |was|
  {
    if CachedAt(was, b, dev, sector)
    then !was[b].busy && now == was[b := was[b].(busy := true)]
    else
      && !Cached(was, dev, sector) && Victim(was, order, b)
      && now == was[b := Buf(true, false, false, dev, sector, was[b].data)]
  }

  ghost function IndexOf(order: seq<nat>, b: nat): (k: nat)
    requires b in order
    ensures k < |order| && order[k] == b
  {
    var k :| 0 <= k < |order| && order[k] == b;
    k
  }

  /** Most-recently-released order after releasing b. */
  ghost function MovedToFront(order: seq<nat>, b: nat): seq<nat>
    requires b in order
  {
    var k := IndexOf(order, b);
    [b] + order[..k] + order[k + 1..]
  }

  /** brelse's six assignments, in its order, move b to the front of the cycle. */
  lemma RingMoveToFront(next: seq<nat>, prev: seq<nat>, order: seq<nat>, b: nat)
    requires Ring(next, prev, [HEAD] + order) && b in order && b < NBUF
    requires |order| == NBUF && forall i :: 0 <= i < NBUF ==> i in order
    ensures next[b] <= NBUF && prev[b] <= NBUF
    ensures var p := prev[next[b] := prev[b]];
      var n := next[prev[b] := next[b]];
      n[HEAD] <= NBUF &&
      Ring(n[b := n[HEAD]][HEAD := b], p[b := HEAD][n[HEAD] := b], [HEAD] + MovedToFront(order, b))
    ensures forall i :: 0 <= i < NBUF ==> i in MovedToFront(order, b)
  {
    var r := [HEAD] + order;
    var k := IndexOf(order, b) + 1;
    RingUnlink(next, prev, r, k);
    var q := r[..k] + r[k + 1..];
    assert b !in q;
    RingPush(next[prev[b] := next[b]], prev[next[b] := prev[b]], q, b);
    assert [HEAD] + MovedToFront(order, b) == [HEAD, b] + q[1..];
    forall i | 0 <= i < NBUF ensures i in MovedToFront(order, b) {
      var j := IndexOf(order, i);
      assert MovedToFront(order, b)[if j < k - 1 then j + 1 else if j == k - 1 then 0 else j] == i;
    }
  }

  ghost function Dirty(buf: seq<Buf>): set<nat> {
    set i | 0 <= i < |buf| && buf[i].dirty :: buf[i].sector
  }

  ghost function Held(buf: seq<Buf>): set<nat> {
    set i | 0 <= i < |buf| && buf[i].busy :: buf[i].sector
  }

  /** Cached data is the latest data; the disk may lag behind only where a dirty buffer pins the difference. */
  ghost predicate Coherent(buf: seq<Buf>, disk: Disk, latest: Disk) {
    && |latest| == |disk|
    && (forall i :: 0 <= i < |buf| && buf[i].busy ==> buf[i].dev == ROOTDEV)
    && (forall i :: 0 <= i < |buf| && buf[i].dirty ==> buf[i].valid)
    && (forall i :: 0 <= i < |buf| && buf[i].valid ==> buf[i].dev == ROOTDEV && buf[i].sector < |disk|)
    && (forall i :: 0 <= i < |buf| && buf[i].valid && !buf[i].busy ==> buf[i].data == latest[buf[i].sector])
    && (forall s :: 0 <= s < |disk| && s !in Dirty(buf) ==> disk[s] == latest[s])
  }

  ghost function FirstSectors(buf: seq<Buf>, n: nat): set<nat>
    requires n <= |buf|
  {
    set i | 0 <= i < n :: buf[i].sector
  }

  lemma FirstSectorsCount(buf: seq<Buf>, n: nat)
    requires n <= |buf| && Unique(buf)
    requires forall i :: 0 <= i < |buf| ==> buf[i].dev == ROOTDEV
    ensures |FirstSectors(buf, n)| == n
  {
    if n > 0 {
      FirstSectorsCount(buf, n - 1);
      assert FirstSectors(buf, n) == FirstSectors(buf, n - 1) + {buf[n - 1].sector};
      assert buf[n - 1].sector !in FirstSectors(buf, n - 1);
    }
  }

  /** Pigeonhole: while fewer than NBUF sectors of the disk are held or dirty, bget does not run out of buffers. */
  lemma RoomHasVictim(buf: seq<Buf>, disk: Disk, latest: Disk)
    requires |buf| == NBUF && Unique(buf) && Coherent(buf, disk, latest)
    requires |Held(buf) + Dirty(buf)| < NBUF
    ensures exists i :: 0 <= i < |buf| && !Pinned(buf[i])
  {
    if forall i :: 0 <= i < |buf| ==> Pinned(buf[i]) {
      assert Held(buf) + Dirty(buf) == FirstSectors(buf, NBUF);
      FirstSectorsCount(buf, NBUF);
    }
  }

  class BufferCache {
    var buf: Bufs
    var next: seq<nat>
    var prev: seq<nat>
    var disk: Disk
    ghost var order: seq<nat>     // the list from most to least recently released
    ghost var latest: Disk        // per sector, the data last stored by bwrite or log_write
    ghost var trace: seq<Write>   // every sector write so far

    ghost predicate Valid()
      reads this
    {
      && |order| == NBUF
      && (forall i :: 0 <= i < NBUF ==> i in order)
      && Ring(next, prev, [HEAD] + order)
      && Unique(buf)
      && Coherent(buf, disk, latest)
    }

    /** binit over a disk image, as after a boot or a crash. */
    constructor (image: Disk)
      ensures Valid()
      ensures disk == image && latest == image && trace == []
      ensures Held(buf) == {} && Dirty(buf) == {}
      ensures order == seq(NBUF, i requires 0 <= i < NBUF => NBUF - 1 - i)
    {
      disk, latest, trace := image, image, [];
      buf := seq(NBUF, _ => Buf(false, false, false, NODEV, 0, Zeroes()));
      var n: seq<nat>, p: seq<nat> := seq(NBUF + 1, _ => HEAD), seq(NBUF + 1, _ => HEAD);
      ghost var o: seq<nat> := [];
      var b := 0;
      while b < NBUF
        invariant 0 <= b <= NBUF
        invariant Ring(n, p, [HEAD] + o)
        invariant |o| == b && forall i :: 0 <= i < b ==> o[i] == b - 1 - i
      {
        ghost var r := [HEAD] + o;
        assert b !in r;
        RingPush(n, p, r, b);
        p := p[b := HEAD][n[HEAD] := b];
        n := n[b := n[HEAD]][HEAD := b];
        o := [b] + o;
        assert [HEAD] + o == [HEAD, b] + r[1..];
        b := b + 1;
      }
      forall i | 0 <= i < NBUF ensures i in o {
        assert o[NBUF - 1 - i] == i;
      }
      next, prev, order := n, p, o;
    }

    /** What a client of the cache needs of Valid: off the dirty sectors, disk and latest data agree. */
    lemma CleanSectorsOnDisk()
      requires Valid()
      ensures |latest| == |disk|
      ensures forall s :: 0 <= s < |disk| && s !in Dirty(buf) ==> disk[s] == latest[s]
    {
    }

    lemma HeldInRange(b: nat)
      requires Valid() && b < NBUF && buf[b].valid
      ensures buf[b].sector < |disk|
    {
    }

    /** bget's first loop: the buffer for (dev, sector), or the head when there is none. */
    method Lookup(dev: Uint, sector: Uint) returns (b: nat)
      requires Valid()
      ensures b == HEAD ==> !Cached(buf, dev, sector)
      ensures b != HEAD ==> CachedAt(buf, b, dev, sector)
    {
      ghost var ring := [HEAD] + order;
      b := next[HEAD];
      ghost var k := 1;
      assert Linked(next, prev, ring, 0);
      while b != HEAD
        invariant 1 <= k <= |ring| && b == if k < |ring| then ring[k] else HEAD
        invariant forall i :: 1 <= i < k ==> !CachedAt(buf, ring[i], dev, sector)
        decreases |ring| - k
      {
        if buf[b].dev == dev && buf[b].sector == sector {
          return;
        }
        assert Linked(next, prev, ring, k);
        b := next[b];
        k := k + 1;
      }
      forall i | 0 <= i < NBUF ensures !CachedAt(buf, i, dev, sector) {
        assert i in ring[1..];
      }
    }

    /** bget's second loop: the least recently released unpinned buffer, or the head when all are pinned. */
    method Recyclable() returns (b: nat)
      requires Valid()
      ensures b == HEAD ==> forall i :: 0 <= i < NBUF ==> Pinned(buf[i])
      ensures b != HEAD ==> Victim(buf, order, b)
    {
      hide Unique, Coherent, Ring, Victim, PinnedFrom;
      Before(next, prev, order, NBUF);
      b := prev[HEAD];
      ghost var k := NBUF;
      NonePinned(buf, order);
      while b != HEAD
        invariant 0 <= k <= NBUF && b == InRing(order, k) && PinnedFrom(buf, order, k)
        decreases k
      {
        Before(next, prev, order, k - 1);
        if !buf[b].busy && !buf[b].dirty {
          IsVictim(buf, order, k - 1);
          return;
        }
        OnePinned(buf, order, k - 1);
        b := prev[b];
        k := k - 1;
      }
      Before(next, prev, order, k);
      AllPinned(buf, order);
    }

    method Bget(dev: Uint, sector: Uint) returns (r: Got)
      requires Valid() && dev == ROOTDEV
      modifies this`buf
      ensures Valid()
      ensures r.Buffer? ==> r.b < NBUF && Granted(old(buf), buf, order, r.b, dev, sector)
      ensures r.Wait? ==> CachedAt(buf, r.b, dev, sector) && buf[r.b].busy && buf == old(buf)
      ensures r.NoBuffers? ==> buf == old(buf) && !Cached(buf, dev, sector) && forall i :: 0 <= i < NBUF ==>
        Pinned(buf[i])
    {
      hide Ring, Dirty;
      // Is the sector already cached?
      var b := Lookup(dev, sector);
      if b != HEAD {
        if buf[b].busy {
          return Wait(b);
        }
        buf := buf[b := buf[b].(busy := true)];
        DirtyKept(old(buf), buf, b);
        return Buffer(b);
      }
      // Not cached; recycle some non-busy and clean buffer.
      b := Recyclable();
      if b == HEAD {
        return NoBuffers;
      }
      buf := buf[b := Buf(true, false, false, dev, sector, buf[b].data)];
      forall j | 0 <= j < NBUF && j != b ensures buf[j].dev == dev ==> buf[j].sector != sector {
        assert !CachedAt(old(buf), j, dev, sector);
      }
      DirtyKept(old(buf), buf, b);
      return Buffer(b);
    }

    /** memiderw: sync a busy buffer with the disk; the requires are its four panics. */
    method Memiderw(b: nat)
      requires Valid() && b < NBUF
      requires buf[b].busy
      requires !buf[b].valid || buf[b].dirty
      requires buf[b].dev == ROOTDEV
      requires buf[b].sector < |disk|
      requires buf[b].dirty ==> buf[b].data == latest[buf[b].sector]
      modifies this`buf, this`disk, this`trace
      ensures Valid()
      ensures old(buf[b].dirty) ==>
                && disk == old(disk)[old(buf)[b].sector := old(buf)[b].data]
                && trace == old(trace) + [Write(old(buf)[b].sector, old(buf)[b].data)]
                && buf == old(buf)[b := old(buf)[b].(dirty := false, valid := true)]
      ensures !old(buf[b].dirty) ==>
                && disk == old(disk) && trace == old(trace)
                && buf == old(buf)[b := old(buf)[b].(valid := true, data := disk[old(buf)[b].sector])]
    {
      hide Ring, Dirty;
      var s := buf[b].sector;
      if buf[b].dirty {
        buf := buf[b := buf[b].(dirty := false)];
        disk := disk[s := buf[b].data];
        trace := trace + [Write(s, buf[b].data)];
        DirtyCleared(old(buf), b);
      } else {
        buf := buf[b := buf[b].(data := disk[s])];
      }
      ghost var was := buf;
      buf := buf[b := buf[b].(valid := true)];
      DirtyKept(was, buf, b);
      if !old(buf[b].dirty) { DirtyKept(old(buf), was, b); }
    }

    /** A read gives the data last stored for the sector, whatever was cached, evicted or written in between. */
    method Bread(dev: Uint, sector: Uint) returns (b: nat)
      requires Valid() && dev == ROOTDEV && sector < |disk|
      requires sector !in Held(buf)
      requires Cached(buf, dev, sector) || |Held(buf) + Dirty(buf)| < NBUF
      modifies this`buf, this`disk, this`trace
      ensures Valid() && disk == old(disk) && trace == old(trace)
      ensures b < NBUF && !old(buf)[b].busy
      ensures buf == old(buf)[b := buf[b]]
      ensures buf[b].busy && buf[b].valid && CachedAt(buf, b, dev, sector)
      ensures buf[b].data == latest[sector]
      ensures Held(buf) == Held(old(buf)) + {sector} && Dirty(buf) == Dirty(old(buf))
    {
      hide Ring, Unique, Coherent, Held, Dirty, Cached, Victim, Granted;
      RoomToRead(buf, disk, latest, dev, sector);
      var r := Bget(dev, sector);
      b := r.b;
      ReadGrant(old(buf), buf, order, b, dev, sector, disk, latest);
      if !buf[b].valid {
        ghost var was := buf;
        Memiderw(b);
        DirtyKept(was, buf, b);
        HeldKept(was, buf, b);
      }
    }

    /** The holder of a buffer changes its data in place. */
    method Store(b: nat, data: Block)
      requires Valid() && b < NBUF && buf[b].busy
      modifies this`buf
      ensures Valid()
      ensures buf == old(buf)[b := old(buf)[b].(data := data)]
      ensures Held(buf) == Held(old(buf)) && Dirty(buf) == Dirty(old(buf))
    {
      buf := buf[b := buf[b].(data := data)];
      DirtyKept(old(buf), buf, b);
      HeldKept(old(buf), buf, b);
    }

    /** The last line of log_write: keep the data in memory only, safe from eviction. */
    method MarkDirty(b: nat)
      requires Valid() && b < NBUF && buf[b].busy && buf[b].valid
      modifies this`buf, this`latest
      ensures Valid()
      ensures buf == old(buf)[b := old(buf)[b].(dirty := true)]
      ensures latest == old(latest)[buf[b].sector := buf[b].data]
      ensures Held(buf) == Held(old(buf)) && Dirty(buf) == Dirty(old(buf)) + {buf[b].sector}
    {
      buf := buf[b := buf[b].(dirty := true)];
      latest := latest[buf[b].sector := buf[b].data];
      DirtyAdded(old(buf), b);
      HeldKept(old(buf), buf, b);
    }

    /** Write a buffer obtained from bread through to the disk. */
    method Bwrite(b: nat)
      requires Valid() && b < NBUF
      requires buf[b].busy
      requires buf[b].valid
      modifies this`buf, this`latest, this`disk, this`trace
      ensures Valid()
      ensures buf == old(buf)[b := old(buf)[b].(dirty := false, valid := true)]
      ensures disk == old(disk)[buf[b].sector := buf[b].data]
      ensures latest == old(latest)[buf[b].sector := buf[b].data]
      ensures trace == old(trace) + [Write(buf[b].sector, buf[b].data)]
      ensures Held(buf) == Held(old(buf)) && Dirty(buf) == Dirty(old(buf)) - {buf[b].sector}
    {
      hide Ring, Dirty, Held;
      buf := buf[b := buf[b].(dirty := true)];
      latest := latest[buf[b].sector := buf[b].data];
      DirtyAdded(old(buf), b);
      HeldKept(old(buf), buf, b);
      ghost var was := buf;
      Memiderw(b);
      DirtyCleared(was, b);
      DirtyKept(was[b := was[b].(dirty := false)], buf, b);
      HeldKept(was, buf, b);
    }

    /** memmove into a held buffer, then bwrite, as log.c does with log, header and home blocks. */
    method Overwrite(b: nat, data: Block)
      requires Valid() && b < NBUF && buf[b].busy && buf[b].valid
      modifies this`buf, this`latest, this`disk, this`trace
      ensures Valid()
      ensures buf == old(buf)[b := old(buf)[b].(dirty := false, data := data)]
      ensures disk == old(disk)[buf[b].sector := data]
      ensures latest == old(latest)[buf[b].sector := data]
      ensures trace == old(trace) + [Write(buf[b].sector, data)]
      ensures Held(buf) == Held(old(buf)) && Dirty(buf) == Dirty(old(buf)) - {buf[b].sector}
    {
      hide Ring, Dirty, Held;
      Store(b, data);
      Bwrite(b);
    }

    /** Release a buffer whose data has been stored; it becomes the most recently used. */
    method Brelse(b: nat)
      requires Valid() && b < NBUF
      requires buf[b].busy
      requires buf[b].valid ==> buf[b].data == latest[buf[b].sector]
      modifies this`buf, this`next, this`prev, this`order
      ensures Valid()
      ensures buf == old(buf)[b := old(buf)[b].(busy := false)]
      ensures exists k ::
        0 <= k < |old(order)| && old(order)[k] == b && order == [b] + old(order)[..k] + old(order)[k + 1..]
      ensures Held(buf) == Held(old(buf)) - {buf[b].sector} && Dirty(buf) == Dirty(old(buf))
    {
      hide Dirty, Held;
      RingMoveToFront(next, prev, order, b);
      prev := prev[next[b] := prev[b]];
      next := next[prev[b] := next[b]];
      next := next[b := next[HEAD]];
      prev := prev[b := HEAD];
      prev := prev[next[HEAD] := b];
      next := next[HEAD := b];
      order := MovedToFront(order, b);
      buf := buf[b := buf[b].(busy := false)];
      DirtyKept(old(buf), buf, b);
      HeldRemoved(old(buf), b);
    }
  }

  /** A sector nobody holds is read without waiting, and with room left there is a buffer for it. */
  lemma RoomToRead(buf: seq<Buf>, disk: Disk, latest: Disk, dev: Uint, sector: Uint)
    requires |buf| == NBUF && Unique(buf) && Coherent(buf, disk, latest) && sector !in Held(buf)
    requires Cached(buf, dev, sector) || |Held(buf) + Dirty(buf)| < NBUF
    ensures forall b :: 0 <= b < |buf| && CachedAt(buf, b, dev, sector) ==> !buf[b].busy
    ensures Cached(buf, dev, sector) || exists i :: 0 <= i < |buf| && !Pinned(buf[i])
  {
    hide Unique, Coherent, Dirty, Cached;
    if !Cached(buf, dev, sector) {
      RoomHasVictim(buf, disk, latest);
    }
  }

  /** What bget's grant gives bread: the latest data, or a clean buffer to read it into. */
  lemma ReadGrant(was: seq<Buf>, now: seq<Buf>, order: seq<nat>, b: nat, dev: Uint, sector: Uint, disk: Disk,
      latest: Disk)
    requires b < |was| && Granted(was, now, order, b, dev, sector) && dev == ROOTDEV && sector < |disk|
    requires Unique(was) && Coherent(was, disk, latest) && Coherent(now, disk, latest)
    ensures |now| == |was| && !was[b].busy && now == was[b := now[b]] && now[b].busy && CachedAt(now, b, dev, sector)
    ensures Held(now) == Held(was) + {sector} && Dirty(now) == Dirty(was)
    ensures now[b].valid ==> now[b].data == latest[sector]
    ensures !now[b].valid ==> !now[b].dirty && disk[sector] == latest[sector]
  {
    hide Held;
    HeldAdded(was, now, b);
    GrantClean(was, now, order, b, dev, sector);
    DirtyKept(was, now, b);
    if !now[b].valid {
      NotDirty(was, now, order, b, dev, sector);
    }
  }

  lemma GrantClean(was: seq<Buf>, now: seq<Buf>, order: seq<nat>, b: nat, dev: Uint, sector: Uint)
    requires b < |was| && Granted(was, now, order, b, dev, sector)
    ensures now[b].dirty == was[b].dirty && (was[b].dirty ==> now[b].sector == was[b].sector)
  {
  }

  lemma NotDirty(was: seq<Buf>, now: seq<Buf>, order: seq<nat>, b: nat, dev: Uint, sector: Uint)
    requires b < |was| && Granted(was, now, order, b, dev, sector) && !now[b].valid && dev == ROOTDEV
    requires forall i :: 0 <= i < |was| && was[i].dirty ==> was[i].valid && was[i].dev == ROOTDEV
    requires CachedAt(was, b, dev, sector) ==> forall i :: 0 <= i < |was| && i != b && was[i].dev == dev ==>
      was[i].sector != sector
    ensures sector !in Dirty(was)
  {
    forall i | 0 <= i < |was| && was[i].dirty ensures was[i].sector != sector {
      assert !CachedAt(was, b, dev, sector) ==> !CachedAt(was, i, dev, sector);
    }
  }

  /** Changing a buffer without touching its dirty bit, or recycling a clean one, keeps the set of dirty sectors. */
  lemma DirtyKept(was: seq<Buf>, now: seq<Buf>, b: nat)
    requires |was| == |now| && b < |was| && now == was[b := now[b]]
    requires now[b].dirty == was[b].dirty && (was[b].dirty ==> now[b].sector == was[b].sector)
    ensures Dirty(now) == Dirty(was)
  {
    forall s ensures s in Dirty(now) <==> s in Dirty(was) {
      if s in Dirty(was) {
        var i :| 0 <= i < |was| && was[i].dirty && was[i].sector == s;
        assert now[i].dirty && now[i].sector == s;
      }
      if s in Dirty(now) {
        var i :| 0 <= i < |now| && now[i].dirty && now[i].sector == s;
        assert was[i].dirty && was[i].sector == s;
      }
    }
  }

  lemma DirtyCleared(was: seq<Buf>, b: nat)
    requires b < |was| && Unique(was) && was[b].dirty
    requires forall i :: 0 <= i < |was| && was[i].dirty ==> was[i].dev == ROOTDEV
    ensures Dirty(was[b := was[b].(dirty := false)]) == Dirty(was) - {was[b].sector}
  {
    var now := was[b := was[b].(dirty := false)];
    forall s ensures s in Dirty(now) <==> s in Dirty(was) && s != was[b].sector {
      if s in Dirty(was) && s != was[b].sector {
        var i :| 0 <= i < |was| && was[i].dirty && was[i].sector == s;
        assert now[i].dirty && now[i].sector == s;
      }
    }
  }

  lemma HeldKept(was: seq<Buf>, now: seq<Buf>, b: nat)
    requires |was| == |now| && b < |was| && now == was[b := now[b]]
    requires now[b].busy == was[b].busy && now[b].sector == was[b].sector
    ensures Held(now) == Held(was)
  {
    assert forall i :: 0 <= i < |was| ==> now[i].busy == was[i].busy && now[i].sector == was[i].sector;
    forall s ensures s in Held(now) <==> s in Held(was) {
      if s in Held(was) {
        var i :| 0 <= i < |was| && was[i].busy && was[i].sector == s;
        assert now[i].busy && now[i].sector == s;
      }
    }
  }

  lemma HeldAdded(was: seq<Buf>, now: seq<Buf>, b: nat)
    requires |was| == |now| && b < |was| && now == was[b := now[b]]
    requires now[b].busy && !was[b].busy
    ensures Held(now) == Held(was) + {now[b].sector}
  {
    forall s ensures s in Held(now) <==> s in Held(was) || s == now[b].sector {
      if s in Held(was) {
        var i :| 0 <= i < |was| && was[i].busy && was[i].sector == s;
        assert now[i].busy && now[i].sector == s;
      }
      assert now[b].busy;
    }
  }

  lemma DirtyAdded(was: seq<Buf>, b: nat)
    requires b < |was|
    ensures Dirty(was[b := was[b].(dirty := true)]) == Dirty(was) + {was[b].sector}
  {
    var now := was[b := was[b].(dirty := true)];
    forall s ensures s in Dirty(now) <==> s in Dirty(was) || s == was[b].sector {
      if s in Dirty(was) {
        var i :| 0 <= i < |was| && was[i].dirty && was[i].sector == s;
        assert now[i].dirty && now[i].sector == s;
      }
      assert now[b].dirty;
    }
  }

  lemma HeldRemoved(was: seq<Buf>, b: nat)
    requires b < |was| && Unique(was) && was[b].busy
    requires forall i :: 0 <= i < |was| && was[i].busy ==> was[i].dev == ROOTDEV
    ensures Held(was[b := was[b].(busy := false)]) == Held(was) - {was[b].sector}
  {
    var now := was[b := was[b].(busy := false)];
    forall s ensures s in Held(now) <==> s in Held(was) && s != was[b].sector {
      if s in Held(was) && s != was[b].sector {
        var i :| 0 <= i < |was| && was[i].busy && was[i].sector == s;
        assert now[i].busy && now[i].sector == s;
      }
    }
  }
}

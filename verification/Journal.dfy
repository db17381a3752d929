/** log.c as code over the buffer cache: every sector write it issues is the one the Log module reasons about. */
module Journal {
  import opened Ints
  import opened Blocks
  import opened Bio
  import opened Log

  lemma NamedNext(q: seq<Uint>, k: nat)
    requires k < |q|
    ensures Named(q[..k + 1]) == Named(q[..k]) + {q[k]}
    ensures q[k] in Named(q)
    ensures (forall i, j :: 0 <= i < j < |q| ==> q[i] != q[j]) ==> q[k] !in Named(q[..k])
  {
  }

  /** The k-th iteration of install_trans copies the k-th log block, untouched so far, to its home sector. */
  lemma NextInstall(a: Area, d: Disk, q: seq<Uint>, k: nat)
    requires a.start + a.size <= |d| && Loggable(a, d, q) && k < |q|
    ensures Home(a, q[k]) && q[k] < |d|
    ensures var e := Apply(d, Installs(a, d, q[..k]));
      && Installs(a, d, q[..k + 1]) == Installs(a, d, q[..k]) + [Write(q[k], e[a.start + k + 1])]
      && Apply(d, Installs(a, d, q[..k + 1])) == e[q[k] := e[a.start + k + 1]]
  {
    hide Replayed, Installs, Apply;
    InstallsEffect(a, d, q[..k]);
    InstallsSnoc(a, d, q, k);
    assert !Home(a, a.start + k + 1);
    ApplySnoc(d, Installs(a, d, q[..k]), Write(q[k], d[a.start + k + 1]));
  }

  lemma InstallsSnoc(a: Area, d: Disk, q: seq<Uint>, k: nat)
    requires a.start + a.size <= |d| && |q| < a.size && k < |q|
    ensures Installs(a, d, q[..k + 1]) == Installs(a, d, q[..k]) + [Write(q[k], d[a.start + k + 1])]
  {
    assert q[..k + 1][..k] == q[..k];
  }

  /** The first k rounds of install_trans are done. */
  ghost predicate Installed(a: Area, d: Disk, q: seq<Uint>, k: nat, disk: Disk, mark: seq<Write>, trace: seq<Write>)
    requires a.start + a.size <= |d| && |q| < a.size && k <= |q|
  {
    disk == Apply(d, Installs(a, d, q[..k])) && trace == mark + Installs(a, d, q[..k])
  }

  lemma NoInstalls(a: Area, d: Disk, q: seq<Uint>, mark: seq<Write>)
    requires a.start + a.size <= |d| && |q| < a.size
    ensures Installed(a, d, q, 0, d, mark, mark) && Named(q[..0]) == {}
  {
  }

  lemma InstalledMore(a: Area, d: Disk, q: seq<Uint>, k: nat, disk: Disk, mark: seq<Write>, trace: seq<Write>)
    requires a.start + a.size <= |d| && Loggable(a, d, q) && k < |q| && Installed(a, d, q, k, disk, mark, trace)
    ensures Home(a, q[k]) && q[k] < |d| == |disk| && a.start + k + 1 < |d|
    ensures Installed(a, d, q, k + 1, disk[q[k] := disk[a.start + k + 1]], mark,
      trace + [Write(q[k], disk[a.start + k + 1])])
  {
    hide Apply, Installs;
    NextInstall(a, d, q, k);
  }

  lemma InstalledAll(a: Area, d: Disk, q: seq<Uint>, disk: Disk, mark: seq<Write>, trace: seq<Write>)
    requires a.start + a.size <= |d| && |q| < a.size && Installed(a, d, q, |q|, disk, mark, trace)
    ensures disk == Apply(d, Installs(a, d, q)) && trace == mark + Installs(a, d, q) && q[..|q|] == q
  {
    assert q[..|q|] == q;
  }

  /** The two phases of recovery, and the empty log it leaves. */
  lemma RecoverySteps(a: Area, d: Disk)
    requires WellFormed(a, d)
    ensures var e := Apply(d, Installs(a, d, Head(d[a.start])));
      && |e| == |d| && e[a.start] == d[a.start]
      && Apply(d, RecoverTrace(a, d)) == e[a.start := PutHead(d[a.start], [])]
      && WellFormed(a, Apply(d, RecoverTrace(a, d))) && Word(Apply(d, RecoverTrace(a, d))[a.start], 0) == 0
  {
    var q := Head(d[a.start]);
    var t := RecoverTrace(a, d);
    assert q[..|q|] == q && t[..|t| - 1] == Installs(a, d, q) && t[..|t|] == t;
    InstallsKeep(a, d, |q|);
    RecoveryKeeps(a, d, |t|);
  }

  lemma DirtyIsCached(bc: BufferCache, s: Uint)
    requires bc.Valid() && s in Dirty(bc.buf)
    ensures Cached(bc.buf, ROOTDEV, s) && s < |bc.disk|
  {
    var i :| 0 <= i < |bc.buf| && bc.buf[i].dirty && bc.buf[i].sector == s;
    assert CachedAt(bc.buf, i, ROOTDEV, s);
  }

  /** Buffers that somebody holds are as they were. */
  ghost predicate Untouched(was: seq<Buf>, now: seq<Buf>) {
    |now| == |was| && forall i :: 0 <= i < |was| && was[i].busy ==> now[i] == was[i]
  }

  lemma UntouchedRefl(a: seq<Buf>)
    ensures Untouched(a, a)
  {
  }

  lemma UntouchedTrans(a: seq<Buf>, b: seq<Buf>, c: seq<Buf>)
    requires Untouched(a, b) && Untouched(b, c)
    ensures Untouched(a, c)
  {
  }

  lemma OneMoreHeld(h: set<nat>, d: set<nat>, s: nat)
    ensures |h + {s} + d| <= |h + d| + 1
  {
    assert h + {s} + d == (h + d) + {s};
  }

  lemma FewerHeld(h: set<nat>, d: set<nat>, e: set<nat>)
    requires e <= d
    ensures |h + e| <= |h + d|
  {
    assert h + d == (h + e) + (d - (h + e));
  }

  lemma LogBlockIsNotHome(a: Area, k: nat)
    requires k + 1 < a.size
    ensures !Home(a, a.start + k + 1)
  {
  }

  /** Nobody holds a log block or a sector of q; nothing is dirty, or exactly the distinct sectors of q are; there is
      room. */
  ghost predicate CanInstall(a: Area, q: seq<Uint>, held: set<nat>, dirty: set<nat>) {
    && (forall s :: s in held ==> Home(a, s) && s !in Named(q)) && (forall s :: s in dirty ==> Home(a, s))
    && (dirty == {} || (dirty == Named(q) && forall i, j :: 0 <= i < j < |q| ==> q[i] != q[j]))
    && |held + dirty| < if dirty == {} then NBUF - 1 else NBUF
  }

  lemma NothingLeft(a: Area, q: seq<Uint>, held: set<nat>, dirty: set<nat>)
    requires CanInstall(a, q, held, dirty)
    ensures dirty - Named(q) == {}
  {
  }

  /** The two sectors of the k-th round of install_trans can be had: nobody holds them, and there is a buffer for
      each. */
  lemma NextTarget(a: Area, q: seq<Uint>, k: nat, held: set<nat>, was: set<nat>, dirty: set<nat>)
    requires k < |q| < a.size && dirty == was - Named(q[..k]) && CanInstall(a, q, held, was)
    ensures q[k] !in held && a.start + k + 1 !in held && a.start + k + 1 !in dirty
    ensures |held + dirty| < if q[k] in dirty then NBUF else NBUF - 1
    ensures dirty - {q[k]} == was - Named(q[..k + 1])
  {
    hide Named, Home;
    NamedNext(q, k);
    FewerHeld(held, was, dirty);
    LogBlockIsNotHome(a, k);
  }

  /** Header, disk, dirty buffers and trace are what the run ws of log_writes on the disk `base` makes of them. */
  ghost predicate InStep(a: Area, base: Disk, mark: seq<Write>, ws: seq<Write>, n: nat, sector: seq<Uint>,
                         disk: Disk, latest: Disk, trace: seq<Write>, dirty: set<nat>)
  {
    && |sector| == LOGSIZE && n <= LOGSIZE && n < a.size
    && WellFormed(a, base) && Word(base[a.start], 0) == 0 && Fits(a, base, ws)
    && sector[..n] == Slots(ws)
    && disk == Apply(base, LogBlocks(a, ws)) && trace == mark + LogBlocks(a, ws)
    && dirty == Named(Slots(ws))
    && |latest| == |base| && forall s :: 0 <= s < |base| && Home(a, s) ==> latest[s] == Apply(base, ws)[s]
  }

  lemma Bounds(a: Area, d: Disk, ws: seq<Write>)
    requires Fits(a, d, ws)
    ensures a.start + a.size <= |d| && |Slots(ws)| <= LOGSIZE && |Slots(ws)| < a.size
  {
  }

  lemma Header(a: Area, base: Disk, mark: seq<Write>, ws: seq<Write>, n: nat, sector: seq<Uint>,
               disk: Disk, latest: Disk, trace: seq<Write>, dirty: set<nat>)
    requires InStep(a, base, mark, ws, n, sector, disk, latest, trace, dirty)
    ensures |sector| == LOGSIZE && n <= LOGSIZE && n < a.size && sector[..n] == Slots(ws) && n == |Slots(ws)|
    ensures dirty == Named(Slots(ws))
  {
  }

  predicate IsLogBlock(a: Area, s: nat) { a.start < s < a.start + a.size }

  lemma LogBlocksFree(a: Area, base: Disk, mark: seq<Write>, ws: seq<Write>, n: nat, sector: seq<Uint>,
                      disk: Disk, latest: Disk, trace: seq<Write>, dirty: set<nat>)
    requires InStep(a, base, mark, ws, n, sector, disk, latest, trace, dirty)
    ensures a.start + a.size <= |disk| && forall s :: s in dirty ==> !IsLogBlock(a, s)
  {
    hide Slots, LogBlocks;
    HeadedLog(a, base, ws);
  }

  /** One more log_write keeps everything in step. */
  lemma StaysInStep(a: Area, base: Disk, mark: seq<Write>, ws: seq<Write>, n: nat, sector: seq<Uint>,
                    disk: Disk, latest: Disk, trace: seq<Write>, dirty: set<nat>, s: Uint, data: Block)
    requires InStep(a, base, mark, ws, n, sector, disk, latest, trace, dirty) && n < LOGSIZE && n < a.size - 1
    requires Home(a, s) && s < |disk|
    ensures var i := SlotOf(Slots(ws), s);
      && i <= n && a.start + i + 1 < |disk| && a.start + i + 1 < UINT && !Home(a, a.start + i + 1)
      && a.start + i + 1 !in dirty
      && |disk| == |latest|
      && InStep(a, base, mark, ws + [Write(s, data)], if i == n then n + 1
        else n, sector[i := s], disk[a.start + i + 1 := data],
                latest[a.start + i + 1 := data][s := data], trace + [Write(a.start + i + 1, data)], dirty + {s})
  {
    hide Apply, LogBlocks, Slots, SlotOf, Named, WellFormed, Loggable;
    Bounds(a, base, ws);
    FitsSnoc(a, base, ws, Write(s, data));
    OneMoreLogged(a, base, ws, Write(s, data));
    SectorStored(sector, n, Slots(ws), SlotOf(Slots(ws), s), s);
  }

  lemma SectorStored(sector: seq<Uint>, n: nat, q: seq<Uint>, i: nat, s: Uint)
    requires n < |sector| && q == sector[..n] && i <= n && (i < n ==> q[i] == s)
    ensures sector[i := s][..if i == n then n + 1 else n] == if i < |q| then q else q + [s]
  {
  }

  class Journal {
    const a: Area
    const bc: BufferCache
    var busy: bool
    var n: nat                  // log.lh.n
    var sector: seq<Uint>       // log.lh.sector
    ghost var base: Disk        // the disk when the current transaction began
    ghost var mark: seq<Write>  // the sector writes issued before it
    ghost var ws: seq<Write>    // its log_writes so far

    ghost predicate Valid()
      reads this, bc
    {
      && bc.Valid()
      && InStep(a, base, mark, ws, n, sector, bc.disk, bc.latest, bc.trace, Dirty(bc.buf))
      && (!busy ==> ws == [])
    }

    /** The bounds every routine below needs before it touches the log area. */
    ghost predicate Ready()
      reads this, bc
    {
      && bc.Valid()
      && a.size >= 1 && a.start + a.size <= |bc.disk|
      && |sector| == LOGSIZE && n <= LOGSIZE && n < a.size
      && (forall s :: s in Dirty(bc.buf) ==> Home(a, s))
    }

    /** The body of install_trans's loop. */
    method InstallBlock(from: Uint, to: Uint)
      requires bc.Valid() && from < |bc.disk| && to < |bc.disk| && from != to
      requires from !in Held(bc.buf) && to !in Held(bc.buf) && from !in Dirty(bc.buf)
      requires |Held(bc.buf) + Dirty(bc.buf)| < if to in Dirty(bc.buf) then NBUF else NBUF - 1
      modifies bc
      ensures bc.Valid() && Held(bc.buf) == Held(old(bc.buf)) && Untouched(old(bc.buf), bc.buf)
      ensures Dirty(bc.buf) == Dirty(old(bc.buf)) - {to}
      ensures bc.disk == old(bc.disk)[to := old(bc.disk)[from]]
      ensures bc.trace == old(bc.trace) + [Write(to, old(bc.disk)[from])]
    {
      hide BufferCache.Valid, Held, Dirty, Cached;
      bc.CleanSectorsOnDisk();
      OneMoreHeld(Held(bc.buf), Dirty(bc.buf), from);
      var lbuf := bc.Bread(ROOTDEV, from);
      if to in Dirty(bc.buf) {
        DirtyIsCached(bc, to);
      }
      var dbuf := bc.Bread(ROOTDEV, to);
      assert lbuf != dbuf;
      bc.Overwrite(dbuf, bc.buf[lbuf].data);
      bc.Brelse(lbuf);
      bc.Brelse(dbuf);
    }

    /** install_trans for the in-memory header q. */
    method InstallTrans(ghost q: seq<Uint>)
      requires Ready() && q == sector[..n] && Loggable(a, bc.disk, q)
      requires CanInstall(a, q, Held(bc.buf), Dirty(bc.buf))
      modifies bc
      ensures bc.Valid() && Held(bc.buf) == Held(old(bc.buf)) && Untouched(old(bc.buf), bc.buf) && Dirty(bc.buf) == {}
      ensures bc.disk == Apply(old(bc.disk), Installs(a, old(bc.disk), q))
      ensures bc.trace == old(bc.trace) + Installs(a, old(bc.disk), q)
    {
      hide BufferCache.Valid, Held, Dirty, Apply, Installs, Named, Replayed, Untouched, Loggable, Home, Installed,
        CanInstall;
      ghost var d := bc.disk;
      NoInstalls(a, d, q, bc.trace);
      UntouchedRefl(bc.buf);
      var tail := 0;
      while tail < n
        invariant 0 <= tail <= n
        invariant bc.Valid() && Held(bc.buf) == Held(old(bc.buf)) && Untouched(old(bc.buf), bc.buf)
        invariant Installed(a, d, q, tail, bc.disk, old(bc.trace), bc.trace)
        invariant Dirty(bc.buf) == old(Dirty(bc.buf)) - Named(q[..tail])
      {
        InstalledMore(a, d, q, tail, bc.disk, old(bc.trace), bc.trace);
        LogBlockIsNotHome(a, tail);
        NextTarget(a, q, tail, Held(bc.buf), Dirty(old(bc.buf)), Dirty(bc.buf));
        ghost var was := bc.buf;
        InstallBlock(a.start + tail + 1, sector[tail]);
        UntouchedTrans(old(bc.buf), was, bc.buf);
        tail := tail + 1;
      }
      InstalledAll(a, d, q, bc.disk, old(bc.trace), bc.trace);
      NothingLeft(a, q, Held(old(bc.buf)), Dirty(old(bc.buf)));
    }

    method ReadHead()
      requires bc.Valid() && a.size >= 1 && a.start + a.size <= |bc.disk| && |sector| == LOGSIZE
      requires Word(bc.disk[a.start], 0) <= LOGSIZE
      requires Held(bc.buf) == {} && Dirty(bc.buf) == {}
      modifies this`n, this`sector, bc
      ensures bc.Valid() && Held(bc.buf) == {} && Dirty(bc.buf) == {}
      ensures bc.disk == old(bc.disk) && bc.trace == old(bc.trace)
      ensures |sector| == LOGSIZE && n <= LOGSIZE && sector[..n] == Head(bc.disk[a.start])
    {
      hide BufferCache.Valid, Held, Dirty, Word;
      bc.CleanSectorsOnDisk();
      var b := bc.Bread(ROOTDEV, a.start);
      var lh := bc.buf[b].data;
      n := Word(lh, 0);
      var i := 0;
      while i < n
        invariant 0 <= i <= n <= LOGSIZE == |sector|
        invariant forall j :: 0 <= j < i ==> sector[j] == Word(lh, j + 1)
        modifies this`sector
      {
        sector := sector[i := Word(lh, i + 1)];
        i := i + 1;
      }
      bc.Brelse(b);
    }

    /** write_head, on the header block as the cache has it. */
    method PutHeader()
      requires bc.Valid() && a.size >= 1 && a.start + a.size <= |bc.disk| && |sector| == LOGSIZE && n <= LOGSIZE
      requires a.start !in Held(bc.buf) && (a.start in Dirty(bc.buf) || |Held(bc.buf) + Dirty(bc.buf)| < NBUF)
      modifies bc
      ensures bc.Valid() && Held(bc.buf) == Held(old(bc.buf)) && Untouched(old(bc.buf), bc.buf)
      ensures Dirty(bc.buf) == Dirty(old(bc.buf)) - {a.start}
      ensures |old(bc.latest)| == |old(bc.disk)|
      ensures bc.disk == old(bc.disk)[a.start := PutHead(old(bc.latest)[a.start], sector[..n])]
      ensures bc.latest == old(bc.latest)[a.start := bc.disk[a.start]]
      ensures bc.trace == old(bc.trace) + [Write(a.start, bc.disk[a.start])]
    {
      hide BufferCache.Valid, Held, Dirty, PutWord, Cached;
      bc.CleanSectorsOnDisk();
      if a.start in Dirty(bc.buf) {
        DirtyIsCached(bc, a.start);
      }
      var b := bc.Bread(ROOTDEV, a.start);
      var q := sector[..n];
      ghost var h0 := PutWord(bc.buf[b].data, 0, n);
      var hb := PutWord(bc.buf[b].data, 0, n);
      var i := 0;
      while i < n
        invariant 0 <= i <= n
        invariant hb == PutSectors(h0, q, i)
      {
        hb := PutWord(hb, i + 1, q[i]);
        i := i + 1;
      }
      bc.Overwrite(b, hb);
      bc.Brelse(b);
    }

    /** The same when the header is not itself in the log. */
    method WriteHead()
      requires Ready() && a.start !in Held(bc.buf) && |Held(bc.buf) + Dirty(bc.buf)| < NBUF
      modifies bc
      ensures bc.Valid() && Held(bc.buf) == Held(old(bc.buf)) && Untouched(old(bc.buf), bc.buf) &&
        Dirty(bc.buf) == Dirty(old(bc.buf))
      ensures bc.disk == old(bc.disk)[a.start := PutHead(old(bc.disk)[a.start], sector[..n])]
      ensures bc.latest == old(bc.latest)[a.start := bc.disk[a.start]]
      ensures bc.trace == old(bc.trace) + [Write(a.start, bc.disk[a.start])]
    {
      hide BufferCache.Valid, Held, Dirty, PutHead, Untouched;
      bc.CleanSectorsOnDisk();
      PutHeader();
    }

    /** Recovery issues exactly the writes of RecoverTrace, for whatever well-formed log it finds. */
    method RecoverFromLog()
      requires bc.Valid() && WellFormed(a, bc.disk) && |sector| == LOGSIZE
      requires Held(bc.buf) == {} && Dirty(bc.buf) == {}
      modifies this, bc
      ensures Valid() && Held(bc.buf) == {}
      ensures n == 0 && ws == [] && base == bc.disk && busy == old(busy)
      ensures bc.disk == Apply(old(bc.disk), RecoverTrace(a, old(bc.disk)))
      ensures bc.trace == old(bc.trace) + RecoverTrace(a, old(bc.disk))
    {
      hide BufferCache.Valid, Held, Dirty, Apply, Installs, PutHead;
      ghost var d := bc.disk;
      ReadHead();
      InstallTrans(sector[..n]);
      RecoverySteps(a, d);
      n := 0;
      assert sector[..n] == [];
      WriteHead();
      base, ws, mark := bc.disk, [], bc.trace;
      NothingLogged(a, base);
      bc.CleanSectorsOnDisk();
    }

    /** initlog, after a boot or a crash: recover, then start with an empty log. */
    constructor (bc: BufferCache, a: Area)
      requires bc.Valid() && WellFormed(a, bc.disk)
      requires Held(bc.buf) == {} && Dirty(bc.buf) == {}
      modifies bc
      ensures Valid() && Held(bc.buf) == {} && this.a == a && this.bc == bc
      ensures !busy && n == 0 && ws == [] && base == bc.disk
      ensures bc.disk == Apply(old(bc.disk), RecoverTrace(a, old(bc.disk)))
      ensures bc.trace == old(bc.trace) + RecoverTrace(a, old(bc.disk))
    {
      this.bc, this.a, busy, n, sector := bc, a, false, 0, seq(LOGSIZE, _ => 0);
      new;
      RecoverFromLog();
    }

    /** begin_trans once no transaction is active (while one is, the caller sleeps). */
    method BeginTrans()
      requires Valid() && !busy
      modifies this`busy, this`base, this`ws, this`mark
      ensures Valid() && busy && ws == [] && base == bc.disk && mark == bc.trace
    {
      busy := true;
    }

    /** log_write's search for an earlier write to absorb. */
    method FindSlot(ghost q: seq<Uint>, s: Uint) returns (i: nat)
      requires |sector| == LOGSIZE && n <= LOGSIZE && q == sector[..n]
      ensures i == SlotOf(q, s)
    {
      i := 0;
      while i < n && sector[i] != s
        invariant 0 <= i <= n
        invariant forall j :: 0 <= j < i ==> q[j] != s
      {
        i := i + 1;
      }
      SlotOfUnique(q, s, i);
    }

    /** The block copy in log_write: write the data through to a log block, keep the buffer itself dirty. */
    method CopyToLog(b: nat, slot: Uint)
      requires bc.Valid() && b < NBUF && bc.buf[b].busy && bc.buf[b].valid
      requires slot < |bc.disk| && slot !in Held(bc.buf) && slot !in Dirty(bc.buf) && slot != bc.buf[b].sector
      requires |Held(bc.buf) + Dirty(bc.buf)| < NBUF
      modifies bc
      ensures bc.Valid() && Held(bc.buf) == Held(old(bc.buf)) &&
        Dirty(bc.buf) == Dirty(old(bc.buf)) + {old(bc.buf)[b].sector}
      ensures bc.buf[b] == old(bc.buf)[b].(dirty := true)
      ensures forall i :: 0 <= i < NBUF && old(bc.buf)[i].busy && i != b ==> bc.buf[i] == old(bc.buf)[i]
      ensures bc.disk == old(bc.disk)[slot := old(bc.buf)[b].data]
      ensures bc.latest == old(bc.latest)[slot := old(bc.buf)[b].data][old(bc.buf)[b].sector := old(bc.buf)[b].data]
      ensures bc.trace == old(bc.trace) + [Write(slot, old(bc.buf)[b].data)]
    {
      hide BufferCache.Valid, Held, Dirty, Cached;
      bc.CleanSectorsOnDisk();
      var lbuf := bc.Bread(ROOTDEV, slot);
      assert lbuf != b;
      bc.Overwrite(lbuf, bc.buf[b].data);
      bc.Brelse(lbuf);
      bc.MarkDirty(b);
    }

    /** log_write, for any sector but a log block; the requires on n and busy are its panics. */
    method LogSector(b: nat) returns (i: nat)
      requires bc.Valid() && b < NBUF && bc.buf[b].busy && bc.buf[b].valid && a.start + a.size <= |bc.disk|
      requires |sector| == LOGSIZE && n < LOGSIZE && n < a.size - 1
      requires busy
      requires forall s :: s in Held(bc.buf) || s in Dirty(bc.buf) || s == bc.buf[b].sector ==> !IsLogBlock(a, s)
      requires |Held(bc.buf) + Dirty(bc.buf)| < NBUF
      modifies this`n, this`sector, bc
      ensures i == SlotOf(old(sector)[..old(n)], old(bc.buf)[b].sector) <= old(n) < LOGSIZE
      ensures n == (if i == old(n) then old(n) + 1 else old(n)) && sector == old(sector)[i := old(bc.buf)[b].sector]
      ensures bc.Valid() && Held(bc.buf) == Held(old(bc.buf))
      ensures Dirty(bc.buf) == Dirty(old(bc.buf)) + {old(bc.buf)[b].sector}
      ensures |old(bc.latest)| == |old(bc.disk)| && old(bc.buf)[b].sector < |old(bc.disk)|
      ensures a.start + i + 1 < |old(bc.disk)| && bc.disk == old(bc.disk)[a.start + i + 1 := old(bc.buf)[b].data]
      ensures bc.latest ==
                old(bc.latest)[a.start + i + 1 := old(bc.buf)[b].data][old(bc.buf)[b].sector := old(bc.buf)[b].data]
      ensures bc.trace == old(bc.trace) + [Write(a.start + i + 1, old(bc.buf)[b].data)]
      ensures b < NBUF && bc.buf[b] == old(bc.buf)[b].(dirty := true)
      ensures forall i :: 0 <= i < NBUF && old(bc.buf)[i].busy && i != b ==> bc.buf[i] == old(bc.buf)[i]
    {
      hide BufferCache.Valid, Held, Dirty, SlotOf;
      bc.CleanSectorsOnDisk();
      bc.HeldInRange(b);
      var s := bc.buf[b].sector;
      i := FindSlot(sector[..n], s);
      assert IsLogBlock(a, a.start + i + 1);
      sector := sector[i := s];
      CopyToLog(b, a.start + i + 1);
      if i == n {
        n := n + 1;
      }
    }

    /** log_write appends one write to the transaction. */
    method LogWrite(b: nat)
      requires Valid() && b < NBUF && bc.buf[b].busy && bc.buf[b].valid
      requires n < LOGSIZE && n < a.size - 1
      requires busy
      requires Home(a, bc.buf[b].sector)
      requires forall s :: s in Held(bc.buf) ==> Home(a, s)
      requires |Held(bc.buf) + Dirty(bc.buf)| < NBUF
      modifies this`n, this`sector, this`ws, bc
      ensures Valid() && busy
      ensures ws == old(ws) + [Write(old(bc.buf)[b].sector, old(bc.buf)[b].data)]
      ensures b < NBUF && bc.buf[b] == old(bc.buf)[b].(dirty := true)
      ensures forall i :: 0 <= i < NBUF && old(bc.buf)[i].busy && i != b ==> bc.buf[i] == old(bc.buf)[i]
      ensures Held(bc.buf) == Held(old(bc.buf))
    {
      hide BufferCache.Valid, Held, Dirty, Slots, SlotOf, InStep;
      var s, data := bc.buf[b].sector, bc.buf[b].data;
      bc.HeldInRange(b);
      StaysInStep(a, base, mark, ws, n, sector, bc.disk, bc.latest, bc.trace, Dirty(bc.buf), s, data);
      Header(a, base, mark, ws, n, sector, bc.disk, bc.latest, bc.trace, Dirty(bc.buf));
      LogBlocksFree(a, base, mark, ws, n, sector, bc.disk, bc.latest, bc.trace, Dirty(bc.buf));
      var i := LogSector(b);
      ws := ws + [Write(s, data)];
    }

    /** commit_trans with something to commit: the header, the installs, the erased header. */
    method Flush()
      requires Valid() && n > 0 && |Held(bc.buf) + Dirty(bc.buf)| < NBUF
      requires forall s :: s in Held(bc.buf) ==> Home(a, s) && s !in Named(Slots(ws))
      modifies this`n, bc
      ensures TransOk(a, base, LogBlocks(a, ws), Slots(ws)) && n == 0
      ensures bc.Valid() && Held(bc.buf) == Held(old(bc.buf)) && Untouched(old(bc.buf), bc.buf) && Dirty(bc.buf) == {}
      ensures bc.trace == mark + TransTrace(a, base, LogBlocks(a, ws), Slots(ws))
      ensures bc.disk == Apply(base, TransTrace(a, base, LogBlocks(a, ws), Slots(ws)))
    {
      hide BufferCache.Valid, Held, Dirty, Apply, Installs, LogBlocks, Slots, Named, Loggable, WellFormed, TransTrace,
        TransOk;
      hide PutHead, Head, Untouched, Headed;
      HeadedLog(a, base, ws);
      CommitDisk(a, base, ws);
      CommitTrace(a, base, ws, mark);
      Bounds(a, base, ws);
      HeadedIs(a, base, ws);
      WriteHead();
      ghost var mid := bc.buf;
      InstallTrans(Slots(ws));
      UntouchedTrans(old(bc.buf), mid, bc.buf);
      FewerHeld(Held(bc.buf), Dirty(old(bc.buf)), Dirty(bc.buf));
      n := 0;
      assert sector[..n] == [];
      mid := bc.buf;
      WriteHead();
      UntouchedTrans(old(bc.buf), mid, bc.buf);
    }

    /** commit_trans: the writes since begin_trans are exactly the transaction trace, and the disk ends up with the
        run's contents; CrashAtomicityOfRun says what a crash anywhere inside that trace leaves. */
    method CommitTrans()
      requires Valid() && busy && |Held(bc.buf) + Dirty(bc.buf)| < NBUF
      requires forall s :: s in Held(bc.buf) ==> Home(a, s) && s !in Named(Slots(ws))
      modifies this, bc
      ensures Valid() && Held(bc.buf) == Held(old(bc.buf)) && Untouched(old(bc.buf), bc.buf)
      ensures !busy && n == 0 && ws == [] && base == bc.disk && mark == bc.trace
      ensures TransOk(a, old(base), LogBlocks(a, old(ws)), Slots(old(ws)))
      ensures bc.trace == old(mark) + Issued(a, old(base), old(ws)) &&
        bc.disk == Apply(old(base), Issued(a, old(base), old(ws)))
      ensures forall s :: 0 <= s < |old(base)| && Home(a, s) ==>
        Apply(old(base), Issued(a, old(base), old(ws)))[s] == Apply(old(base), old(ws))[s]
    {
      hide BufferCache.Valid, Held, Dirty, Apply, LogBlocks, Slots, Named, Loggable, WellFormed, TransTrace, TransOk,
        Untouched, Word;
      IssuedEffect(a, base, ws);
      Bounds(a, base, ws);
      NothingLogged(a, base);
      UntouchedRefl(bc.buf);
      if n > 0 {
        Flush();
      }
      Finish();
    }

    /** The end of commit_trans: the next transaction may begin. */
    method Finish()
      requires bc.Valid() && |sector| == LOGSIZE && n == 0 && Dirty(bc.buf) == {}
      requires WellFormed(a, bc.disk) && Word(bc.disk[a.start], 0) == 0
      modifies this`busy, this`base, this`ws, this`mark
      ensures Valid() && !busy && ws == [] && base == bc.disk && mark == bc.trace
    {
      hide BufferCache.Valid, Held, Dirty, Word;
      busy := false;
      base, ws, mark := bc.disk, [], bc.trace;
      NothingLogged(a, base);
      bc.CleanSectorsOnDisk();
      assert sector[..n] == [];
    }
  }

  /** A committed transaction leaves an empty log, and its run's contents in the home sectors. */
  lemma IssuedEffect(a: Area, d: Disk, ws: seq<Write>)
    requires WellFormed(a, d) && Word(d[a.start], 0) == 0 && Fits(a, d, ws)
    ensures TransOk(a, d, LogBlocks(a, ws), Slots(ws)) && (|Slots(ws)| == 0 <==> ws == [])
    ensures var e := Apply(d, Issued(a, d, ws));
      && WellFormed(a, e) && Word(e[a.start], 0) == 0
      && forall s :: 0 <= s < |d| && Home(a, s) ==> e[s] == Apply(d, ws)[s]
  {
    hide Apply, LogBlocks, Slots, Installs, PutHead, TransTrace, TransOk, WellFormed, Loggable;
    HeadedLog(a, d, ws);
    if ws == [] {
      NothingLogged(a, d);
    } else {
      CommitDisk(a, d, ws);
      CommitInstalled(a, d, ws);
    }
  }

  /** The disk once the header write has committed a run of log_writes. */
  ghost function Headed(a: Area, d: Disk, ws: seq<Write>): Disk
    requires Fits(a, d, ws)
  {
    var d1 := Apply(d, LogBlocks(a, ws));
    d1[a.start := PutHead(d1[a.start], Slots(ws))]
  }

  lemma HeadedLog(a: Area, d: Disk, ws: seq<Write>)
    requires WellFormed(a, d) && Word(d[a.start], 0) == 0 && Fits(a, d, ws)
    ensures TransOk(a, d, LogBlocks(a, ws), Slots(ws))
    ensures var d2 := Headed(a, d, ws);
      |d2| == |d| && WellFormed(a, d2) && Head(d2[a.start]) == Slots(ws) && Loggable(a, d2, Slots(ws))
    ensures forall i, j :: 0 <= i < j < |Slots(ws)| ==> Slots(ws)[i] != Slots(ws)[j]
    ensures forall s :: s in Named(Slots(ws)) ==> Home(a, s)
    ensures Slots(ws) == [] <==> ws == []
    ensures Named(Slots(ws)) == {} <==> ws == []
  {
    assert ws != [] ==> Slots(ws)[0] in Named(Slots(ws));
    FitsTransOk(a, d, ws);
    SlotsDistinct(ws);
    HeadRoundTrip(Apply(d, LogBlocks(a, ws))[a.start], Slots(ws));
  }

  /** The phases of a commit (header, installs, erased header) are the tail of the transaction's trace. */
  lemma CommitTraceShape(a: Area, d: Disk, ws: seq<Write>)
    requires WellFormed(a, d) && Word(d[a.start], 0) == 0 && Fits(a, d, ws)
    requires TransOk(a, d, LogBlocks(a, ws), Slots(ws))
    ensures var d2 := Headed(a, d, ws);
      TransTrace(a, d, LogBlocks(a, ws), Slots(ws)) ==
      LogBlocks(a, ws) + [Write(a.start, d2[a.start])] + Installs(a, d2, Slots(ws)) +
        [Write(a.start, PutHead(d2[a.start], []))]
  {
    hide Apply, LogBlocks, Slots, Installs, PutHead, Loggable, WellFormed;
    HeadedLog(a, d, ws);
  }

  lemma HeadedIs(a: Area, d: Disk, ws: seq<Write>)
    requires Fits(a, d, ws)
    ensures a.start < |d| && var d1 := Apply(d, LogBlocks(a, ws));
      Headed(a, d, ws) == d1[a.start := PutHead(d1[a.start], Slots(ws))]
    ensures Headed(a, d, ws)[a.start] == PutHead(Apply(d, LogBlocks(a, ws))[a.start], Slots(ws))
  {
  }

  lemma CommitTrace(a: Area, d: Disk, ws: seq<Write>, mark: seq<Write>)
    requires WellFormed(a, d) && Word(d[a.start], 0) == 0 && Fits(a, d, ws)
    requires TransOk(a, d, LogBlocks(a, ws), Slots(ws))
    ensures var d2 := Headed(a, d, ws);
      mark + LogBlocks(a, ws) + [Write(a.start, d2[a.start])] + Installs(a, d2, Slots(ws)) +
        [Write(a.start, PutHead(d2[a.start], []))]
      == mark + TransTrace(a, d, LogBlocks(a, ws), Slots(ws))
  {
    hide Apply, LogBlocks, Slots, Installs, PutHead, Loggable, WellFormed, TransTrace, TransOk, Headed;
    CommitTraceShape(a, d, ws);
  }

  /** The sector writes of a whole transaction; an empty one issues none. */
  function Issued(a: Area, d: Disk, ws: seq<Write>): seq<Write>
    requires Fits(a, d, ws) && TransOk(a, d, LogBlocks(a, ws), Slots(ws))
  {
    if ws == [] then [] else TransTrace(a, d, LogBlocks(a, ws), Slots(ws))
  }

  /** The disk a transaction's writes leave behind. */
  lemma CommitDisk(a: Area, d: Disk, ws: seq<Write>)
    requires WellFormed(a, d) && Word(d[a.start], 0) == 0 && Fits(a, d, ws)
    requires TransOk(a, d, LogBlocks(a, ws), Slots(ws))
    ensures var d2 := Headed(a, d, ws);
      var d3 := Apply(d2, Installs(a, d2, Slots(ws)));
      && a.start < |d3| && d3[a.start] == d2[a.start]
      && Apply(d, TransTrace(a, d, LogBlocks(a, ws), Slots(ws))) == d3[a.start := PutHead(d2[a.start], [])]
  {
    hide Apply, LogBlocks, Slots, Installs, PutHead, Loggable, WellFormed, TransTrace, Replayed;
    HeadedLog(a, d, ws);
    InstallsEffect(a, Headed(a, d, ws), Slots(ws));
    TransBounds(a, d, LogBlocks(a, ws), Slots(ws));
    CommitTraceShape(a, d, ws);
    var d2 := Headed(a, d, ws);
    var blocks, head, last := LogBlocks(a, ws), Write(a.start, d2[a.start]), Write(a.start, PutHead(d2[a.start], []));
    ApplySnoc(d, blocks, head);
    ApplyConcat(d, blocks + [head], Installs(a, d2, Slots(ws)));
    ApplySnoc(d, blocks + [head] + Installs(a, d2, Slots(ws)), last);
  }

  /** After the installs the home sectors have the run's contents, and the erased header leaves an empty log. */
  lemma CommitInstalled(a: Area, d: Disk, ws: seq<Write>)
    requires WellFormed(a, d) && Word(d[a.start], 0) == 0 && Fits(a, d, ws)
    ensures var d2 := Headed(a, d, ws);
      var d3 := Apply(d2, Installs(a, d2, Slots(ws)));
      && |d3| == |d| && d3[a.start] == d2[a.start]
      && (forall s :: 0 <= s < |d| && Home(a, s) ==> d3[s] == Apply(d, ws)[s])
      && WellFormed(a, d3[a.start := PutHead(d3[a.start], [])]) && Word(PutHead(d3[a.start], []), 0) == 0
  {
    hide LogBlocks, Slots, Installs, PutHead, Apply, Replayed, Fits;
    var d2 := Headed(a, d, ws);
    HeadedLog(a, d, ws);
    RecoverySteps(a, d2);
    InstallsEffect(a, d2, Slots(ws));
    forall s | 0 <= s < |d| && Home(a, s)
      ensures Replayed(a, d2, Slots(ws), s) == Apply(d, ws)[s]
    {
      HeadedReplay(a, d, ws, s);
    }
  }

  lemma HeadedReplay(a: Area, d: Disk, ws: seq<Write>, s: nat)
    requires WellFormed(a, d) && Word(d[a.start], 0) == 0 && Fits(a, d, ws) && s < |d| && Home(a, s)
    ensures Replayed(a, Headed(a, d, ws), Slots(ws), s) == Apply(d, ws)[s]
  {
    hide LogBlocks, Slots, PutHead;
    HeadedLog(a, d, ws);
    ReplayedFrame(a, Apply(d, LogBlocks(a, ws)), Headed(a, d, ws), Slots(ws), s);
    ReplayIsRun(a, d, ws, s);
  }

  lemma SlotOfUnique(q: seq<Uint>, s: nat, i: nat)
    requires i <= |q| && (forall j :: 0 <= j < i ==> q[j] != s) && (i < |q| ==> q[i] == s)
    ensures i == SlotOf(q, s)
  {
    if i > 0 { SlotOfUnique(q[1..], s, i - 1); }
  }
}

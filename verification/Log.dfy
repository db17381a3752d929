/** The redo log (kernel/log.c): one transaction at a time, crash-safe at every sector write. */
module Log {
  import opened Ints
  import opened Blocks
  import opened Bio

  const LOGSIZE: nat := 10

  /** The log area: a header block at `start`, then `size - 1` data blocks. */
  datatype Span = Span(start: nat, size: nat)
  type Area = a: Span | a.start + a.size <= UINT witness Span(0, 0)

  predicate Home(a: Area, s: nat) {
    s < a.start || a.start + a.size <= s
  }

  // ---- the header block ----

  function PutSectors(b: Block, q: seq<Uint>, k: nat): Block
    requires k <= |q| <= LOGSIZE
  {
    if k == 0 then b else PutWord(PutSectors(b, q, k - 1), k, q[k - 1])
  }

  /** The header block after write_head: the count, then the sector numbers; the rest of the block is kept. */
  function PutHead(b: Block, q: seq<Uint>): Block
    requires |q| <= LOGSIZE
  {
    PutSectors(PutWord(b, 0, |q|), q, |q|)
  }

  /** The sector numbers read_head finds. */
  function Head(b: Block): seq<Uint>
    requires Word(b, 0) <= LOGSIZE
  {
    seq(Word(b, 0), i requires 0 <= i < Word(b, 0) => Word(b, i + 1))
  }

  lemma PutSectorsWord(b: Block, q: seq<Uint>, k: nat, j: nat)
    requires k <= |q| <= LOGSIZE && j < NWORDS
    ensures Word(PutSectors(b, q, k), j) == if 1 <= j <= k then q[j - 1] else Word(b, j)
  {
    if k > 0 {
      PutSectorsWord(b, q, k - 1, j);
      WordPutWord(PutSectors(b, q, k - 1), k, q[k - 1], j);
    }
  }

  /** read_head gets back what write_head stored. */
  lemma HeadRoundTrip(b: Block, q: seq<Uint>)
    requires |q| <= LOGSIZE
    ensures Word(PutHead(b, q), 0) == |q| && Head(PutHead(b, q)) == q
  {
    forall j | 0 <= j <= |q|
      ensures Word(PutHead(b, q), j) == if j == 0 then |q| else q[j - 1]
    {
      PutSectorsWord(PutWord(b, 0, |q|), q, |q|, j);
      WordPutWord(b, 0, |q|, j);
    }
  }

  // ---- writes, crashes and what a disk means ----

  function Apply(d: Disk, t: seq<Write>): (r: Disk)
    ensures |r| == |d|
  {
    if t == [] then d
    else
      var w := t[|t| - 1];
      var e := Apply(d, t[..|t| - 1]);
      if w.sector < |e| then e[w.sector := w.data] else e
  }

  lemma ApplyConcat(d: Disk, t: seq<Write>, u: seq<Write>)
    ensures Apply(d, t + u) == Apply(Apply(d, t), u)
  {
    if u == [] {
      assert t + u == t;
    } else {
      assert (t + u)[..|t + u| - 1] == t + u[..|u| - 1];
      ApplyConcat(d, t, u[..|u| - 1]);
    }
  }

  /** The header describes a log that fits its area and names only home sectors. */
  predicate WellFormed(a: Area, d: Disk) {
    && 1 <= a.size && a.start + a.size <= |d|
    && Word(d[a.start], 0) <= LOGSIZE && Word(d[a.start], 0) < a.size
    && Loggable(a, d, Head(d[a.start]))
  }

  predicate Loggable(a: Area, d: Disk, q: seq<Uint>) {
    && |q| <= LOGSIZE && |q| < a.size
    && forall i :: 0 <= i < |q| ==> Home(a, q[i]) && q[i] < |d|
  }

  /** Sector s once log blocks 1..|q| have been copied, in order, to the sectors q. */
  function Replayed(a: Area, d: Disk, q: seq<Uint>, s: nat): Block
    requires a.start + a.size <= |d| && |q| < a.size && s < |d|
  {
    if q == [] then d[s]
    else if q[|q| - 1] == s then d[a.start + |q|]
    else Replayed(a, d, q[..|q| - 1], s)
  }

  /** What a home sector of a disk means: its contents once the log the header describes is replayed. */
  function Logical(a: Area, d: Disk, s: nat): Block
    requires WellFormed(a, d) && s < |d|
  {
    Replayed(a, d, Head(d[a.start]), s)
  }

  ghost predicate SameLogical(a: Area, d: Disk, e: Disk) {
    && WellFormed(a, d) && WellFormed(a, e) && |d| == |e|
    && forall s :: 0 <= s < |d| && Home(a, s) ==> Logical(a, d, s) == Logical(a, e, s)
  }

  /** Replaying looks only at the log blocks, and at s itself when the log does not name s. */
  lemma ReplayedFrame(a: Area, d: Disk, e: Disk, q: seq<Uint>, s: nat)
    requires |d| == |e| && a.start + a.size <= |d| && |q| < a.size && s < |d|
    requires forall j :: a.start < j <= a.start + |q| ==> d[j] == e[j]
    requires s !in q ==> d[s] == e[s]
    ensures Replayed(a, d, q, s) == Replayed(a, e, q, s)
  {
    if q != [] && q[|q| - 1] != s {
      ReplayedFrame(a, d, e, q[..|q| - 1], s);
    }
  }

  // ---- install_trans, recover_from_log ----

  /** The sector writes of install_trans. */
  function Installs(a: Area, d: Disk, q: seq<Uint>): (t: seq<Write>)
    requires a.start + a.size <= |d| && |q| < a.size
    ensures |t| == |q|
  {
    if q == [] then []
    else Installs(a, d, q[..|q| - 1]) + [Write(q[|q| - 1], d[a.start + |q|])]
  }

  /** The sector writes of recover_from_log, and of commit_trans after its first write_head. */
  function RecoverTrace(a: Area, d: Disk): seq<Write>
    requires WellFormed(a, d)
  {
    Installs(a, d, Head(d[a.start])) + [Write(a.start, PutHead(d[a.start], []))]
  }

  lemma InstallsPrefix(a: Area, d: Disk, q: seq<Uint>, k: nat)
    requires a.start + a.size <= |d| && |q| < a.size && k <= |q|
    ensures Installs(a, d, q)[..k] == Installs(a, d, q[..k])
  {
    if k == |q| {
      assert q[..k] == q;
    } else {
      InstallsPrefix(a, d, q[..|q| - 1], k);
      assert q[..|q| - 1][..k] == q[..k];
    }
  }

  /** Installs write home sectors of the log only, and leave each with the block that is last for it. */
  lemma InstallsEffect(a: Area, d: Disk, q: seq<Uint>)
    requires a.start + a.size <= |d| && Loggable(a, d, q)
    ensures forall s :: 0 <= s < |d| && !Home(a, s) ==> Apply(d, Installs(a, d, q))[s] == d[s]
    ensures forall s :: 0 <= s < |d| && Home(a, s) ==> Apply(d, Installs(a, d, q))[s] == Replayed(a, d, q, s)
    ensures forall s :: 0 <= s < |d| && s !in q ==> Apply(d, Installs(a, d, q))[s] == d[s]
  {
    if q != [] {
      InstallsEffect(a, d, q[..|q| - 1]);
      assert Installs(a, d, q)[..|q| - 1] == Installs(a, d, q[..|q| - 1]);
    }
  }

  /** Installing a prefix of the log does not change what the disk means; installing all of it writes that meaning
      out. */
  lemma InstallsKeep(a: Area, d: Disk, k: nat)
    requires WellFormed(a, d) && k <= |Head(d[a.start])|
    ensures var q := Head(d[a.start]);
      var e := Apply(d, Installs(a, d, q[..k]));
      && SameLogical(a, d, e) && e[a.start] == d[a.start]
      && (k == |q| ==> forall s :: 0 <= s < |d| && Home(a, s) ==> e[s] == Logical(a, d, s))
  {
    hide Apply, Installs, Replayed, Word;
    var q := Head(d[a.start]);
    InstallsEffect(a, d, q[..k]);
    assert k == |q| ==> q[..k] == q;
    var e := Apply(d, Installs(a, d, q[..k]));
    forall s | 0 <= s < |d| && Home(a, s) ensures Logical(a, d, s) == Logical(a, e, s) {
      ReplayedFrame(a, d, e, q, s);
    }
  }

  /** Erasing the header of a fully installed log does not change what the disk means. */
  lemma ClearKeeps(a: Area, d: Disk)
    requires WellFormed(a, d)
    requires forall s :: 0 <= s < |d| && Home(a, s) ==> d[s] == Logical(a, d, s)
    ensures SameLogical(a, d, d[a.start := PutHead(d[a.start], [])])
    ensures Word(PutHead(d[a.start], []), 0) == 0
  {
    HeadRoundTrip(d[a.start], []);
  }

  /** Cutting recovery short after any number of sector writes does not change what the disk means. */
  lemma RecoveryKeeps(a: Area, d: Disk, p: nat)
    requires WellFormed(a, d) && p <= |RecoverTrace(a, d)|
    ensures SameLogical(a, d, Apply(d, RecoverTrace(a, d)[..p]))
    ensures p == |RecoverTrace(a, d)| ==> Word(Apply(d, RecoverTrace(a, d)[..p])[a.start], 0) == 0
  {
    hide Apply, Installs, PutHead, Replayed;
    var q := Head(d[a.start]);
    var t := RecoverTrace(a, d);
    if p <= |q| {
      InstallsPrefix(a, d, q, p);
      assert t[..p] == Installs(a, d, q[..p]);
      InstallsKeep(a, d, p);
    } else {
      assert t[..p] == t && q[..|q|] == q;
      InstallsKeep(a, d, |q|);
      ApplySnoc(d, Installs(a, d, q), Write(a.start, PutHead(d[a.start], [])));
      ClearKeeps(a, Apply(d, Installs(a, d, q)));
    }
  }

  /** Crash recovery after crash recovery, each cut short after some number of writes; the last one completes. */
  ghost function CrashRun(a: Area, d: Disk, crashes: seq<nat>): (r: Disk)
    requires WellFormed(a, d)
    ensures SameLogical(a, d, r) && Word(r[a.start], 0) == 0
    decreases |crashes|
  {
    var t := RecoverTrace(a, d);
    if crashes == [] then
      RecoveryKeeps(a, d, |t|);
      assert t[..|t|] == t;
      Apply(d, t)
    else
      var p := if crashes[0] <= |t| then crashes[0] else |t|;
      RecoveryKeeps(a, d, p);
      CrashRun(a, Apply(d, t[..p]), crashes[1..])
  }

  // ---- transactions ----

  /** The sector writes of one transaction: log_write's block writes, the committing header, then what recovery does. */
  function TransTrace(a: Area, d: Disk, blocks: seq<Write>, q: seq<Uint>): seq<Write>
    requires TransOk(a, d, blocks, q)
  {
    var d1 := Apply(d, blocks);
    HeadRoundTrip(d1[a.start], q);
    var head := Write(a.start, PutHead(d1[a.start], q));
    blocks + [head] + RecoverTrace(a, d1[a.start := head.data])
  }

  /** The log is empty, log_write wrote only log data blocks, and the logged sectors are home sectors that fit. */
  predicate TransOk(a: Area, d: Disk, blocks: seq<Write>, q: seq<Uint>) {
    && WellFormed(a, d) && Word(d[a.start], 0) == 0
    && Loggable(a, d, q)
    && forall i :: 0 <= i < |blocks| ==> a.start < blocks[i].sector < a.start + a.size
  }

  lemma BlocksStayInLog(a: Area, d: Disk, blocks: seq<Write>, q: seq<Uint>)
    requires TransOk(a, d, blocks, q)
    ensures Apply(d, blocks)[a.start] == d[a.start]
    ensures forall s :: 0 <= s < |d| && Home(a, s) ==> Apply(d, blocks)[s] == d[s]
  {
    if blocks != [] {
      BlocksStayInLog(a, d, blocks[..|blocks| - 1], q);
    }
  }

  lemma TransBounds(a: Area, d: Disk, blocks: seq<Write>, q: seq<Uint>)
    requires TransOk(a, d, blocks, q)
    ensures a.start < a.start + a.size <= |d| && |q| <= LOGSIZE && |q| < a.size
  {
  }

  /** Before the header write the log is still empty: a crash loses the transaction. */
  lemma BeforeHeader(a: Area, d: Disk, blocks: seq<Write>, q: seq<Uint>, p: nat)
    requires TransOk(a, d, blocks, q) && p <= |blocks|
    ensures var e := Apply(d, blocks[..p]);
      WellFormed(a, e) && forall s :: 0 <= s < |d| && Home(a, s) ==> Logical(a, e, s) == d[s]
  {
    hide Apply;
    BlocksStayInLog(a, d, blocks[..p], q);
  }

  /** The header write makes the run of log blocks what the disk means. */
  lemma AtHeader(a: Area, d: Disk, blocks: seq<Write>, q: seq<Uint>)
    requires TransOk(a, d, blocks, q)
    ensures var d1 := Apply(d, blocks);
      var d2 := d1[a.start := PutHead(d1[a.start], q)];
      WellFormed(a, d2) && forall s :: 0 <= s < |d| && Home(a, s) ==> Logical(a, d2, s) == Replayed(a, d1, q, s)
  {
    hide Apply, PutHead, Replayed;
    var d1 := Apply(d, blocks);
    HeadRoundTrip(d1[a.start], q);
    var d2 := d1[a.start := PutHead(d1[a.start], q)];
    forall s | 0 <= s < |d| && Home(a, s) ensures Logical(a, d2, s) == Replayed(a, d1, q, s) {
      ReplayedFrame(a, d2, d1, q, s);
    }
  }

  /** From the header write on, every prefix of the trace is a prefix of a recovery. */
  lemma AfterHeader(a: Area, d: Disk, blocks: seq<Write>, q: seq<Uint>, p: nat)
    requires TransOk(a, d, blocks, q) && |blocks| < p <= |TransTrace(a, d, blocks, q)|
    ensures var d1 := Apply(d, blocks);
      var d2 := d1[a.start := PutHead(d1[a.start], q)];
      && WellFormed(a, d2) && p - |blocks| - 1 <= |RecoverTrace(a, d2)|
      && Apply(d, TransTrace(a, d, blocks, q)[..p]) == Apply(d2, RecoverTrace(a, d2)[..p - |blocks| - 1])
  {
    hide Apply, PutHead, Replayed, Logical, RecoverTrace, WellFormed, Loggable;
    AtHeader(a, d, blocks, q);
    TransBounds(a, d, blocks, q);
    var d1 := Apply(d, blocks);
    var head := Write(a.start, PutHead(d1[a.start], q));
    var r := RecoverTrace(a, d1[a.start := head.data]);
    var k := p - |blocks| - 1;
    assert TransTrace(a, d, blocks, q)[..p] == (blocks + [head]) + r[..k];
    ApplyConcat(d, blocks + [head], r[..k]);
    ApplySnoc(d, blocks, head);
  }

  /** Before the header write a crash loses the transaction; from the header write on it is durable. */
  lemma TransactionMeaning(a: Area, d: Disk, blocks: seq<Write>, q: seq<Uint>, p: nat)
    requires TransOk(a, d, blocks, q) && p <= |TransTrace(a, d, blocks, q)|
    ensures var e := Apply(d, TransTrace(a, d, blocks, q)[..p]);
      && WellFormed(a, e)
      && forall s :: 0 <= s < |d| && Home(a, s) ==>
           Logical(a, e, s) == if p <= |blocks| then d[s] else Replayed(a, Apply(d, blocks), q, s)
  {
    hide Apply, PutHead, Replayed, Logical, RecoverTrace, WellFormed;
    if p <= |blocks| {
      assert TransTrace(a, d, blocks, q)[..p] == blocks[..p];
      BeforeHeader(a, d, blocks, q, p);
    } else {
      var d1 := Apply(d, blocks);
      TransBounds(a, d, blocks, q);
      AtHeader(a, d, blocks, q);
      AfterHeader(a, d, blocks, q, p);
      RecoveryKeeps(a, d1[a.start := PutHead(d1[a.start], q)], p - |blocks| - 1);
    }
  }

  /** Crash atomicity: crash a transaction after any p sector writes, then crash its recovery any number of times
      anywhere; once a recovery completes, either every home sector has its old contents or every one its logged
      contents. */
  lemma CrashAtomicity(a: Area, d: Disk, blocks: seq<Write>, q: seq<Uint>, p: nat, crashes: seq<nat>)
    requires TransOk(a, d, blocks, q) && p <= |TransTrace(a, d, blocks, q)|
    ensures var e := Apply(d, TransTrace(a, d, blocks, q)[..p]);
      && WellFormed(a, e)
      && (p <= |blocks| ==> forall s :: 0 <= s < |d| && Home(a, s) ==> CrashRun(a, e, crashes)[s] == d[s])
      && (p > |blocks| ==> forall s :: 0 <= s < |d| && Home(a, s) ==>
            CrashRun(a, e, crashes)[s] == Replayed(a, Apply(d, blocks), q, s))
  {
    var e := Apply(d, TransTrace(a, d, blocks, q)[..p]);
    TransactionMeaning(a, d, blocks, q, p);
    var r := CrashRun(a, e, crashes);
    forall s | 0 <= s < |d| && Home(a, s) ensures r[s] == Logical(a, e, s) {
      assert Logical(a, r, s) == r[s];
    }
  }

  // ---- log absorption ----

  /** The header's sector list after a run of log_writes: each sector once, in the order first logged. */
  function Slots(ws: seq<Write>): seq<Uint> {
    if ws == [] then []
    else
      var q := Slots(ws[..|ws| - 1]);
      var s := ws[|ws| - 1].sector;
      if s in q then q else q + [s]
  }

  /** The index log_write's search loop stops at. */
  function SlotOf(q: seq<Uint>, s: nat): (i: nat)
    ensures i <= |q|
    ensures s in q ==> i < |q| && q[i] == s
    ensures s !in q ==> i == |q|
  {
    if q == [] then 0 else if q[0] == s then 0 else 1 + SlotOf(q[1..], s)
  }

  lemma SlotOfAppend(q: seq<Uint>, x: Uint, s: nat)
    ensures s in q ==> SlotOf(q + [x], s) == SlotOf(q, s)
    ensures s !in q && s == x ==> SlotOf(q + [x], s) == |q|
  {
    if q != [] {
      assert (q + [x])[1..] == q[1..] + [x];
      SlotOfAppend(q[1..], x, s);
    }
  }

  lemma SlotsDistinct(ws: seq<Write>)
    ensures forall i, j :: 0 <= i < j < |Slots(ws)| ==> Slots(ws)[i] != Slots(ws)[j]
  {
    if ws != [] {
      SlotsDistinct(ws[..|ws| - 1]);
    }
  }

  /** The log block writes of a run of log_writes. */
  function LogBlocks(a: Area, ws: seq<Write>): (t: seq<Write>)
    requires |Slots(ws)| < a.size
    ensures |t| == |ws|
  {
    if ws == [] then []
    else
      var w := ws[|ws| - 1];
      LogBlocks(a, ws[..|ws| - 1]) + [Write(a.start + 1 + SlotOf(Slots(ws[..|ws| - 1]), w.sector), w.data)]
  }

  /** A run of log_writes to home sectors that the log has room for. */
  predicate Fits(a: Area, d: Disk, ws: seq<Write>) {
    a.start + a.size <= |d| && Loggable(a, d, Slots(ws))
  }

  ghost function Named(q: seq<Uint>): set<nat> {
    set s | s in q
  }

  lemma ApplySnoc(d: Disk, t: seq<Write>, w: Write)
    requires w.sector < |d|
    ensures Apply(d, t + [w]) == Apply(d, t)[w.sector := w.data]
  {
    assert (t + [w])[..|t|] == t;
  }

  lemma SlotsSnoc(ws: seq<Write>, w: Write)
    ensures var q := Slots(ws);
      && Slots(ws + [w]) == (if w.sector in q then q else q + [w.sector])
      && Named(Slots(ws + [w])) == Named(q) + {w.sector}
  {
    assert (ws + [w])[..|ws|] == ws;
  }

  lemma LogBlocksSnoc(a: Area, ws: seq<Write>, w: Write)
    requires |Slots(ws + [w])| < a.size && |Slots(ws)| < a.size
    ensures a.start + 1 + SlotOf(Slots(ws), w.sector) < UINT
    ensures LogBlocks(a, ws + [w]) == LogBlocks(a, ws) + [Write(a.start + 1 + SlotOf(Slots(ws), w.sector), w.data)]
  {
    hide Slots, SlotOf;
    SlotsSnoc(ws, w);
    assert (ws + [w])[..|ws|] == ws;
  }

  lemma FitsSnoc(a: Area, d: Disk, ws: seq<Write>, w: Write)
    ensures Fits(a, d, ws + [w]) ==> Fits(a, d, ws) && Home(a, w.sector) && w.sector < |d|
    ensures Fits(a, d, ws) && Home(a, w.sector) && w.sector < |d| && |Slots(ws)| < LOGSIZE && |Slots(ws)| < a.size - 1
            ==> Fits(a, d, ws + [w])
  {
    hide Slots;
    SlotsSnoc(ws, w);
    var q, r := Slots(ws), Slots(ws + [w]);
    assert forall i :: 0 <= i < |q| ==> q[i] == r[i];
    var i :| 0 <= i < |r| && r[i] == w.sector;
  }

  /** What one more log_write does to the transaction: its slot, its log block, and the view of the disk. */
  lemma OneMoreLogged(a: Area, d: Disk, ws: seq<Write>, w: Write)
    requires Fits(a, d, ws + [w])
    ensures Fits(a, d, ws) && Home(a, w.sector) && w.sector < |d|
    ensures var q := Slots(ws);
      var us := ws + [w];
      var i := SlotOf(q, w.sector);
      && Slots(us) == (if i < |q| then q else q + [w.sector]) && Named(Slots(us)) == Named(q) + {w.sector}
      && a.start + 1 + i < a.start + a.size && a.start + 1 + i !in Named(q)
      && LogBlocks(a, us) == LogBlocks(a, ws) + [Write(a.start + 1 + i, w.data)]
      && Apply(d, LogBlocks(a, us)) == Apply(d, LogBlocks(a, ws))[a.start + 1 + i := w.data]
      && Apply(d, us) == Apply(d, ws)[w.sector := w.data]
  {
    hide Slots, LogBlocks, Apply, SlotOf;
    FitsSnoc(a, d, ws, w);
    SlotsSnoc(ws, w);
    LogBlocksSnoc(a, ws, w);
    ApplySnoc(d, LogBlocks(a, ws), Write(a.start + 1 + SlotOf(Slots(ws), w.sector), w.data));
    ApplySnoc(d, ws, w);
  }

  lemma {:induction false} FitsTransOk(a: Area, d: Disk, ws: seq<Write>)
    requires WellFormed(a, d) && Word(d[a.start], 0) == 0 && Fits(a, d, ws)
    ensures TransOk(a, d, LogBlocks(a, ws), Slots(ws))
  {
    if ws != [] {
      var us, w := ws[..|ws| - 1], ws[|ws| - 1];
      assert ws == us + [w];
      OneMoreLogged(a, d, us, w);
      FitsTransOk(a, d, us);
    }
  }

  /** Absorption is sound: the log block of each listed sector holds the last data logged for it. */
  lemma {:induction false} Absorbed(a: Area, d: Disk, ws: seq<Write>, s: nat)
    requires Fits(a, d, ws) && s < |d|
    ensures Apply(d, ws)[s] == if s in Slots(ws) then Apply(d, LogBlocks(a, ws))[a.start + 1 + SlotOf(Slots(ws), s)]
      else d[s]
  {
    if ws == [] {
      NothingLogged(a, d);
    } else {
      hide Slots, LogBlocks, Apply, Fits, SlotOf;
      var us, w := ws[..|ws| - 1], ws[|ws| - 1];
      assert ws == us + [w];
      OneMoreLogged(a, d, us, w);
      Absorbed(a, d, us, s);
      SlotOfAppend(Slots(us), w.sector, s);
    }
  }

  lemma NothingLogged(a: Area, d: Disk)
    requires 1 <= a.size && a.start + a.size <= |d|
    ensures Fits(a, d, []) && Slots([]) == [] && LogBlocks(a, []) == [] && Apply(d, []) == d && Named([]) == {}
  {
  }

  lemma ReplayedDistinct(a: Area, d: Disk, q: seq<Uint>, s: nat)
    requires a.start + a.size <= |d| && |q| < a.size && s < |d|
    requires forall i, j :: 0 <= i < j < |q| ==> q[i] != q[j]
    ensures Replayed(a, d, q, s) == if s in q then d[a.start + 1 + SlotOf(q, s)] else d[s]
  {
    if q != [] && q[|q| - 1] != s {
      ReplayedDistinct(a, d, q[..|q| - 1], s);
      assert s in q <==> s in q[..|q| - 1];
    }
  }

  /** Replaying the committed log gives each home sector what the run of log_writes gave it. */
  lemma ReplayIsRun(a: Area, d: Disk, ws: seq<Write>, s: nat)
    requires WellFormed(a, d) && Word(d[a.start], 0) == 0 && Fits(a, d, ws)
    requires s < |d| && Home(a, s)
    ensures Replayed(a, Apply(d, LogBlocks(a, ws)), Slots(ws), s) == Apply(d, ws)[s]
  {
    hide Apply, LogBlocks, Slots, SlotOf, Replayed, WellFormed;
    FitsTransOk(a, d, ws);
    SlotsDistinct(ws);
    BlocksStayInLog(a, d, LogBlocks(a, ws), Slots(ws));
    ReplayedDistinct(a, Apply(d, LogBlocks(a, ws)), Slots(ws), s);
    Absorbed(a, d, ws, s);
  }

  /** Crash atomicity in the file system's terms: whatever run of log_writes makes up the transaction, every home sector
      ends at its old contents, or every one at the contents the run gives it; the header write decides which. */
  lemma CrashAtomicityOfRun(a: Area, d: Disk, ws: seq<Write>, p: nat, crashes: seq<nat>)
    requires WellFormed(a, d) && Word(d[a.start], 0) == 0 && Fits(a, d, ws)
    requires TransOk(a, d, LogBlocks(a, ws), Slots(ws)) && p <= |TransTrace(a, d, LogBlocks(a, ws), Slots(ws))|
    ensures var e := Apply(d, TransTrace(a, d, LogBlocks(a, ws), Slots(ws))[..p]);
      && WellFormed(a, e)
      && (p <= |ws| ==> forall s :: 0 <= s < |d| && Home(a, s) ==> CrashRun(a, e, crashes)[s] == d[s])
      && (p > |ws| ==> forall s :: 0 <= s < |d| && Home(a, s) ==> CrashRun(a, e, crashes)[s] == Apply(d, ws)[s])
  {
    CrashAtomicity(a, d, LogBlocks(a, ws), Slots(ws), p, crashes);
    forall s | 0 <= s < |d| && Home(a, s)
      ensures Replayed(a, Apply(d, LogBlocks(a, ws)), Slots(ws), s) == Apply(d, ws)[s]
    {
      ReplayIsRun(a, d, ws, s);
    }
  }
}

/** A transaction that has the log's own header among its blocks (kernel/log.c), as after balloc on a full disk: what a
    crash then leaves. */
module Taken {
  import opened Ints
  import opened Blocks
  import opened Bio
  import opened Log
  import opened Sets
  import J = Journal

  // ---- values ----

  /** A list of logged sectors whose h-th is the header, with an empty header as its log block (what bzero logs). The
      others are distinct home sectors. */
  ghost predicate Listed(a: Area, d: Disk, q: seq<Uint>, h: nat) {
    && 1 <= a.size && a.start + a.size <= |d| && |q| <= LOGSIZE && |q| < a.size
    && h < |q| && q[h] == a.start && Word(d[a.start + h + 1], 0) == 0
    && (forall i :: 0 <= i < |q| && i != h ==> Home(a, q[i]) && q[i] < |d|)
    && (forall i, j :: 0 <= i < j < |q| ==> q[i] != q[j])
  }

  /** The first m sectors of the list have been installed over d, the log blocks are untouched, and the header is the
      committed one until its own turn has come, empty afterwards. */
  ghost predicate Stage(a: Area, d: Disk, q: seq<Uint>, h: nat, m: nat, e: Disk)
    requires Listed(a, d, q, h) && m <= |q|
  {
    && |e| == |d| && (forall s :: 0 <= s < |d| && J.IsLogBlock(a, s) ==> e[s] == d[s])
    && (forall s :: 0 <= s < |d| && Home(a, s) ==> e[s] == Replayed(a, d, q[..m], s))
    && (if m <= h then Word(e[a.start], 0) == |q| && Head(e[a.start]) == q else Word(e[a.start], 0) == 0)
  }

  /** Installing, for any list that spares the log blocks. */
  lemma InstallsAny(a: Area, d: Disk, q: seq<Uint>)
    requires a.start + a.size <= |d| && |q| < a.size && forall i :: 0 <= i < |q| ==>
      q[i] < |d| && !J.IsLogBlock(a, q[i])
    ensures forall s :: 0 <= s < |d| && J.IsLogBlock(a, s) ==> Apply(d, Installs(a, d, q))[s] == d[s]
    ensures forall s :: 0 <= s < |d| && !J.IsLogBlock(a, s) ==> Apply(d, Installs(a, d, q))[s] == Replayed(a, d, q, s)
  {
    if q != [] {
      InstallsAny(a, d, q[..|q| - 1]);
      assert Installs(a, d, q)[..|q| - 1] == Installs(a, d, q[..|q| - 1]);
    }
  }

  /** A sector after the first m copies: its own log block if its turn has come, its old contents otherwise. */
  lemma {:induction false} ReplayedAt(a: Area, d: Disk, q: seq<Uint>, s: nat)
    requires a.start + a.size <= |d| && |q| < a.size && s < |d|
    requires forall i, j :: 0 <= i < j < |q| ==> q[i] != q[j]
    ensures forall k :: 0 <= k < |q| && q[k] == s ==> Replayed(a, d, q, s) == d[a.start + k + 1]
    ensures s !in q ==> Replayed(a, d, q, s) == d[s]
  {
    if q != [] {
      ReplayedAt(a, d, q[..|q| - 1], s);
    }
  }

  /** A home sector of a disk at stage m, once the first r log blocks have been copied again. */
  lemma CopiedAgain(a: Area, d: Disk, q: seq<Uint>, h: nat, m: nat, e: Disk, r: nat, s: nat)
    requires Listed(a, d, q, h) && m <= |q| && Stage(a, d, q, h, m, e) && r <= |q| && s < |d| && Home(a, s)
    ensures Replayed(a, e, q[..r], s) == Replayed(a, d, q[..if r <= m then m else r], s)
  {
    hide Word, Head, Replayed;
    ReplayedAt(a, e, q[..r], s);
    ReplayedAt(a, d, q[..m], s);
    ReplayedAt(a, d, q[..if r <= m then m else r], s);
    if k :| 0 <= k < |q| && q[k] == s {
      assert k < r ==> q[..r][k] == s;
      assert k < m ==> q[..m][k] == s;
    }
  }

  /** Where installing the first r sectors once more leads from stage m. */
  lemma Reinstalled(a: Area, d: Disk, q: seq<Uint>, h: nat, m: nat, e: Disk, r: nat)
    requires Listed(a, d, q, h) && m <= h && Stage(a, d, q, h, m, e) && r <= |q|
    ensures Stage(a, d, q, h, if r <= m then m else r, Apply(e, Installs(a, e, q[..r])))
  {
    hide Installs, Apply, Word, Head, Replayed;
    InstallsAny(a, e, q[..r]);
    forall s | 0 <= s < |d| && Home(a, s)
      ensures Apply(e, Installs(a, e, q[..r]))[s] == Replayed(a, d, q[..if r <= m then m else r], s)
    {
      CopiedAgain(a, d, q, h, m, e, r, s);
    }
    ReplayedAt(a, e, q[..r], a.start);
    assert r > h ==> q[..r][h] == a.start;
    assert r <= h ==> a.start !in q[..r];
  }

  // ---- recovery ----

  ghost predicate Readable(a: Area, e: Disk) {
    1 <= a.size && a.start + a.size <= |e| && Word(e[a.start], 0) <= LOGSIZE && Word(e[a.start], 0) < a.size
  }

  /** The sector writes of recover_from_log, whatever sectors the header lists. */
  ghost function Recovery(a: Area, e: Disk): seq<Write>
    requires Readable(a, e)
  {
    var t := Installs(a, e, Head(e[a.start]));
    t + [Write(a.start, PutHead(Apply(e, t)[a.start], []))]
  }

  /** On a log that lists home sectors only, this is the recovery of the Log module. */
  lemma RecoveryIsRecovery(a: Area, e: Disk)
    requires WellFormed(a, e)
    ensures Recovery(a, e) == RecoverTrace(a, e)
  {
    InstallsEffect(a, e, Head(e[a.start]));
  }

  /** Recovery after recovery, each cut short after some number of writes; the last one completes. */
  ghost function Run(a: Area, e: Disk, crashes: seq<nat>): Disk
    decreases |crashes|
  {
    if !Readable(a, e) then e
    else
      var t := Recovery(a, e);
      if crashes == [] then Apply(e, t)
      else Run(a, Apply(e, t[..if crashes[0] <= |t| then crashes[0] else |t|]), crashes[1..])
  }

  /** The stage after r writes of a recovery that began at stage m. */
  function Next(h: nat, n: nat, m: nat, r: nat): nat { if m > h || r <= m then m else if r <= n then r else n }

  /** The stage a run of recoveries ends in. */
  function Reached(h: nat, n: nat, m: nat, crashes: seq<nat>): (k: nat)
    requires m <= n
    ensures m <= k <= n && (m > h ==> k == m) && (m <= h ==> k > h || k == n)
    decreases |crashes|
  {
    if crashes == [] then Next(h, n, m, n + 1) else Reached(h, n, Next(h, n, m, crashes[0]), crashes[1..])
  }

  lemma CutRecovery(a: Area, d: Disk, q: seq<Uint>, h: nat, m: nat, e: Disk, r: nat)
    requires Listed(a, d, q, h) && m <= |q| && Stage(a, d, q, h, m, e)
    ensures Readable(a, e)
    ensures r <= |Recovery(a, e)| ==>
      Stage(a, d, q, h, Next(h, |q|, m, r), Apply(e, Recovery(a, e)[..r]))
  {
    hide Apply, Installs, PutHead, Replayed;
    var p := Head(e[a.start]);
    var t := Installs(a, e, p);
    if r <= |t| {
      assert Recovery(a, e)[..r] == t[..r];
      InstallsPrefix(a, e, p, r);
      if m <= h {
        Reinstalled(a, d, q, h, m, e, r);
      } else {
        NothingInstalled(a, e, p);
      }
    } else if r <= |Recovery(a, e)| {
      assert Recovery(a, e)[..r] == t + [Write(a.start, PutHead(Apply(e, t)[a.start], []))];
      ApplySnoc(e, t, Write(a.start, PutHead(Apply(e, t)[a.start], [])));
      HeadRoundTrip(Apply(e, t)[a.start], []);
      assert p[..|p|] == p;
      if m <= h {
        Reinstalled(a, d, q, h, m, e, |q|);
      } else {
        NothingInstalled(a, e, p);
      }
    }
  }

  lemma NothingInstalled(a: Area, e: Disk, p: seq<Uint>)
    requires a.start + a.size <= |e| && |p| < a.size && p == []
    ensures Installs(a, e, p) == [] && Apply(e, []) == e
  {
  }

  lemma {:induction false} RunEnds(a: Area, d: Disk, q: seq<Uint>, h: nat, m: nat, e: Disk, crashes: seq<nat>)
    requires Listed(a, d, q, h) && m <= |q| && Stage(a, d, q, h, m, e)
    ensures Stage(a, d, q, h, Reached(h, |q|, m, crashes), Run(a, e, crashes))
    decreases |crashes|
  {
    hide Apply, Recovery, Stage, Readable;
    CutRecovery(a, d, q, h, m, e, 0);
    var t := Recovery(a, e);
    RecoveryLength(a, d, q, h, m, e);
    if crashes == [] {
      CutRecovery(a, d, q, h, m, e, |t|);
      assert t[..|t|] == t;
    } else {
      var r := if crashes[0] <= |t| then crashes[0] else |t|;
      CutRecovery(a, d, q, h, m, e, r);
      RunEnds(a, d, q, h, Next(h, |q|, m, crashes[0]), Apply(e, t[..r]), crashes[1..]);
    }
  }

  lemma RecoveryLength(a: Area, d: Disk, q: seq<Uint>, h: nat, m: nat, e: Disk)
    requires Listed(a, d, q, h) && m <= |q| && Stage(a, d, q, h, m, e)
    ensures Readable(a, e) && |Recovery(a, e)| == if m <= h then |q| + 1 else 1
  {
  }

  // ---- the commit, and what a crash in it leaves ----

  /** The sector writes of commit_trans: the header, the installs, the erased header. */
  function CommitWrites(a: Area, d: Disk, q: seq<Uint>, h: nat, hdr: Block): seq<Write>
    requires a.start + a.size <= |d| && |q| <= LOGSIZE && |q| < a.size && h < |q|
  {
    [Write(a.start, PutHead(hdr, q))] + Installs(a, d, q) + [Write(a.start, PutHead(d[a.start + h + 1], []))]
  }

  /** After p writes of the commit, the first p - 1 sectors have been installed. */
  lemma CommitStage(a: Area, d: Disk, q: seq<Uint>, h: nat, hdr: Block, p: nat)
    requires Listed(a, d, q, h) && 0 < p <= |q| + 2
    ensures Stage(a, d, q, h, if p - 1 <= |q| then p - 1 else |q|, Apply(d, CommitWrites(a, d, q, h, hdr)[..p]))
  {
    hide Apply, Installs, PutHead, Replayed;
    var t := CommitWrites(a, d, q, h, hdr);
    var head, last := Write(a.start, PutHead(hdr, q)), Write(a.start, PutHead(d[a.start + h + 1], []));
    var d2 := d[a.start := head.data];
    Headed(a, d, q, h, hdr);
    var r := if p - 1 <= |q| then p - 1 else |q|;
    Reinstalled(a, d, q, h, 0, d2, r);
    SameInstalls(a, d, d2, q[..r]);
    InstallsPrefix(a, d, q, r);
    assert t[..r + 1] == [head] + Installs(a, d, q)[..r];
    ApplyHead(d, head, Installs(a, d, q)[..r]);
    if p == |q| + 2 {
      assert t[..p] == t[..r + 1] + [last];
      ApplySnoc(d, t[..r + 1], last);
      HeadRoundTrip(d[a.start + h + 1], []);
    }
  }

  lemma ApplyHead(d: Disk, w: Write, t: seq<Write>)
    requires w.sector < |d|
    ensures Apply(d, [w] + t) == Apply(d[w.sector := w.data], t)
  {
    ApplyConcat(d, [w], t);
    assert [w][..0] == [];
  }

  lemma SameInstalls(a: Area, d: Disk, e: Disk, q: seq<Uint>)
    requires a.start + a.size <= |d| == |e| && |q| < a.size && forall s :: 0 <= s < |d| && s != a.start ==> e[s] == d[s]
    ensures Installs(a, e, q) == Installs(a, d, q)
  {
  }

  lemma Headed(a: Area, d: Disk, q: seq<Uint>, h: nat, hdr: Block)
    requires Listed(a, d, q, h)
    ensures Stage(a, d, q, h, 0, d[a.start := PutHead(hdr, q)])
  {
    hide PutHead, Word;
    HeadRoundTrip(hdr, q);
  }

  ghost predicate AllOld(a: Area, d: Disk, e: Disk) {
    |e| == |d| && forall s :: 0 <= s < |d| && Home(a, s) ==> e[s] == d[s]
  }

  ghost predicate AllNew(a: Area, d: Disk, q: seq<Uint>, e: Disk)
    requires a.start + a.size <= |d| && |q| < a.size
  {
    |e| == |d| && forall s :: 0 <= s < |d| && Home(a, s) ==> e[s] == Replayed(a, d, q, s)
  }

  /** The transaction changes one of the sectors in places lo to hi of the list. */
  ghost predicate Changes(a: Area, d: Disk, q: seq<Uint>, h: nat, lo: nat, hi: nat)
    requires Listed(a, d, q, h)
  {
    exists k :: lo <= k < hi && ChangesAt(a, d, q, h, k)
  }

  ghost predicate ChangesAt(a: Area, d: Disk, q: seq<Uint>, h: nat, k: nat)
    requires Listed(a, d, q, h)
  {
    k < |q| && k != h && d[a.start + k + 1] != d[q[k]]
  }

  /** What stage m makes of the sector in place k, and of one that is not listed. */
  lemma AtPlace(a: Area, d: Disk, q: seq<Uint>, h: nat, m: nat, e: Disk, k: nat)
    requires Listed(a, d, q, h) && m <= |q| && Stage(a, d, q, h, m, e) && k < |q| && k != h
    ensures e[q[k]] == (if k < m then d[a.start + k + 1] else d[q[k]])
    ensures Replayed(a, d, q, q[k]) == d[a.start + k + 1]
  {
    hide Word, Head, Replayed;
    ReplayedAt(a, d, q[..m], q[k]);
    ReplayedAt(a, d, q, q[k]);
    assert k < m ==> q[..m][k] == q[k];
  }

  lemma Unlisted(a: Area, d: Disk, q: seq<Uint>, h: nat, m: nat, e: Disk, s: nat)
    requires Listed(a, d, q, h) && m <= |q| && Stage(a, d, q, h, m, e) && s < |d| && Home(a, s) && s !in q
    ensures e[s] == d[s] && Replayed(a, d, q, s) == d[s]
  {
    hide Word, Head, Replayed;
    ReplayedAt(a, d, q[..m], s);
    ReplayedAt(a, d, q, s);
  }

  lemma OldExactly(a: Area, d: Disk, q: seq<Uint>, h: nat, m: nat, e: Disk)
    requires Listed(a, d, q, h) && m <= |q| && Stage(a, d, q, h, m, e)
    ensures AllOld(a, d, e) <==> !Changes(a, d, q, h, 0, m)
  {
    hide Word, Head, Replayed;
    if Changes(a, d, q, h, 0, m) {
      var k :| 0 <= k < m && ChangesAt(a, d, q, h, k);
      AtPlace(a, d, q, h, m, e, k);
    } else {
      forall s | 0 <= s < |d| && Home(a, s) ensures e[s] == d[s] {
        if k :| 0 <= k < |q| && q[k] == s {
          AtPlace(a, d, q, h, m, e, k);
          assert k < m ==> !ChangesAt(a, d, q, h, k);
        } else {
          Unlisted(a, d, q, h, m, e, s);
        }
      }
    }
  }

  lemma NewExactly(a: Area, d: Disk, q: seq<Uint>, h: nat, m: nat, e: Disk)
    requires Listed(a, d, q, h) && m <= |q| && Stage(a, d, q, h, m, e)
    ensures AllNew(a, d, q, e) <==> !Changes(a, d, q, h, m, |q|)
  {
    hide Word, Head, Replayed;
    if Changes(a, d, q, h, m, |q|) {
      var k :| m <= k < |q| && ChangesAt(a, d, q, h, k);
      AtPlace(a, d, q, h, m, e, k);
    } else {
      forall s | 0 <= s < |d| && Home(a, s) ensures e[s] == Replayed(a, d, q, s) {
        if k :| 0 <= k < |q| && q[k] == s {
          AtPlace(a, d, q, h, m, e, k);
          assert m <= k ==> !ChangesAt(a, d, q, h, k);
        } else {
          Unlisted(a, d, q, h, m, e, s);
        }
      }
    }
  }

  ghost predicate Quiet(a: Area, e: Disk) {
    1 <= a.size && a.start + a.size <= |e| && Word(e[a.start], 0) == 0
  }

  lemma QuietTrace(a: Area, e: Disk)
    requires Quiet(a, e)
    ensures Readable(a, e) && Recovery(a, e) == [Write(a.start, PutHead(e[a.start], []))]
  {
    hide PutHead, Word, Apply, Installs;
    assert Head(e[a.start]) == [];
    NothingInstalled(a, e, []);
  }

  /** The disk after one such recovery, or none. */
  lemma QuietRecovery(a: Area, e: Disk)
    requires Quiet(a, e)
    ensures var f := e[a.start := PutHead(e[a.start], [])];
      Quiet(a, f) && Apply(e, [Write(a.start, PutHead(e[a.start], []))]) == f && Apply(e, []) == e
  {
    hide PutHead, Word;
    HeadRoundTrip(e[a.start], []);
    ApplyHead(e, Write(a.start, PutHead(e[a.start], [])), []);
    assert [Write(a.start, PutHead(e[a.start], []))] + [] == [Write(a.start, PutHead(e[a.start], []))];
  }

  /** A disk with an empty log comes through any recoveries as it is. */
  lemma {:induction false} QuietRun(a: Area, e: Disk, crashes: seq<nat>)
    requires Quiet(a, e)
    ensures AllOld(a, e, Run(a, e, crashes))
    decreases |crashes|
  {
    hide Word, Recovery, Apply, Readable, PutHead;
    QuietTrace(a, e);
    QuietRecovery(a, e);
    var t := Recovery(a, e);
    assert t[..1] == t && t[..0] == [];
    if crashes != [] {
      var r := if crashes[0] <= |t| then crashes[0] else |t|;
      QuietRun(a, Apply(e, t[..r]), crashes[1..]);
    }
  }

  /** A crash after p sector writes of the commit, and in recovery as often as you like. Before the header write nothing
      has happened. After it, the run ends in the stage m it reaches, which is the last one unless a crash came after
      the header had been installed over itself; and then atomicity is lost exactly if the transaction changes sectors
      listed before place m and sectors listed from m on. */
  lemma AtomicityLost(a: Area, d: Disk, q: seq<Uint>, h: nat, hdr: Block, p: nat, crashes: seq<nat>)
    requires Listed(a, d, q, h) && Word(d[a.start], 0) == 0 && p <= |q| + 2
    ensures var r := Run(a, Apply(d, CommitWrites(a, d, q, h, hdr)[..p]), crashes);
      if p == 0 then AllOld(a, d, r)
      else
        var m := Reached(h, |q|, if p - 1 <= |q| then p - 1 else |q|, crashes);
        && (AllOld(a, d, r) || AllNew(a, d, q, r) <==> !(Changes(a, d, q, h, 0, m) && Changes(a, d, q, h, m, |q|)))
        && (crashes == [] && !(h + 1 < p <= |q|) ==> AllNew(a, d, q, r))
  {
    hide Apply, CommitWrites, Run, Stage, Listed, Changes, AllOld, AllNew;
    CommitBegins(a, d, q, h, hdr);
    if p == 0 {
      QuietRun(a, d, crashes);
    } else {
      CommitStage(a, d, q, h, hdr, p);
      var m := if p - 1 <= |q| then p - 1 else |q|;
      var e := Apply(d, CommitWrites(a, d, q, h, hdr)[..p]);
      RunEnds(a, d, q, h, m, e, crashes);
      OldExactly(a, d, q, h, Reached(h, |q|, m, crashes), Run(a, e, crashes));
      NewExactly(a, d, q, h, Reached(h, |q|, m, crashes), Run(a, e, crashes));
      NoneBeyond(a, d, q, h);
    }
  }

  lemma CommitBegins(a: Area, d: Disk, q: seq<Uint>, h: nat, hdr: Block)
    requires Listed(a, d, q, h)
    ensures |CommitWrites(a, d, q, h, hdr)| == |q| + 2 && Apply(d, CommitWrites(a, d, q, h, hdr)[..0]) == d
    ensures 1 <= a.size && a.start + a.size <= |d| && h < |q| <= LOGSIZE && |q| < a.size
  {
  }

  lemma NoneBeyond(a: Area, d: Disk, q: seq<Uint>, h: nat)
    requires Listed(a, d, q, h)
    ensures !Changes(a, d, q, h, |q|, |q|)
  {
  }

  /** A bitmap block, the header and an inode's block, logged in this order; the crash comes when the first two have
      been installed. The bitmap is new and the inode old. */
  lemma HalfCommitted(x: Block, crashes: seq<nat>)
    requires x != Zeroes()
    ensures var a, z := Span(2, 4), Zeroes();
      var d := [z, z, z, x, z, x];
      var r := Run(a, Apply(d, CommitWrites(a, d, [0, 2, 1], 1, z)[..3]), crashes);
      !AllOld(a, d, r) && !AllNew(a, d, [0, 2, 1], r)
  {
    hide Run, Apply, CommitWrites, AllOld, AllNew, Word;
    var a, z, q: seq<Uint> := Span(2, 4), Zeroes(), [0, 2, 1];
    var d := [z, z, z, x, z, x];
    WordOfZeroes(0);
    assert Listed(a, d, q, 1);
    AtomicityLost(a, d, q, 1, z, 3, crashes);
    assert Reached(1, 3, 2, crashes) == 2;
    assert ChangesAt(a, d, q, 1, 0) && ChangesAt(a, d, q, 1, 2);
  }

  // ---- the code ----

  /** The open transaction lists the sectors q, the header as the h-th, and its log blocks and dirty buffers go with
      it. */
  ghost predicate Listing(j: J.Journal, q: seq<Uint>, h: nat)
    reads j, j.bc
  {
    && j.bc.Valid() && j.busy && |j.sector| == LOGSIZE && j.n <= LOGSIZE && j.sector[..j.n] == q
    && Listed(j.a, j.bc.disk, q, h) && Word(j.bc.disk[j.a.start], 0) == 0
    && Dirty(j.bc.buf) == Named(q) && forall s :: s in Held(j.bc.buf) ==> Home(j.a, s)
  }

  /** bzero of the header, in an open transaction that has logged home sectors only so far. */
  method ZeroHeader(j: J.Journal)
    requires j.Valid() && j.busy && j.n < LOGSIZE && j.n < j.a.size - 1
    requires forall s :: s in Held(j.bc.buf) ==> Home(j.a, s)
    requires |Held(j.bc.buf) + Dirty(j.bc.buf)| < NBUF - 1
    modifies j`n, j`sector, j.bc
    ensures Listing(j, Slots(j.ws) + [j.a.start], |Slots(j.ws)|)
    ensures j.a.start + |Slots(j.ws)| + 1 < |old(j.bc.disk)|
    ensures j.bc.disk == old(j.bc.disk)[j.a.start + |Slots(j.ws)| + 1 := Zeroes()]
    ensures Held(j.bc.buf) == Held(old(j.bc.buf))
  {
    hide BufferCache.Valid, Held, Dirty, SlotOf, Named, Slots, Word, J.InStep, Listed;
    Opened(j);
    LogZeroes(j);
    ListsHeader(j.a, old(j.bc.disk), j.bc.disk, Slots(j.ws), old(j.sector), j.sector, j.n);
  }

  /** The buffer operations of it. */
  method LogZeroes(j: J.Journal)
    requires j.bc.Valid() && j.busy && |j.sector| == LOGSIZE && j.n < LOGSIZE && j.n < j.a.size - 1
    requires j.a.start + j.a.size <= |j.bc.disk| && j.a.start !in j.sector[..j.n]
    requires forall s :: s in Held(j.bc.buf) || s in Dirty(j.bc.buf) ==> Home(j.a, s)
    requires |Held(j.bc.buf) + Dirty(j.bc.buf)| < NBUF - 1
    modifies j`n, j`sector, j.bc
    ensures j.n == old(j.n) + 1 && j.sector == old(j.sector)[old(j.n) := j.a.start]
    ensures j.bc.Valid() && Held(j.bc.buf) == Held(old(j.bc.buf))
    ensures Dirty(j.bc.buf) == Dirty(old(j.bc.buf)) + {j.a.start}
    ensures j.a.start + old(j.n) + 1 < |old(j.bc.disk)|
    ensures j.bc.disk == old(j.bc.disk)[j.a.start + old(j.n) + 1 := Zeroes()]
  {
    hide BufferCache.Valid, Held, Dirty, SlotOf, Cached;
    j.bc.CleanSectorsOnDisk();
    J.OneMoreHeld(Held(j.bc.buf), Dirty(j.bc.buf), j.a.start);
    var b := j.bc.Bread(ROOTDEV, j.a.start);
    j.bc.Store(b, Zeroes());
    var i := j.LogSector(b);
    j.bc.Brelse(b);
    BackAgain(Held(old(j.bc.buf)), j.a.start);
  }

  lemma BackAgain(held: set<nat>, s: nat)
    requires s !in held
    ensures held + {s} - {s} == held
  {
  }

  /** What an open transaction gives: its list, and a disk whose log is empty. */
  lemma Opened(j: J.Journal)
    requires j.Valid()
    ensures |j.sector| == LOGSIZE && j.sector[..j.n] == Slots(j.ws) && j.n == |Slots(j.ws)|
    ensures Dirty(j.bc.buf) == Named(Slots(j.ws)) && j.a.start + j.a.size <= |j.bc.disk| && 1 <= j.a.size
    ensures Word(j.bc.disk[j.a.start], 0) == 0 && j.a.start !in Slots(j.ws)
    ensures forall s :: s in Dirty(j.bc.buf) ==> Home(j.a, s)
    ensures forall k :: 0 <= k < |Slots(j.ws)| ==> Home(j.a, Slots(j.ws)[k]) && Slots(j.ws)[k] < |j.bc.disk|
    ensures forall i, k :: 0 <= i < k < |Slots(j.ws)| ==> Slots(j.ws)[i] != Slots(j.ws)[k]
  {
    hide Slots, LogBlocks, Apply;
    J.HeadedLog(j.a, j.base, j.ws);
    BlocksStayInLog(j.a, j.base, LogBlocks(j.a, j.ws), Slots(j.ws));
  }

  lemma ListsHeader(a: Area, d: Disk, e: Disk, q: seq<Uint>, was: seq<Uint>, now: seq<Uint>, n: nat)
    requires 1 <= a.size && a.start + a.size <= |d| && |q| < LOGSIZE == |was| && |q| + 1 < a.size && was[..|q|] == q
    requires e == d[a.start + |q| + 1 := Zeroes()] && a.start < UINT
    requires forall k :: 0 <= k < |q| ==> Home(a, q[k]) && q[k] < |d|
    requires forall i, k :: 0 <= i < k < |q| ==> q[i] != q[k]
    requires n == |q| + 1 && now == was[|q| := a.start]
    ensures Listed(a, e, q + [a.start], |q|) && now[..n] == q + [a.start]
    ensures Named(q + [a.start]) == Named(q) + {a.start} && e[a.start] == d[a.start]
  {
    hide Word;
    WordOfZeroes(0);
  }

  /** log_write of a home sector after that. */
  method LogMore(j: J.Journal, b: nat, ghost q: seq<Uint>, ghost h: nat) returns (ghost p: seq<Uint>)
    requires Listing(j, q, h) && b < NBUF && j.bc.buf[b].busy && j.bc.buf[b].valid && Home(j.a, j.bc.buf[b].sector)
    requires j.n < LOGSIZE && j.n < j.a.size - 1 && |Held(j.bc.buf) + Dirty(j.bc.buf)| < NBUF
    modifies j`n, j`sector, j.bc
    ensures Listing(j, p, h) && p == if old(j.bc.buf)[b].sector in q then q else q + [old(j.bc.buf)[b].sector]
    ensures Held(j.bc.buf) == Held(old(j.bc.buf))
    ensures forall s :: 0 <= s < |j.bc.disk| && !J.IsLogBlock(j.a, s) ==>
      s < |old(j.bc.disk)| && j.bc.disk[s] == old(j.bc.disk)[s]
  {
    hide BufferCache.Valid, Held, Dirty, SlotOf, Named, Word;
    var s := j.bc.buf[b].sector;
    NamedHome(j.a, j.bc.disk, q, h);
    j.bc.HeldInRange(b);
    p := if s in q then q else q + [s];
    var i := j.LogSector(b);
    ListsMore(j.a, old(j.bc.disk), j.bc.disk, q, h, old(j.sector), j.sector, j.n, s, old(j.bc.buf)[b].data, i);
  }

  lemma NamedHome(a: Area, d: Disk, q: seq<Uint>, h: nat)
    requires Listed(a, d, q, h)
    ensures forall s :: s in Named(q) ==> !J.IsLogBlock(a, s)
  {
    hide Word;
  }

  lemma ListsMore(a: Area, d: Disk, e: Disk, q: seq<Uint>, h: nat, was: seq<Uint>, now: seq<Uint>, n: nat, s: Uint,
                  data: Block, i: nat)
    requires Listed(a, d, q, h) && |q| < LOGSIZE == |was| && |q| + 1 < a.size && was[..|q|] == q
    requires Home(a, s) && s < |d| && i == SlotOf(q, s) && e == d[a.start + i + 1 := data]
    requires n == (if i == |q| then |q| + 1 else |q|) && now == was[i := s]
    ensures var p := if s in q then q else q + [s];
      Listed(a, e, p, h) && n == |p| && now[..n] == p && Named(p) == Named(q) + {s as nat}
  {
    hide Word, SlotOf;
  }

  /** The header's buffer is clean once the header has been written; the others' sectors stay dirty. */
  lemma HeaderDirty(a: Area, d: Disk, q: seq<Uint>, h: nat, held: set<nat>)
    requires Listed(a, d, q, h) && |held + Named(q)| < NBUF && forall s :: s in held ==> Home(a, s)
    ensures a.start in Named(q) && a.start !in held && |held + (Named(q) - {a.start})| < NBUF - 1
  {
    hide Word;
    assert q[h] in Named(q);
    assert held + Named(q) == (held + (Named(q) - {a.start})) + {a.start};
  }

  /** The k-th round of install_trans finds its two sectors free, and a buffer for each. */
  lemma NextPlace(a: Area, d: Disk, q: seq<Uint>, h: nat, k: nat, held: set<nat>, dirty: set<nat>)
    requires Listed(a, d, q, h) && k < |q| && dirty == Named(q) - {a.start} - Named(q[..k])
    requires (forall s :: s in held ==> Home(a, s) && s !in Named(q)) && |held + (Named(q) - {a.start})| < NBUF - 1
    ensures q[k] !in held && J.IsLogBlock(a, a.start + k + 1) && a.start + k + 1 !in held && a.start + k + 1 !in dirty
    ensures q[k] < |d| && a.start + k + 1 < |d| && q[k] != a.start + k + 1 && !J.IsLogBlock(a, q[k])
    ensures |held + dirty| < NBUF - 1 && dirty - {q[k] as nat} == Named(q) - {a.start} - Named(q[..k + 1])
  {
    hide Word;
    J.NamedNext(q, k);
    SubsetCount(held + dirty, held + (Named(q) - {a.start}));
  }

  /** k rounds of install_trans are done: the log blocks are untouched, the installed sectors clean, the header gone
      after its turn. */
  ghost predicate Installing(a: Area, d: Disk, q: seq<Uint>, h: nat, k: nat, disk: Disk, dirty: set<nat>,
                             mark: seq<Write>, trace: seq<Write>)
    requires Listed(a, d, q, h) && k <= |q|
  {
    && |disk| == |d| && (forall s :: 0 <= s < |d| && J.IsLogBlock(a, s) ==> disk[s] == d[s])
    && dirty == Named(q) - {a.start} - Named(q[..k])
    && (k > h ==> disk[a.start] == d[a.start + h + 1])
    && trace == mark + Installs(a, d, q[..k])
  }

  lemma NoRounds(a: Area, d: Disk, q: seq<Uint>, h: nat, disk: Disk, mark: seq<Write>)
    requires Listed(a, d, q, h) && |disk| == |d| && forall s :: 0 <= s < |d| && s != a.start ==> disk[s] == d[s]
    ensures Installing(a, d, q, h, 0, disk, Named(q) - {a.start}, mark, mark)
  {
    hide Word;
  }

  lemma OneRound(a: Area, d: Disk, q: seq<Uint>, h: nat, k: nat, disk: Disk, dirty: set<nat>, mark: seq<Write>,
                 trace: seq<Write>, held: set<nat>)
    requires Listed(a, d, q, h) && k < |q| && Installing(a, d, q, h, k, disk, dirty, mark, trace)
    requires (forall s :: s in held ==> Home(a, s) && s !in Named(q)) && |held + (Named(q) - {a.start})| < NBUF - 1
    ensures q[k] !in held && a.start + k + 1 !in held && a.start + k + 1 !in dirty && |held + dirty| < NBUF - 1
    ensures q[k] < |disk| && a.start + k + 1 < |disk| && q[k] != a.start + k + 1
    ensures Installing(a, d, q, h, k + 1, disk[q[k] := disk[a.start + k + 1]], dirty - {q[k] as nat}, mark,
                       trace + [Write(q[k], disk[a.start + k + 1])])
  {
    hide Word, Named, Installs;
    NextPlace(a, d, q, h, k, held, dirty);
    J.InstallsSnoc(a, d, q, k);
    assert k != h ==> q[k] != a.start;
  }

  lemma AllRounds(a: Area, d: Disk, q: seq<Uint>, h: nat, disk: Disk, dirty: set<nat>, mark: seq<Write>,
                  trace: seq<Write>)
    requires Listed(a, d, q, h) && Installing(a, d, q, h, |q|, disk, dirty, mark, trace)
    ensures dirty == {} && |disk| == |d| && disk[a.start] == d[a.start + h + 1] && trace == mark + Installs(a, d, q)
  {
    hide Word, Installs;
    assert q[..|q|] == q;
  }

  /** install_trans for such a list. */
  method InstallTaken(j: J.Journal, ghost d: Disk, ghost q: seq<Uint>, ghost h: nat)
    requires j.bc.Valid() && |j.sector| == LOGSIZE && j.n <= LOGSIZE && j.sector[..j.n] == q && Listed(j.a, d, q, h)
    requires |j.bc.disk| == |d| && forall s :: 0 <= s < |d| && s != j.a.start ==> j.bc.disk[s] == d[s]
    requires Dirty(j.bc.buf) == Named(q) - {j.a.start}
    requires forall s :: s in Held(j.bc.buf) ==> Home(j.a, s) && s !in Named(q)
    requires |Held(j.bc.buf) + (Named(q) - {j.a.start})| < NBUF - 1
    modifies j.bc
    ensures j.bc.Valid() && Held(j.bc.buf) == Held(old(j.bc.buf)) && Dirty(j.bc.buf) == {}
    ensures |j.bc.disk| == |d| && j.bc.disk[j.a.start] == d[j.a.start + h + 1]
    ensures j.bc.trace == old(j.bc.trace) + Installs(j.a, d, q)
  {
    hide BufferCache.Valid, Held, Dirty, Named, Word, Installs, J.Untouched, Installing;
    NoRounds(j.a, d, q, h, j.bc.disk, j.bc.trace);
    var tail := 0;
    while tail < j.n
      invariant 0 <= tail <= j.n && j.bc.Valid() && Held(j.bc.buf) == Held(old(j.bc.buf))
      invariant Installing(j.a, d, q, h, tail, j.bc.disk, Dirty(j.bc.buf), old(j.bc.trace), j.bc.trace)
    {
      OneRound(j.a, d, q, h, tail, j.bc.disk, Dirty(j.bc.buf), old(j.bc.trace), j.bc.trace, Held(j.bc.buf));
      assert q[tail] == j.sector[tail];
      j.InstallBlock(j.a.start + tail + 1, j.sector[tail]);
      tail := tail + 1;
    }
    AllRounds(j.a, d, q, h, j.bc.disk, Dirty(j.bc.buf), old(j.bc.trace), j.bc.trace);
  }

  /** commit_trans: its sector writes are the ones AtomicityLost reasons about. */
  method CommitTaken(j: J.Journal, ghost q: seq<Uint>, ghost h: nat)
    requires Listing(j, q, h) && |Held(j.bc.buf) + Dirty(j.bc.buf)| < NBUF
    requires forall s :: s in Held(j.bc.buf) ==> s !in Named(q)
    modifies j, j.bc
    ensures !j.busy && j.n == 0 && j.bc.Valid() && Dirty(j.bc.buf) == {} && Held(j.bc.buf) == Held(old(j.bc.buf))
    ensures |old(j.bc.latest)| == |old(j.bc.disk)|
    ensures j.bc.trace ==
              old(j.bc.trace) + CommitWrites(j.a, old(j.bc.disk), q, h, old(j.bc.latest)[j.a.start])
  {
    hide BufferCache.Valid, Held, Dirty, Named, Word, Installs, PutHead, Listed, CommitWrites, Listing;
    CommitListed(j, q, h);
    Erase(j);
    j.busy := false;
  }

  /** The header, and the installs. */
  method CommitListed(j: J.Journal, ghost q: seq<Uint>, ghost h: nat)
    requires Listing(j, q, h) && |Held(j.bc.buf) + Dirty(j.bc.buf)| < NBUF
    requires forall s :: s in Held(j.bc.buf) ==> s !in Named(q)
    modifies j.bc
    ensures j.bc.Valid() && Dirty(j.bc.buf) == {} && Held(j.bc.buf) == Held(old(j.bc.buf)) && |j.sector| == LOGSIZE
    ensures |old(j.bc.latest)| == |old(j.bc.disk)| == |j.bc.disk| && 1 <= j.a.size &&
      j.a.start + j.a.size <= |j.bc.disk|
    ensures h < |q| <= LOGSIZE && |q| < j.a.size && j.a.start !in Held(j.bc.buf) && |Held(j.bc.buf) + {}| < NBUF
    ensures j.bc.trace + [Write(j.a.start, PutHead(j.bc.disk[j.a.start], []))] ==
              old(j.bc.trace) + CommitWrites(j.a, old(j.bc.disk), q, h, old(j.bc.latest)[j.a.start])
  {
    hide BufferCache.Valid, Held, Dirty, Named, Word, Installs, PutHead, J.Untouched, Listed, CommitWrites;
    j.bc.CleanSectorsOnDisk();
    ListedFacts(j.a, j.bc.disk, q, h, Held(j.bc.buf));
    Assembled(j.a, j.bc.disk, q, h, j.bc.latest[j.a.start], j.bc.trace);
    j.PutHeader();
    InstallTaken(j, old(j.bc.disk), q, h);
    SubsetCount(Held(j.bc.buf) + {}, Held(j.bc.buf) + (Named(q) - {j.a.start}));
  }

  /** The end of commit_trans: the header is emptied. */
  method Erase(j: J.Journal)
    requires j.bc.Valid() && j.a.size >= 1 && j.a.start + j.a.size <= |j.bc.disk| && |j.sector| == LOGSIZE
    requires j.a.start !in Held(j.bc.buf) && Dirty(j.bc.buf) == {} && |Held(j.bc.buf) + {}| < NBUF
    modifies j`n, j.bc
    ensures j.n == 0 && j.bc.Valid() && Held(j.bc.buf) == Held(old(j.bc.buf)) && Dirty(j.bc.buf) == {}
    ensures j.bc.trace == old(j.bc.trace) + [Write(j.a.start, PutHead(old(j.bc.disk)[j.a.start], []))]
  {
    hide BufferCache.Valid, Held, Dirty, PutHead, J.Untouched;
    j.bc.CleanSectorsOnDisk();
    j.n := 0;
    assert j.sector[..j.n] == [];
    j.PutHeader();
  }

  lemma Assembled(a: Area, d: Disk, q: seq<Uint>, h: nat, hdr: Block, mark: seq<Write>)
    requires a.start + a.size <= |d| && |q| <= LOGSIZE && |q| < a.size && h < |q|
    ensures mark + [Write(a.start, PutHead(hdr, q))] + Installs(a, d, q) +
      [Write(a.start, PutHead(d[a.start + h + 1], []))]
      == mark + CommitWrites(a, d, q, h, hdr)
  {
    hide Installs, PutHead;
  }

  lemma ListedFacts(a: Area, d: Disk, q: seq<Uint>, h: nat, held: set<nat>)
    requires Listed(a, d, q, h) && |held + Named(q)| < NBUF && forall s :: s in held ==> Home(a, s)
    ensures 1 <= a.size && a.start + a.size <= |d| && h < |q| <= LOGSIZE && |q| < a.size
    ensures a.start in Named(q) && a.start !in held && |held + (Named(q) - {a.start})| < NBUF - 1
  {
    HeaderDirty(a, d, q, h, held);
  }
}

/** The process table (kernel/proc.c): every operation below runs with ptable.lock held, except the plain stores of
    fork. */
module Proc {
  import opened Options

  const NPROC: nat := 64

  datatype Status = UNUSED | EMBRYO | SLEEPING | RUNNABLE | RUNNING | ZOMBIE

  /** Channels are addresses; wait sleeps on the address of the caller's own table entry. */
  datatype Chan = OfProc(p: nat) | Other(addr: nat)

  datatype Process = Process(state: Status, pid: nat, parent: Option<nat>, chan: Option<Chan>, killed: bool)

  type Table = seq<Process>

  predicate Alive(s: Status) { s == SLEEPING || s == RUNNABLE || s == RUNNING }

  predicate ChildOf(ps: Table, i: nat, q: nat)
    requires i < |ps|
  {
    ps[i].parent == Some(q)
  }

  predicate Waiting(ps: Table, q: nat)
    requires q < |ps|
  {
    ps[q].state == SLEEPING && ps[q].chan == Some(OfProc(q))
  }

  predicate ParentOk(ps: Table, i: nat, q: nat) { q != i && q < |ps| && Alive(ps[q].state) }

  /** Parent pointers: set for every process but init, and never naming a slot that is unused, embryonic or a zombie. */
  predicate Family(ps: Table, init: nat, i: nat)
    requires i < |ps|
  {
    && (ps[i].state == UNUSED ==> ps[i].parent == None)
    && (ps[i].parent.Some? ==> i != init && ParentOk(ps, i, ps[i].parent.value))
    && (ps[i].parent.None? && i != init ==> ps[i].state == UNUSED || ps[i].state == EMBRYO)
  }

  /** A process sleeping in wait has a child to wait for, and none of its children is a zombie. */
  ghost predicate WaitsRightly(ps: Table, q: nat)
    requires q < |ps|
  {
    Waiting(ps, q) ==>
      && (forall i :: 0 <= i < |ps| && ChildOf(ps, i, q) ==> ps[i].state != ZOMBIE)
      && (exists i :: 0 <= i < |ps| && ChildOf(ps, i, q))
  }

  ghost predicate Pids(ps: Table, nextpid: nat) {
    && (forall i :: 0 <= i < |ps| && ps[i].state != UNUSED ==> ps[i].pid < nextpid)
    && (forall i, j :: 0 <= i < j < |ps| && ps[i].state != UNUSED && ps[j].state != UNUSED ==> ps[i].pid != ps[j].pid)
  }

  /** Every pid that has exited is either a zombie's or has been reaped, once. */
  ghost predicate Reaping(ps: Table, nextpid: nat, exited: set<nat>, reaped: seq<nat>) {
    && (forall k :: k in exited ==> k < nextpid)
    && (forall i :: 0 <= i < |ps| && ps[i].state != UNUSED ==> (ps[i].state == ZOMBIE <==> ps[i].pid in exited))
    && (forall i :: 0 <= i < |ps| && ps[i].state != UNUSED ==> ps[i].pid !in reaped)
    && (forall k :: k in exited ==> k in reaped || exists i :: 0 <= i < |ps| && ps[i].state == ZOMBIE && ps[i].pid == k)
    && (forall k :: k in reaped ==> k in exited)
    && (forall i, j :: 0 <= i < j < |reaped| ==> reaped[i] != reaped[j])
  }

  ghost predicate Ok(ps: Table, init: nat) {
    && |ps| == NPROC && init < NPROC && Alive(ps[init].state)
    && (forall i :: 0 <= i < |ps| ==> Family(ps, init, i))
    && (forall i :: 0 <= i < |ps| ==> WaitsRightly(ps, i))
  }

  function Wake(p: Process, c: Chan): Process {
    if p.state == SLEEPING && p.chan == Some(c) then p.(state := RUNNABLE) else p
  }

  /** What exit does to the entry of another process: reparent it, wake it if it waits for the dying process or, when
      init inherits a zombie, if it is init waiting. */
  function AfterExit(q: Process, dying: nat, parent: nat, init: nat, orphanZombie: bool): Process {
    var w := Wake(q, OfProc(parent));
    var v := if orphanZombie then Wake(w, OfProc(init)) else w;
    if q.parent == Some(dying) then v.(parent := Some(init)) else v
  }

  ghost predicate OrphanZombie(ps: Table, p: nat, n: nat) {
    exists k :: 0 <= k < n && k < |ps| && ChildOf(ps, k, p) && ps[k].state == ZOMBIE
  }

  ghost predicate Exited(ps: Table, qs: Table, p: nat, init: nat) {
    && |qs| == |ps| && p < |ps| && ps[p].parent.Some? && qs[p] == ps[p].(state := ZOMBIE)
    && forall i :: 0 <= i < |ps| && i != p ==>
         qs[i] == AfterExit(ps[i], p, ps[p].parent.value, init, OrphanZombie(ps, p, |ps|))
  }

  lemma ExitedEntry(ps: Table, qs: Table, p: nat, init: nat, i: nat)
    requires Exited(ps, qs, p, init) && i < |ps| && i != p
    ensures Alive(qs[i].state) == Alive(ps[i].state) && (!Alive(ps[i].state) ==> qs[i].state == ps[i].state)
    ensures qs[i].pid == ps[i].pid
    ensures qs[i].parent == if ps[i].parent == Some(p) then Some(init) else ps[i].parent
  {
    hide OrphanZombie;
  }

  lemma ExitedStates(ps: Table, qs: Table, p: nat, init: nat)
    requires Exited(ps, qs, p, init)
    ensures forall i :: 0 <= i < |ps| && i != p ==>
      var inherits := exists k :: 0 <= k < |ps| && ps[k].parent == Some(p) && ps[k].state == ZOMBIE;
      var waits := ps[i].chan == Some(OfProc(ps[p].parent.value)) || (inherits && ps[i].chan == Some(OfProc(init)));
      && qs[i].killed == ps[i].killed && qs[i].chan == ps[i].chan
      && qs[i].state == if ps[i].state == SLEEPING && waits then RUNNABLE else ps[i].state
  {
    var inherits := exists k :: 0 <= k < |ps| && ps[k].parent == Some(p) && ps[k].state == ZOMBIE;
    assert OrphanZombie(ps, p, |ps|) <==> inherits by {
      if inherits {
        var k :| 0 <= k < |ps| && ps[k].parent == Some(p) && ps[k].state == ZOMBIE;
        assert ChildOf(ps, k, p);
      }
    }
    hide OrphanZombie;
  }

  lemma ExitedFamily(ps: Table, qs: Table, p: nat, init: nat, i: nat)
    requires Ok(ps, init) && Exited(ps, qs, p, init) && ps[p].state == RUNNING && p != init && i < |ps|
    ensures Family(qs, init, i)
  {
    hide WaitsRightly, OrphanZombie, AfterExit;
    assert Family(ps, init, i) && Family(ps, init, p);
    ExitedEntry(ps, qs, p, init, init);
    if i != p {
      ExitedEntry(ps, qs, p, init, i);
    }
    if qs[i].parent.Some? && qs[i].parent.value != p && qs[i].parent.value < |ps| {
      ExitedEntry(ps, qs, p, init, qs[i].parent.value);
    }
  }

  lemma ExitedWaits(ps: Table, qs: Table, p: nat, init: nat, q: nat)
    requires Ok(ps, init) && Exited(ps, qs, p, init) && ps[p].state == RUNNING && p != init && q < |ps|
    ensures WaitsRightly(qs, q)
  {
    hide Family;
    assert WaitsRightly(ps, q);
    if Waiting(qs, q) {
      var i :| 0 <= i < |ps| && ChildOf(ps, i, q);
      assert ChildOf(qs, i, q);
    }
  }

  lemma ExitedOk(ps: Table, qs: Table, p: nat, init: nat)
    requires Ok(ps, init) && Exited(ps, qs, p, init) && ps[p].state == RUNNING && p != init
    ensures Ok(qs, init)
  {
    hide Family, WaitsRightly;
    forall i | 0 <= i < |qs| ensures Family(qs, init, i) && WaitsRightly(qs, i) {
      ExitedFamily(ps, qs, p, init, i);
      ExitedWaits(ps, qs, p, init, i);
    }
  }

  /** Only scheduling state changes: pids and parents stay, the living stay alive, and nobody starts waiting. */
  ghost predicate Rescheduled(ps: Table, qs: Table) {
    && |qs| == |ps|
    && forall i :: 0 <= i < |ps| ==>
         && qs[i].pid == ps[i].pid && qs[i].parent == ps[i].parent
         && (qs[i].state == ps[i].state || (Alive(qs[i].state) && Alive(ps[i].state)))
         && (Waiting(qs, i) ==> Waiting(ps, i))
  }

  lemma RescheduledOk(ps: Table, qs: Table, init: nat)
    requires Ok(ps, init) && Rescheduled(ps, qs)
    ensures Ok(qs, init)
  {
    forall i | 0 <= i < |qs| ensures Family(qs, init, i) {
      assert Family(ps, init, i);
    }
    forall q | 0 <= q < |qs| ensures WaitsRightly(qs, q) {
      assert WaitsRightly(ps, q);
      if Waiting(qs, q) {
        var i :| 0 <= i < |ps| && ChildOf(ps, i, q);
        assert ChildOf(qs, i, q);
      }
    }
  }

  lemma RescheduledReaping(ps: Table, qs: Table, nextpid: nat, exited: set<nat>, reaped: seq<nat>)
    requires Rescheduled(ps, qs) && Pids(ps, nextpid) && Reaping(ps, nextpid, exited, reaped)
    ensures Pids(qs, nextpid) && Reaping(qs, nextpid, exited, reaped)
  {
    forall k | k in exited && k !in reaped ensures exists i ::
      0 <= i < |qs| && qs[i].state == ZOMBIE && qs[i].pid == k {
      var i :| 0 <= i < |ps| && ps[i].state == ZOMBIE && ps[i].pid == k;
      assert qs[i].state == ZOMBIE && qs[i].pid == k;
    }
  }

  lemma ExitedReaping(ps: Table, qs: Table, p: nat, init: nat, nextpid: nat, exited: set<nat>, reaped: seq<nat>)
    requires Exited(ps, qs, p, init) && Pids(ps, nextpid) && Reaping(ps, nextpid, exited, reaped) &&
      ps[p].state == RUNNING
    ensures Pids(qs, nextpid) && Reaping(qs, nextpid, exited + {ps[p].pid}, reaped)
  {
    hide AfterExit;
    forall i | 0 <= i < |ps| && i != p ensures qs[i].pid == ps[i].pid &&
      (qs[i].state == UNUSED <==> ps[i].state == UNUSED)
      && (qs[i].state == ZOMBIE <==> ps[i].state == ZOMBIE)
    {
      ExitedEntry(ps, qs, p, init, i);
    }
    forall k | k in exited && k !in reaped ensures exists i ::
      0 <= i < |qs| && qs[i].state == ZOMBIE && qs[i].pid == k {
      var i :| 0 <= i < |ps| && ps[i].state == ZOMBIE && ps[i].pid == k;
      assert qs[i].state == ZOMBIE && qs[i].pid == k;
    }
  }

  /** The table after wait has emptied the slot of zombie child i. */
  function Reaped(ps: Table, i: nat): Table
    requires i < |ps|
  {
    ps[i := Process(UNUSED, 0, None, ps[i].chan, false)]
  }

  lemma ReapedOk(ps: Table, init: nat, p: nat, i: nat)
    requires Ok(ps, init) && p < |ps| && ps[p].state == RUNNING && i < |ps| && ChildOf(ps, i, p) &&
      ps[i].state == ZOMBIE
    ensures Ok(Reaped(ps, i), init)
  {
    var qs := Reaped(ps, i);
    forall j | 0 <= j < |qs| ensures Family(qs, init, j) {
      assert Family(ps, init, j);
    }
    forall q | 0 <= q < |qs| ensures WaitsRightly(qs, q) {
      assert WaitsRightly(ps, q);
      if Waiting(qs, q) {
        var j :| 0 <= j < |ps| && ChildOf(ps, j, q);
        assert ChildOf(qs, j, q);
      }
    }
  }

  lemma ReapedReaping(ps: Table, i: nat, nextpid: nat, exited: set<nat>, reaped: seq<nat>)
    requires Pids(ps, nextpid) && Reaping(ps, nextpid, exited, reaped) && i < |ps| && ps[i].state == ZOMBIE
    ensures ps[i].pid in exited && ps[i].pid !in reaped
    ensures Pids(Reaped(ps, i), nextpid) && Reaping(Reaped(ps, i), nextpid, exited, reaped + [ps[i].pid])
  {
    var qs := Reaped(ps, i);
    forall k | k in exited && k !in reaped && k != ps[i].pid
      ensures exists j :: 0 <= j < |qs| && qs[j].state == ZOMBIE && qs[j].pid == k
    {
      var j :| 0 <= j < |ps| && ps[j].state == ZOMBIE && ps[j].pid == k;
      assert qs[j].state == ZOMBIE && qs[j].pid == k;
    }
  }

  /** A slot moves between UNUSED, EMBRYO and RUNNABLE while fork builds it. */
  lemma BuiltOk(ps: Table, init: nat, i: nat, q: Process)
    requires Ok(ps, init) && i < |ps| && i != init && !Alive(ps[i].state) && q.state in {UNUSED, EMBRYO, RUNNABLE}
    requires Family(ps[i := q], init, i) && (q.parent == ps[i].parent || ps[i].parent == None)
    ensures Ok(ps[i := q], init)
  {
    var qs := ps[i := q];
    forall j | 0 <= j < |qs| ensures Family(qs, init, j) {
      assert Family(ps, init, j);
    }
    forall p | 0 <= p < |qs| ensures WaitsRightly(qs, p) {
      assert WaitsRightly(ps, p);
      if Waiting(qs, p) {
        var j :| 0 <= j < |ps| && ChildOf(ps, j, p);
        assert ChildOf(qs, j, p);
      }
    }
  }

  lemma BuiltReaping(ps: Table, i: nat, q: Process, nextpid: nat, next: nat, exited: set<nat>, reaped: seq<nat>)
    requires Pids(ps, nextpid) && Reaping(ps, nextpid, exited, reaped) && nextpid <= next && i < |ps|
    requires ps[i].state in {UNUSED, EMBRYO} && q.state in {UNUSED, EMBRYO, RUNNABLE}
    requires (q.pid == ps[i].pid && ps[i].state == EMBRYO) || (nextpid <= q.pid < next)
    ensures Pids(ps[i := q], next) && Reaping(ps[i := q], next, exited, reaped)
  {
    var qs := ps[i := q];
    forall k | k in exited && k !in reaped ensures exists j ::
      0 <= j < |qs| && qs[j].state == ZOMBIE && qs[j].pid == k {
      var j :| 0 <= j < |ps| && ps[j].state == ZOMBIE && ps[j].pid == k;
      assert qs[j].state == ZOMBIE && qs[j].pid == k;
    }
  }

  datatype WaitResult = Child(pid: nat) | Failed | Slept

  class ProcessTable {
    const init: nat
    var proc: Table
    var nextpid: nat
    ghost var exited: set<nat>          // pids that have called exit
    ghost var reaped: seq<nat>          // pids wait has returned, in order

    ghost predicate Valid()
      reads this
    {
      Ok(proc, init) && Pids(proc, nextpid) && Reaping(proc, nextpid, exited, reaped)
    }

    /** userinit: slot 0 becomes init. */
    constructor ()
      ensures Valid() && exited == {} && reaped == []
      ensures forall i :: 0 <= i < NPROC ==>
        (proc[i].state == RUNNABLE <==> i == init) && (proc[i].state == UNUSED <==> i != init)
    {
      init := 0;
      proc := [Process(RUNNABLE, 1, None, None, false)] + seq(NPROC - 1, _ => Process(UNUSED, 0, None, None, false));
      nextpid, exited, reaped := 2, {}, [];
    }

    /** allocproc takes the lowest unused slot under a fresh pid. */
    method Allocproc() returns (r: Option<nat>)
      requires Valid()
      modifies this`proc, this`nextpid
      ensures Valid()
      ensures r.None? ==> proc == old(proc) && nextpid == old(nextpid) && forall i :: 0 <= i < NPROC ==>
        proc[i].state != UNUSED
      ensures r.Some? ==> r.value < NPROC && old(proc)[r.value].state == UNUSED
      ensures r.Some? ==> forall i :: 0 <= i < r.value ==> old(proc)[i].state != UNUSED
      ensures r.Some? ==>
        proc == old(proc)[r.value := old(proc)[r.value].(state := EMBRYO, pid := old(nextpid))] &&
        nextpid == old(nextpid) + 1
    {
      hide Reaping, WaitsRightly;
      var p := 0;
      while p < NPROC
        invariant p <= NPROC && forall i :: 0 <= i < p ==> proc[i].state != UNUSED
      {
        if proc[p].state == UNUSED {
          var q := proc[p].(state := EMBRYO, pid := nextpid);
          assert Family(proc, init, p);
          BuiltOk(proc, init, p, q);
          BuiltReaping(proc, p, q, nextpid, nextpid + 1, exited, reaped);
          proc := proc[p := q];
          nextpid := nextpid + 1;
          return Some(p);
        }
        p := p + 1;
      }
      return None;
    }

    /** fork gives up on a child whose memory could not be copied. */
    method ForkAbort(np: nat)
      requires Valid() && np < NPROC && proc[np].state == EMBRYO && proc[np].parent == None
      modifies this`proc
      ensures Valid() && proc == old(proc)[np := old(proc)[np].(state := UNUSED)]
    {
      assert Family(proc, init, np);
      BuiltOk(proc, init, np, proc[np].(state := UNUSED));
      BuiltReaping(proc, np, proc[np].(state := UNUSED), nextpid, nextpid, exited, reaped);
      proc := proc[np := proc[np].(state := UNUSED)];
    }

    /** fork by the running process p: np->parent = proc. */
    method ForkParent(np: nat, p: nat)
      requires Valid() && np < NPROC && proc[np].state == EMBRYO && proc[np].parent == None
      requires p < NPROC && proc[p].state == RUNNING
      modifies this`proc
      ensures Valid() && proc == old(proc)[np := old(proc)[np].(parent := Some(p))]
    {
      BuiltOk(proc, init, np, proc[np].(parent := Some(p)));
      BuiltReaping(proc, np, proc[np].(parent := Some(p)), nextpid, nextpid, exited, reaped);
      proc := proc[np := proc[np].(parent := Some(p))];
    }

    /** fork returns: np->state = RUNNABLE. */
    method ForkDone(np: nat)
      requires Valid() && np < NPROC && proc[np].state == EMBRYO && proc[np].parent.Some?
      modifies this`proc
      ensures Valid() && proc == old(proc)[np := old(proc)[np].(state := RUNNABLE)]
    {
      assert Family(proc, init, np);
      BuiltOk(proc, init, np, proc[np].(state := RUNNABLE));
      BuiltReaping(proc, np, proc[np].(state := RUNNABLE), nextpid, nextpid, exited, reaped);
      proc := proc[np := proc[np].(state := RUNNABLE)];
    }

    /** wakeup1: everybody SLEEPING on c becomes RUNNABLE and nothing else changes. */
    method Wakeup1(c: Chan)
      modifies this`proc
      ensures |proc| == |old(proc)| && forall i :: 0 <= i < |proc| ==> proc[i] == Wake(old(proc)[i], c)
      ensures forall i :: 0 <= i < |proc| && old(proc)[i].state == SLEEPING && old(proc)[i].chan == Some(c) ==>
        proc[i] == old(proc)[i].(state := RUNNABLE)
      ensures forall i :: 0 <= i < |proc| && !(old(proc)[i].state == SLEEPING && old(proc)[i].chan == Some(c)) ==>
        proc[i] == old(proc)[i]
    {
      var p := 0;
      while p < |proc|
        invariant p <= |proc| == |old(proc)|
        invariant forall i :: 0 <= i < p ==> proc[i] == Wake(old(proc)[i], c)
        invariant forall i :: p <= i < |proc| ==> proc[i] == old(proc)[i]
      {
        if proc[p].state == SLEEPING && proc[p].chan == Some(c) {
          proc := proc[p := proc[p].(state := RUNNABLE)];
        }
        p := p + 1;
      }
    }

    method Wakeup(c: Chan)
      requires Valid()
      modifies this`proc
      ensures Valid() && |proc| == |old(proc)|
      ensures forall i :: 0 <= i < |proc| && old(proc)[i].state == SLEEPING && old(proc)[i].chan == Some(c) ==>
        proc[i] == old(proc)[i].(state := RUNNABLE)
      ensures forall i :: 0 <= i < |proc| && !(old(proc)[i].state == SLEEPING && old(proc)[i].chan == Some(c)) ==>
        proc[i] == old(proc)[i]
    {
      Wakeup1(c);
      RescheduledOk(old(proc), proc, init);
      RescheduledReaping(old(proc), proc, nextpid, exited, reaped);
    }

    /** exit: p becomes a zombie of a parent that is awake, and its children go to init. */
    method Exit(p: nat)
      requires Valid() && p < NPROC && proc[p].state == RUNNING && p != init
      modifies this`proc, this`exited
      ensures Valid() && Exited(old(proc), proc, p, init) && exited == old(exited) + {old(proc)[p].pid}
      ensures |proc| == |old(proc)| && proc[p] == old(proc)[p].(state := ZOMBIE)
      ensures forall i :: 0 <= i < |proc| && i != p ==>
        && proc[i].pid == old(proc)[i].pid && proc[i].killed == old(proc)[i].killed && proc[i].chan == old(proc)[i].chan
        && proc[i].parent == if old(proc)[i].parent == Some(p) then Some(init) else old(proc)[i].parent
      ensures old(proc)[p].parent.Some? && forall i :: 0 <= i < |proc| && i != p ==>
        var q, parent := old(proc)[i], old(proc)[p].parent.value;
        var inherits := exists k :: 0 <= k < |proc| && old(proc)[k].parent == Some(p) && old(proc)[k].state == ZOMBIE;
        var waits := q.chan == Some(OfProc(parent)) || (inherits && q.chan == Some(OfProc(init)));
        proc[i].state == if q.state == SLEEPING && waits then RUNNABLE else q.state
    {
      hide Reaping, Pids, WaitsRightly;
      assert Family(proc, init, p);
      var parent := proc[p].parent.value;
      Wakeup1(OfProc(parent));
      Abandon(p, parent, old(proc));
      proc := proc[p := proc[p].(state := ZOMBIE)];
      exited := exited + {proc[p].pid};
      ExitedOk(old(proc), proc, p, init);
      ExitedReaping(old(proc), proc, p, init, nextpid, old(exited), reaped);
      ExitedStates(old(proc), proc, p, init);
    }

    /** The loop that passes abandoned children to init. */
    method Abandon(p: nat, parent: nat, ghost ps: Table)
      requires |proc| == |ps| && p < |ps| && ps[p].state == RUNNING && ps[p].parent == Some(parent) && parent != p
      requires forall i :: 0 <= i < |ps| ==> proc[i] == Wake(ps[i], OfProc(parent))
      modifies this`proc
      ensures |proc| == |ps|
      ensures forall i :: 0 <= i < |ps| ==> proc[i] == AfterExit(ps[i], p, parent, init, OrphanZombie(ps, p, |ps|))
      ensures proc[p] == ps[p]
    {
      hide OrphanZombie;
      var i := 0;
      ghost var z := false;
      NoOrphans(ps, p);
      while i < |proc|
        invariant i <= |proc| == |ps| && z == OrphanZombie(ps, p, i)
        invariant forall j :: 0 <= j < i ==> proc[j] == AfterExit(ps[j], p, parent, init, z)
        invariant forall j :: i <= j < |ps| ==> proc[j] == AfterExit(ps[j], p, parent, init, z).(parent := ps[j].parent)
      {
        OneMoreOrphan(ps, p, i);
        if proc[i].parent == Some(p) {
          proc := proc[i := proc[i].(parent := Some(init))];
          if proc[i].state == ZOMBIE {
            Wakeup1(OfProc(init));
            z := true;
          }
        }
        i := i + 1;
      }
    }

    /** One pass of wait's loop by process p: the lowest zombie child is reaped; without one, p fails when it is
        childless or killed, and otherwise goes to sleep. */
    method Wait(p: nat) returns (r: WaitResult)
      requires Valid() && p < NPROC && proc[p].state == RUNNING
      modifies this`proc, this`reaped
      ensures Valid()
      ensures match r
        case Child(pid) =>
          exists i :: 0 <= i < NPROC && FirstZombie(old(proc), p, i) && pid == old(proc)[i].pid
                      && proc == old(proc)[i := proc[i]]
                      && proc[i] == Process(UNUSED, 0, None, old(proc)[i].chan, false)
                      && reaped == old(reaped) + [pid]
        case Failed =>
          proc == old(proc) && reaped == old(reaped) &&
            (Childless(proc, p, NPROC) || (proc[p].killed && NoZombie(proc, p, NPROC)))
        case Slept =>
          reaped == old(reaped) && NoZombie(proc, p, NPROC) && !old(proc)[p].killed
          && proc == old(proc)[p := old(proc)[p].(state := SLEEPING, chan := Some(OfProc(p)))]
    {
      hide Reaping, Pids;
      var i, havekids := 0, false;
      while i < NPROC
        invariant i <= NPROC && NoZombie(proc, p, i) && (havekids <==> !Childless(proc, p, i))
      {
        if proc[i].parent == Some(p) {
          havekids := true;
          assert ChildOf(proc, i, p);
          if proc[i].state == ZOMBIE {
            assert FirstZombie(proc, p, i);
            ReapedOk(proc, init, p, i);
            ReapedReaping(proc, i, nextpid, exited, reaped);
            var pid := proc[i].pid;
            proc := proc[i := Process(UNUSED, 0, None, proc[i].chan, false)];
            reaped := reaped + [pid];
            return Child(pid);
          }
        }
        i := i + 1;
      }
      if !havekids || proc[p].killed {
        return Failed;
      }
      SleptOk(proc, init, p);
      SleptReaping(proc, p, nextpid, exited, reaped);
      proc := proc[p := proc[p].(state := SLEEPING, chan := Some(OfProc(p)))];
      return Slept;
    }

    /** kill marks the first slot with that pid and gets it out of sleep. */
    method Kill(pid: nat) returns (found: bool)
      requires Valid()
      modifies this`proc
      ensures Valid() && |proc| == |old(proc)|
      ensures found <==> exists i :: 0 <= i < NPROC && old(proc)[i].pid == pid
      ensures forall i :: 0 <= i < NPROC ==>
        if !FirstWithPid(old(proc), pid, i) then proc[i] == old(proc)[i]
        else if old(proc)[i].state == SLEEPING then proc[i] == old(proc)[i].(killed := true, state := RUNNABLE)
        else proc[i] == old(proc)[i].(killed := true)
    {
      hide Reaping, Pids, Ok;
      SizeOk(proc, init);
      var p := 0;
      while p < NPROC
        invariant p <= NPROC && forall j :: 0 <= j < p ==> proc[j].pid != pid
      {
        if proc[p].pid == pid {
          var qs := proc[p := Killed(proc[p])];
          RescheduledOk(proc, qs, init);
          RescheduledReaping(proc, qs, nextpid, exited, reaped);
          proc := proc[p := proc[p].(killed := true)];
          if proc[p].state == SLEEPING {
            proc := proc[p := proc[p].(state := RUNNABLE)];
          }
          assert proc == qs;
          return true;
        }
        p := p + 1;
      }
      return false;
    }

    /** sleep on any channel but a process's own entry. */
    method Sleep(p: nat, addr: nat)
      requires Valid() && p < NPROC && proc[p].state == RUNNING
      modifies this`proc
      ensures Valid() && proc == old(proc)[p := old(proc)[p].(state := SLEEPING, chan := Some(Other(addr)))]
    {
      var qs := proc[p := proc[p].(chan := Some(Other(addr)), state := SLEEPING)];
      RescheduledOk(proc, qs, init);
      RescheduledReaping(proc, qs, nextpid, exited, reaped);
      proc := qs;
    }

    /** scheduler picks a RUNNABLE process, and sleep tidies up once switched to. */
    method Dispatch(p: nat)
      requires Valid() && p < NPROC && proc[p].state == RUNNABLE
      modifies this`proc
      ensures Valid() && proc == old(proc)[p := old(proc)[p].(state := RUNNING, chan := None)]
    {
      var qs := proc[p := proc[p].(state := RUNNING, chan := None)];
      RescheduledOk(proc, qs, init);
      RescheduledReaping(proc, qs, nextpid, exited, reaped);
      proc := qs;
    }

    method Yield(p: nat)
      requires Valid() && p < NPROC && proc[p].state == RUNNING
      modifies this`proc
      ensures Valid() && proc == old(proc)[p := old(proc)[p].(state := RUNNABLE)]
    {
      var qs := proc[p := proc[p].(state := RUNNABLE)];
      RescheduledOk(proc, qs, init);
      RescheduledReaping(proc, qs, nextpid, exited, reaped);
      proc := qs;
    }
  }

  function Killed(p: Process): Process {
    p.(killed := true, state := if p.state == SLEEPING then RUNNABLE else p.state)
  }

  predicate FirstWithPid(ps: Table, pid: nat, i: nat) {
    i < |ps| && ps[i].pid == pid && forall j :: 0 <= j < i ==> ps[j].pid != pid
  }

  lemma SizeOk(ps: Table, init: nat)
    requires Ok(ps, init)
    ensures |ps| == NPROC
  {
  }

  ghost predicate NoZombie(ps: Table, p: nat, n: nat) {
    n <= |ps| && forall i :: 0 <= i < n && ChildOf(ps, i, p) ==> ps[i].state != ZOMBIE
  }

  ghost predicate Childless(ps: Table, p: nat, n: nat) {
    n <= |ps| && forall i :: 0 <= i < n ==> !ChildOf(ps, i, p)
  }

  ghost predicate FirstZombie(ps: Table, p: nat, i: nat) {
    i < |ps| && ChildOf(ps, i, p) && ps[i].state == ZOMBIE && NoZombie(ps, p, i)
  }

  lemma SleptOk(ps: Table, init: nat, p: nat)
    requires Ok(ps, init) && p < |ps| && ps[p].state == RUNNING && NoZombie(ps, p, |ps|) && !Childless(ps, p, |ps|)
    ensures Ok(ps[p := ps[p].(state := SLEEPING, chan := Some(OfProc(p)))], init)
  {
    var qs := ps[p := ps[p].(state := SLEEPING, chan := Some(OfProc(p)))];
    forall i | 0 <= i < |qs| ensures Family(qs, init, i) {
      assert Family(ps, init, i);
    }
    forall q | 0 <= q < |qs| ensures WaitsRightly(qs, q) {
      assert WaitsRightly(ps, q);
      if Waiting(qs, q) {
        var i :| 0 <= i < |ps| && ChildOf(ps, i, q);
        assert ChildOf(qs, i, q);
        assert forall j :: 0 <= j < |qs| && ChildOf(qs, j, q) ==> ChildOf(ps, j, q);
      }
    }
  }

  lemma SleptReaping(ps: Table, p: nat, nextpid: nat, exited: set<nat>, reaped: seq<nat>)
    requires Pids(ps, nextpid) && Reaping(ps, nextpid, exited, reaped) && p < |ps| && ps[p].state == RUNNING
    ensures var qs := ps[p := ps[p].(state := SLEEPING, chan := Some(OfProc(p)))];
      Pids(qs, nextpid) && Reaping(qs, nextpid, exited, reaped)
  {
    var qs := ps[p := ps[p].(state := SLEEPING, chan := Some(OfProc(p)))];
    forall k | k in exited && k !in reaped ensures exists j ::
      0 <= j < |qs| && qs[j].state == ZOMBIE && qs[j].pid == k {
      var j :| 0 <= j < |ps| && ps[j].state == ZOMBIE && ps[j].pid == k;
      assert qs[j].state == ZOMBIE && qs[j].pid == k;
    }
  }

  lemma NoOrphans(ps: Table, p: nat)
    ensures !OrphanZombie(ps, p, 0)
  {
  }

  lemma OneMoreOrphan(ps: Table, p: nat, i: nat)
    requires i < |ps|
    ensures OrphanZombie(ps, p, i + 1) <==> OrphanZombie(ps, p, i) || (ChildOf(ps, i, p) && ps[i].state == ZOMBIE)
  {
  }
}

/** The sleep/wakeup protocol (kernel/proc.c, kernel/spinlock.c) as a step relation over any number of processes, locks
    and channels. */
module Sleep {
  const PTABLE: nat := 0               // ptable.lock

  type Guard = nat -> nat              // which lock protects the condition of a channel

  /** The lock a process is in the critical section of while it runs wakeup, if any. */
  datatype Inside = NoLock | Under(l: nat)

  /** Where a process stands. `dirty` holds the channels whose condition it has set without having called wakeup yet. */
  datatype Pc =
    | Idle(dirty: set<nat>)
    | Hold(lk: nat, dirty: set<nat>)          // inside its critical section
    | Sleep0(chan: nat)                       // in sleep, about to acquire ptable.lock
    | Sleep1(chan: nat)                       // holds both locks, about to release lk
    | Sleep2(chan: nat)                       // holds ptable.lock, about to set chan and state
    | Asleep(chan: nat, sleeping: bool)       // switched out: SLEEPING, or RUNNABLE again
    | Resumed(chan: nat)                      // back from sched with ptable.lock
    | Relock(chan: nat)                       // about to reacquire lk
    | Wake0(chan: nat, lock: Inside, dirty: set<nat>)         // in wakeup, about to acquire ptable.lock
    | Wake1(chan: nat, lock: Inside, i: nat, dirty: set<nat>) // in wakeup1's loop at table index i

  datatype Holder = ByProc(p: nat) | BySched

  datatype State = State(procs: seq<Pc>, owner: map<nat, Holder>, cond: set<nat>)

  datatype Op =
    | Acquire(lk: nat)
    | Release
    | Clear(chan: nat)         // the condition stops holding
    | Change(chan: nat)        // the condition comes to hold
    | CallSleep(chan: nat)
    | SleepLock
    | SleepUnlock
    | Sched
    | SchedRelease             // the scheduler lets ptable.lock go
    | Dispatch
    | Return
    | Reacquire
    | CallWakeup(chan: nat)
    | WakeLock
    | WakeStep
    | WakeDone
    | Kill(q: nat)

  /** Process p performs op. */
  datatype Act = Act(p: nat, op: Op)

  predicate Free(s: State, l: nat) { l !in s.owner }

  /** ptable.lock is free or with the scheduler, which may switch straight to the next process. */
  predicate CanDispatch(s: State) { PTABLE !in s.owner || s.owner[PTABLE].BySched? }

  predicate Enabled(guard: Guard, s: State, a: Act) {
    a.p < |s.procs| &&
    var p := a.p;
    match a.op
    case Acquire(l) => s.procs[p].Idle? && Free(s, l)
    case Release => s.procs[p].Hold?
    case Clear(c) => s.procs[p].Hold? && guard(c) == s.procs[p].lk
    case Change(c) => s.procs[p].Hold? && guard(c) == s.procs[p].lk
    case CallSleep(c) => s.procs[p].Hold? && guard(c) == s.procs[p].lk && s.procs[p].dirty == {} && c !in s.cond
    case SleepLock => s.procs[p].Sleep0? && Free(s, PTABLE)
    case SleepUnlock => s.procs[p].Sleep1?
    case Sched => s.procs[p].Sleep2?
    case SchedRelease => PTABLE in s.owner && s.owner[PTABLE].BySched?
    case Dispatch => s.procs[p].Asleep? && !s.procs[p].sleeping && CanDispatch(s)
    case Return => s.procs[p].Resumed?
    case Reacquire => s.procs[p].Relock? && Free(s, guard(s.procs[p].chan))
    case CallWakeup(c) => s.procs[p].Hold? || s.procs[p].Idle?
    case WakeLock => s.procs[p].Wake0? && Free(s, PTABLE)
    case WakeStep => s.procs[p].Wake1? && s.procs[p].i < |s.procs|
    case WakeDone => s.procs[p].Wake1? && s.procs[p].i == |s.procs|
    case Kill(q) => s.procs[p].Idle? && Free(s, PTABLE) && q < |s.procs| && s.procs[q].Asleep?
  }

  function At(s: State, p: nat, pc: Pc): State
    requires p < |s.procs|
  {
    s.(procs := s.procs[p := pc])
  }

  function Lock(s: State, l: nat, h: Holder): State { s.(owner := s.owner[l := h]) }

  function Unlock(s: State, l: nat): State { s.(owner := s.owner - {l}) }

  function Step(guard: Guard, s: State, a: Act): State
    requires Enabled(guard, s, a)
  {
    var p := a.p;
    match a.op
    case Acquire(l) => Lock(At(s, p, Hold(l, s.procs[p].dirty)), l, ByProc(p))
    case Release => Unlock(At(s, p, Idle(s.procs[p].dirty)), s.procs[p].lk)
    case Clear(c) => s.(cond := s.cond - {c})
    case Change(c) => At(s, p, Hold(s.procs[p].lk, s.procs[p].dirty + {c})).(cond := s.cond + {c})
    case CallSleep(c) => At(s, p, if guard(c) == PTABLE then Sleep2(c) else Sleep0(c))
    case SleepLock => Lock(At(s, p, Sleep1(s.procs[p].chan)), PTABLE, ByProc(p))
    case SleepUnlock => Unlock(At(s, p, Sleep2(s.procs[p].chan)), guard(s.procs[p].chan))
    case Sched => Lock(At(s, p, Asleep(s.procs[p].chan, true)), PTABLE, BySched)
    case SchedRelease => Unlock(s, PTABLE)
    case Dispatch => Lock(At(s, p, Resumed(s.procs[p].chan)), PTABLE, ByProc(p))
    case Return =>
      var c := s.procs[p].chan;
      if guard(c) == PTABLE then At(s, p, Hold(PTABLE, {})) else Unlock(At(s, p, Relock(c)), PTABLE)
    case Reacquire =>
      var l := guard(s.procs[p].chan);
      Lock(At(s, p, Hold(l, {})), l, ByProc(p))
    case CallWakeup(c) =>
      var d, l := s.procs[p].dirty, if s.procs[p].Hold? then Under(s.procs[p].lk) else NoLock;
      At(s, p, if l == Under(PTABLE) then Wake1(c, l, 0, d) else Wake0(c, l, d))
    case WakeLock => Lock(At(s, p, Wake1(s.procs[p].chan, s.procs[p].lock, 0, s.procs[p].dirty)), PTABLE, ByProc(p))
    case WakeStep =>
      var w := s.procs[p];
      var t := At(s, p, w.(i := w.i + 1));
      if s.procs[w.i] == Asleep(w.chan, true) then At(t, w.i, Asleep(w.chan, false)) else t
    case WakeDone =>
      var d, l := s.procs[p].dirty - {s.procs[p].chan}, s.procs[p].lock;
      var t := At(s, p, if l.NoLock? then Idle(d) else Hold(l.l, d));
      if l == Under(PTABLE) then t else Unlock(t, PTABLE)
    case Kill(q) => At(s, q, Asleep(s.procs[q].chan, false))
  }

  predicate Init(s: State) {
    s.owner == map[] && forall p :: 0 <= p < |s.procs| ==> s.procs[p] == Idle({})
  }

  function Run(guard: Guard, s: State, acts: seq<Act>): State
    requires Runs(guard, s, acts)
    decreases acts
  {
    if acts == [] then s else Run(guard, Step(guard, s, acts[0]), acts[1..])
  }

  predicate Runs(guard: Guard, s: State, acts: seq<Act>)
    decreases acts
  {
    acts != [] ==> Enabled(guard, s, acts[0]) && Runs(guard, Step(guard, s, acts[0]), acts[1..])
  }

  // ---- the invariant ----

  predicate Holds(guard: Guard, pc: Pc, l: nat) {
    match pc
    case Hold(m, _) => l == m
    case Sleep0(c) => l == guard(c)
    case Sleep1(c) => l == guard(c) || l == PTABLE
    case Sleep2(_) => l == PTABLE
    case Resumed(_) => l == PTABLE
    case Wake0(_, k, _) => k == Under(l)
    case Wake1(_, k, _, _) => k == Under(l) || l == PTABLE
    case _ => false
  }

  /** A process holds a lock exactly when the lock names it; only ptable.lock passes to the scheduler. */
  ghost predicate Exclusive(guard: Guard, s: State) {
    && (forall p, l :: 0 <= p < |s.procs| ==> HolderAt(guard, s, p, l))
    && (forall l :: l in s.owner && s.owner[l].BySched? ==> l == PTABLE)
  }

  /** Process pc still owes the sleeper at index p a wakeup on c. */
  predicate Owes(pc: Pc, c: nat, p: nat) {
    match pc
    case Idle(d) => c in d
    case Hold(_, d) => c in d
    case Wake0(_, _, d) => c in d
    case Wake1(b, _, i, d) => c in d && (b == c ==> i <= p)
    case _ => false
  }

  ghost predicate Pending(s: State, c: nat, p: nat) {
    exists q :: 0 <= q < |s.procs| && Owes(s.procs[q], c, p)
  }

  /** Going to sleep or asleep on c without a wakeup under way means that the condition does not hold. */
  ghost predicate Covered(s: State, p: nat, c: nat) {
    c in s.cond ==> Pending(s, c, p)
  }

  ghost predicate PcOk(guard: Guard, s: State, p: nat)
    requires p < |s.procs|
  {
    match s.procs[p]
    case Sleep0(c) => guard(c) != PTABLE && c !in s.cond
    case Sleep1(c) => guard(c) != PTABLE && c !in s.cond
    case Sleep2(c) => Covered(s, p, c)
    case Asleep(c, sleeping) => sleeping ==> Covered(s, p, c)
    case Relock(c) => guard(c) != PTABLE
    case Wake0(_, l, _) => l != Under(PTABLE)
    case Wake1(b, _, i, _) => i <= |s.procs| && forall q :: 0 <= q < i ==> s.procs[q] != Asleep(b, true)
    case _ => true
  }

  ghost predicate Inv(guard: Guard, s: State) {
    Exclusive(guard, s) && forall p :: 0 <= p < |s.procs| ==> PcOk(guard, s, p)
  }

  predicate HolderAt(guard: Guard, s: State, p: nat, l: nat)
    requires p < |s.procs|
  {
    Holds(guard, s.procs[p], l) <==> l in s.owner && s.owner[l] == ByProc(p)
  }

  /** Two processes never hold the same lock. */
  lemma MutualExclusion(guard: Guard, s: State, p: nat, q: nat, l: nat)
    requires Exclusive(guard, s) && p < |s.procs| && q < |s.procs|
    requires Holds(guard, s.procs[p], l) && Holds(guard, s.procs[q], l)
    ensures p == q
  {
    assert HolderAt(guard, s, p, l) && HolderAt(guard, s, q, l);
  }

  lemma HolderStep(guard: Guard, s: State, a: Act, q: nat, l: nat)
    requires Enabled(guard, s, a) && q < |s.procs| && HolderAt(guard, s, q, l)
    requires forall k :: k in s.owner && s.owner[k].BySched? ==> k == PTABLE
    requires PcOk(guard, s, a.p) && HolderAt(guard, s, a.p, l) && HolderAt(guard, s, a.p, PTABLE)
    ensures HolderAt(guard, Step(guard, s, a), q, l)
  {
    hide Covered, Step, Enabled, HolderAt, PcOk;
    if q == a.p {
      HolderSelf(guard, s, a, l);
    } else {
      HolderOther(guard, s, a, q, l);
    }
  }

  lemma HolderSelf(guard: Guard, s: State, a: Act, l: nat)
    requires Enabled(guard, s, a) && PcOk(guard, s, a.p) && HolderAt(guard, s, a.p, l) &&
      HolderAt(guard, s, a.p, PTABLE)
    requires forall k :: k in s.owner && s.owner[k].BySched? ==> k == PTABLE
    ensures HolderAt(guard, Step(guard, s, a), a.p, l)
  {
    hide Covered;
  }

  lemma HolderOther(guard: Guard, s: State, a: Act, q: nat, l: nat)
    requires Enabled(guard, s, a) && PcOk(guard, s, a.p) && q < |s.procs| && q != a.p && HolderAt(guard, s, q, l)
    requires HolderAt(guard, s, a.p, l) && HolderAt(guard, s, a.p, PTABLE)
    requires forall k :: k in s.owner && s.owner[k].BySched? ==> k == PTABLE
    ensures HolderAt(guard, Step(guard, s, a), q, l)
  {
    hide Covered;
  }

  lemma ExclusiveStep(guard: Guard, s: State, a: Act)
    requires Inv(guard, s) && Enabled(guard, s, a)
    ensures Exclusive(guard, Step(guard, s, a))
  {
    hide Holds, PcOk, HolderAt;
    var t := Step(guard, s, a);
    forall q, l | 0 <= q < |s.procs| ensures HolderAt(guard, t, q, l) {
      HolderStep(guard, s, a, q, l);
    }
  }

  /** No step loses a wakeup that a process on its way to sleep, or asleep, still has coming. */
  lemma PendingKept(guard: Guard, s: State, a: Act, q: nat, c: nat)
    requires Inv(guard, s) && Enabled(guard, s, a) && q < |s.procs| && Pending(s, c, q)
    requires Step(guard, s, a).procs[q] in {Sleep2(c), Asleep(c, true)}
    requires s.procs[q] in {Sleep2(c), Asleep(c, true)}
    ensures Pending(Step(guard, s, a), c, q)
  {
    var t := Step(guard, s, a);
    var r :| 0 <= r < |s.procs| && Owes(s.procs[r], c, q);
    assert PcOk(guard, s, r);
    if s.procs[q].Sleep2? && s.procs[r].Wake1? {
      MutualExclusion(guard, s, q, r, PTABLE);
    }
    hide Exclusive, PcOk, Pending;
    OwesStill(guard, s, a, q, c, r);
    assert Pending(t, c, q);
  }

  lemma OwesStill(guard: Guard, s: State, a: Act, q: nat, c: nat, r: nat)
    requires Enabled(guard, s, a) && q < |s.procs| && r < |s.procs| && r != q && Owes(s.procs[r], c, q)
    requires Step(guard, s, a).procs[q] in {Sleep2(c), Asleep(c, true)} && s.procs[q] in {Sleep2(c), Asleep(c, true)}
    requires s.procs[q].Sleep2? ==> !s.procs[r].Wake1?
    requires s.procs[r].Wake1? ==> s.procs[r].i <= |s.procs|
    ensures Owes(Step(guard, s, a).procs[r], c, q)
  {
  }

  lemma CoveredStep(guard: Guard, s: State, a: Act, q: nat, c: nat)
    requires Inv(guard, s) && Enabled(guard, s, a) && q < |s.procs| && Covered(s, q, c)
    requires Step(guard, s, a).procs[q] in {Sleep2(c), Asleep(c, true)}
    requires s.procs[q] in {Sleep2(c), Asleep(c, true)}
    ensures Covered(Step(guard, s, a), q, c)
  {
    if c in s.cond {
      PendingKept(guard, s, a, q, c);
    } else if a.op == Change(c) {
      assert Owes(Step(guard, s, a).procs[a.p], c, q);
    }
  }

  /** While wakeup1 scans under ptable.lock, nobody can fall asleep behind the scan. */
  lemma ScanKept(guard: Guard, s: State, a: Act, q: nat)
    requires Inv(guard, s) && Enabled(guard, s, a) && q < |s.procs| && q != a.p && s.procs[q].Wake1?
    ensures PcOk(guard, Step(guard, s, a), q)
  {
    hide Covered, HolderAt;
    assert PcOk(guard, s, q);
    if a.op.Sched? {
      MutualExclusion(guard, s, a.p, q, PTABLE);
    }
  }

  /** While a process enters sleep holding lk, nobody can change the condition it tested. */
  lemma EntryKept(guard: Guard, s: State, a: Act, q: nat)
    requires Inv(guard, s) && Enabled(guard, s, a) && q < |s.procs| && q != a.p &&
      (s.procs[q].Sleep0? || s.procs[q].Sleep1?)
    ensures PcOk(guard, Step(guard, s, a), q)
  {
    hide Covered, HolderAt;
    assert PcOk(guard, s, q);
    if a.op == Change(s.procs[q].chan) {
      MutualExclusion(guard, s, a.p, q, guard(s.procs[q].chan));
    }
  }

  /** What a step does to a process that did not take it. */
  lemma OtherStep(guard: Guard, s: State, a: Act, q: nat)
    requires Inv(guard, s) && Enabled(guard, s, a) && q < |s.procs| && q != a.p
    ensures PcOk(guard, Step(guard, s, a), q)
  {
    hide Covered, HolderAt, Exclusive;
    var t, pc := Step(guard, s, a), s.procs[q];
    assert PcOk(guard, s, q);
    if pc.Wake1? {
      ScanKept(guard, s, a, q);
    } else if pc.Sleep0? || pc.Sleep1? {
      EntryKept(guard, s, a, q);
    } else if pc.Sleep2? || (pc.Asleep? && pc.sleeping && t.procs[q] == pc) {
      CoveredStep(guard, s, a, q, pc.chan);
    }
  }

  lemma ActorStep(guard: Guard, s: State, a: Act)
    requires Inv(guard, s) && Enabled(guard, s, a)
    ensures PcOk(guard, Step(guard, s, a), a.p)
  {
    hide HolderAt;
    assert PcOk(guard, s, a.p);
    if s.procs[a.p].Sleep2? {
      CoveredStep(guard, s, a, a.p, s.procs[a.p].chan);
    }
  }

  lemma InvStep(guard: Guard, s: State, a: Act)
    requires Inv(guard, s) && Enabled(guard, s, a)
    ensures Inv(guard, Step(guard, s, a))
  {
    hide PcOk, Exclusive;
    ExclusiveStep(guard, s, a);
    var t := Step(guard, s, a);
    forall q | 0 <= q < |t.procs| ensures PcOk(guard, t, q) {
      if q == a.p {
        ActorStep(guard, s, a);
      } else {
        OtherStep(guard, s, a, q);
      }
    }
  }

  lemma {:induction false} InvRun(guard: Guard, s: State, acts: seq<Act>)
    requires Inv(guard, s) && Runs(guard, s, acts)
    ensures Inv(guard, Run(guard, s, acts))
    decreases acts
  {
    hide Inv, Step;
    if acts != [] {
      InvStep(guard, s, acts[0]);
      InvRun(guard, Step(guard, s, acts[0]), acts[1..]);
    }
  }

  lemma Reachable(guard: Guard, s: State, acts: seq<Act>)
    requires Init(s) && Runs(guard, s, acts)
    ensures Inv(guard, Run(guard, s, acts))
  {
    hide Runs, Run;
    InvRun(guard, s, acts);
  }

  lemma SleeperCovered(guard: Guard, s: State, p: nat, c: nat)
    requires Inv(guard, s) && p < |s.procs| && s.procs[p] == Asleep(c, true)
    ensures Covered(s, p, c)
  {
    assert PcOk(guard, s, p);
  }

  /** No lost wakeup: in every state of every run, a process is SLEEPING on a channel whose condition holds only while
      some process still has a wakeup on that channel to finish. Whether it will call it is up to that process: one that
      has made the condition true and never calls wakeup, as a killed pipe writer, owes it for good. */
  lemma NoLostWakeup(guard: Guard, s: State, acts: seq<Act>, p: nat, c: nat)
    requires Init(s) && Runs(guard, s, acts)
    requires var t := Run(guard, s, acts); p < |t.procs| && t.procs[p] == Asleep(c, true)
    ensures c in Run(guard, s, acts).cond ==> Pending(Run(guard, s, acts), c, p)
  {
    hide Pending, Runs, Run;
    Reachable(guard, s, acts);
    SleeperCovered(guard, Run(guard, s, acts), p, c);
  }

  /** When wakeup(c) has scanned the whole table, nobody is left SLEEPING on c. */
  lemma WakeupWakesAll(guard: Guard, s: State, acts: seq<Act>, q: nat, p: nat)
    requires Init(s) && Runs(guard, s, acts)
    requires var t := Run(guard, s, acts);
      q < |t.procs| && p < |t.procs| && t.procs[q].Wake1? && t.procs[q].i == |t.procs|
    ensures var t := Run(guard, s, acts); t.procs[p] != Asleep(t.procs[q].chan, true)
  {
    hide Pending, Runs, Run;
    Reachable(guard, s, acts);
    assert PcOk(guard, Run(guard, s, acts), q);
  }

  /** A wakeup on c that a process still has to make although it has left the critical section of c's lock. */
  ghost predicate Postponed(guard: Guard, s: State, c: nat) {
    exists q :: 0 <= q < |s.procs| && IsPostponed(guard, s.procs[q], c)
  }

  predicate IsPostponed(guard: Guard, pc: Pc, c: nat) {
    (pc.Idle? || pc.Hold? || pc.Wake0? || pc.Wake1?) && c in pc.dirty && !Holds(guard, pc, guard(c))
  }

  /** With lk free, everybody SLEEPING under it is right to sleep, unless a wakeup has been postponed past the
      release. */
  lemma SleepersWaitForCondition(guard: Guard, s: State, acts: seq<Act>, p: nat, c: nat)
    requires Init(s) && Runs(guard, s, acts) && Free(Run(guard, s, acts), guard(c))
    requires var t := Run(guard, s, acts); p < |t.procs| && t.procs[p] == Asleep(c, true)
    ensures c in Run(guard, s, acts).cond ==> Postponed(guard, Run(guard, s, acts), c)
  {
    hide Runs, Run, Holds;
    Reachable(guard, s, acts);
    var t := Run(guard, s, acts);
    SleeperCovered(guard, t, p, c);
    if Pending(t, c, p) {
      var q :| 0 <= q < |t.procs| && Owes(t.procs[q], c, p);
      assert HolderAt(guard, t, q, guard(c));
      assert IsPostponed(guard, t.procs[q], c);
    }
  }

  // ---- what sleep and wakeup come back with ----

  /** On the way into sleep on c, or SLEEPING. */
  predicate Dozing(pc: Pc, c: nat) { pc in {Sleep0(c), Sleep1(c), Sleep2(c), Asleep(c, true)} }

  /** Inside sleep on c. */
  predicate InSleep(pc: Pc, c: nat) { Dozing(pc, c) || pc in {Asleep(c, false), Resumed(c), Relock(c)} }

  /** The step that makes p RUNNABLE again: a wakeup on c comes by, or p is killed. */
  predicate Wakes(s: State, a: Act, p: nat, c: nat) {
    || a.op == Kill(p)
    || (a.op == WakeStep && a.p < |s.procs| && s.procs[a.p].Wake1? && s.procs[a.p].chan == c && s.procs[a.p].i == p)
  }

  /** Process p is inside sleep on c, or back from it with the lock of c in its hands. */
  predicate InSleepOrBack(guard: Guard, s: State, p: nat, c: nat) {
    && p < |s.procs|
    && (InSleep(s.procs[p], c) ||
       (s.procs[p] == Hold(guard(c), {}) && guard(c) in s.owner && s.owner[guard(c)] == ByProc(p)))
  }

  /** Whoever takes the next step, a process inside sleep on c stays there or returns with the lock it gave up. */
  lemma SleepReturnsLocked(guard: Guard, s: State, acts: seq<Act>, a: Act, p: nat, c: nat)
    requires Init(s) && Runs(guard, s, acts) && Enabled(guard, Run(guard, s, acts), a)
    requires p < |Run(guard, s, acts).procs| && InSleep(Run(guard, s, acts).procs[p], c)
    ensures InSleepOrBack(guard, Step(guard, Run(guard, s, acts), a), p, c)
  {
    hide Pending, Runs, Run;
    Reachable(guard, s, acts);
    assert HolderAt(guard, Run(guard, s, acts), p, PTABLE);
  }

  /** sleep on c does not return before a wakeup on c or a kill has found the process SLEEPING. */
  lemma {:induction false} ReturnsOnlyWoken(guard: Guard, s: State, acts: seq<Act>, p: nat, c: nat)
    requires Runs(guard, s, acts) && p < |s.procs| && Dozing(s.procs[p], c)
    requires p < |Run(guard, s, acts).procs| && !Dozing(Run(guard, s, acts).procs[p], c)
    ensures exists k :: 0 <= k < |acts| && WakesAt(guard, s, acts, k, p, c)
    decreases acts
  {
    hide Step, Enabled, Wakes;
    var t := Step(guard, s, acts[0]);
    DozesOn(guard, s, acts[0], p, c);
    if Dozing(t.procs[p], c) {
      ReturnsOnlyWoken(guard, t, acts[1..], p, c);
      var k :| 0 <= k < |acts[1..]| && WakesAt(guard, t, acts[1..], k, p, c);
      assert WakesAt(guard, s, acts, k + 1, p, c);
    } else {
      assert WakesAt(guard, s, acts, 0, p, c);
    }
  }

  /** Step k of the run wakes p, which is SLEEPING on c. */
  ghost predicate WakesAt(guard: Guard, s: State, acts: seq<Act>, k: nat, p: nat, c: nat)
    requires Runs(guard, s, acts) && k < |acts|
    decreases acts
  {
    if k == 0 then p < |s.procs| && s.procs[p] == Asleep(c, true) && Wakes(s, acts[0], p, c)
    else WakesAt(guard, Step(guard, s, acts[0]), acts[1..], k - 1, p, c)
  }

  lemma DozesOn(guard: Guard, s: State, a: Act, p: nat, c: nat)
    requires Enabled(guard, s, a) && p < |s.procs| && Dozing(s.procs[p], c)
    ensures |Step(guard, s, a).procs| == |s.procs|
    ensures Dozing(Step(guard, s, a).procs[p], c) || (s.procs[p] == Asleep(c, true) && Wakes(s, a, p, c))
  {
  }

  /** The lock a process called wakeup under, or is inside the critical section of. */
  function CallerLock(pc: Pc): Inside {
    match pc
    case Hold(l, _) => Under(l)
    case Wake0(_, l, _) => l
    case Wake1(_, l, _, _) => l
    case _ => NoLock
  }

  predicate InWakeup(pc: Pc) { pc.Wake0? || pc.Wake1? }

  predicate OwnedBy(s: State, l: nat, p: nat) { l in s.owner && s.owner[l] == ByProc(p) }

  /** Process p is inside wakeup, called under l, or back from it; back, it is inside the critical section of l if there
      is one and holds ptable.lock only if that is l. */
  predicate InWakeupOrBack(s: State, p: nat, l: Inside) {
    && p < |s.procs| && CallerLock(s.procs[p]) == l && (l.Under? ==> OwnedBy(s, l.l, p))
    && (InWakeup(s.procs[p]) ||
       ((if l.Under? then s.procs[p].Hold? else s.procs[p].Idle?) && (OwnedBy(s, PTABLE, p) <==> l == Under(PTABLE))))
  }

  /** wakeup returns with the locks it was called with: whoever takes the next step, a process that enters, runs or
      leaves wakeup keeps the lock it called it under, and has let ptable.lock go unless that is the one. */
  lemma WakeupKeepsLocks(guard: Guard, s: State, acts: seq<Act>, a: Act, p: nat)
    requires Init(s) && Runs(guard, s, acts) && Enabled(guard, Run(guard, s, acts), a)
    requires p < |Run(guard, s, acts).procs|
    requires InWakeup(Run(guard, s, acts).procs[p]) || (a.p == p && a.op.CallWakeup?)
    ensures InWakeupOrBack(Step(guard, Run(guard, s, acts), a), p, CallerLock(Run(guard, s, acts).procs[p]))
  {
    hide Pending, Runs, Run, Step, Enabled;
    Reachable(guard, s, acts);
    var r := Run(guard, s, acts);
    var t := Step(guard, r, a);
    InvStep(guard, r, a);
    WakeupPc(guard, r, a, p);
    var l := CallerLock(t.procs[p]);
    if l.Under? {
      assert HolderAt(guard, t, p, l.l);
    }
    assert HolderAt(guard, t, p, PTABLE);
  }

  lemma WakeupPc(guard: Guard, s: State, a: Act, p: nat)
    requires Enabled(guard, s, a) && p < |s.procs| && (InWakeup(s.procs[p]) || (a.p == p && a.op.CallWakeup?))
    ensures var pc := Step(guard, s, a).procs[p];
      CallerLock(pc) == CallerLock(s.procs[p]) && (InWakeup(pc) || pc.Hold? || pc.Idle?)
    ensures |Step(guard, s, a).procs| == |s.procs|
  {
  }

  // ---- code that calls wakeup before it releases ----

  /** Every process leaves its critical section with nothing owed. A killed pipe writer does not: it releases the pipe's
      lock after storing bytes and without a wakeup. */
  predicate Prompt(guard: Guard, s: State, acts: seq<Act>)
    requires Runs(guard, s, acts)
    decreases acts
  {
    acts != [] ==>
      && (acts[0].op == Release ==> s.procs[acts[0].p].dirty == {})
      && Prompt(guard, Step(guard, s, acts[0]), acts[1..])
  }

  /** What a process owes is guarded by the lock it is inside of. */
  ghost predicate OwesInside(guard: Guard, s: State) {
    forall p :: 0 <= p < |s.procs| ==> DirtyInside(guard, s.procs[p])
  }

  ghost predicate DirtyInside(guard: Guard, pc: Pc) {
    match pc
    case Idle(d) => d == {}
    case Hold(l, d) => forall c :: c in d ==> guard(c) == l
    case Wake0(_, k, d) => forall c :: c in d ==> k == Under(guard(c))
    case Wake1(_, k, _, d) => forall c :: c in d ==> k == Under(guard(c))
    case _ => true
  }

  lemma {:induction false} PromptRun(guard: Guard, s: State, acts: seq<Act>)
    requires OwesInside(guard, s) && Runs(guard, s, acts) && Prompt(guard, s, acts)
    ensures OwesInside(guard, Run(guard, s, acts))
    decreases acts
  {
    hide OwesInside, Step, Enabled;
    if acts != [] {
      PromptStep(guard, s, acts[0]);
      PromptRun(guard, Step(guard, s, acts[0]), acts[1..]);
    }
  }

  lemma PromptStep(guard: Guard, s: State, a: Act)
    requires OwesInside(guard, s) && Enabled(guard, s, a) && (a.op == Release ==> s.procs[a.p].dirty == {})
    ensures OwesInside(guard, Step(guard, s, a))
  {
    assert DirtyInside(guard, s.procs[a.p]);
  }

  /** In such a run, with lk free, nobody SLEEPING under it has a condition that holds. */
  lemma PromptSleepers(guard: Guard, s: State, acts: seq<Act>, p: nat, c: nat)
    requires Init(s) && Runs(guard, s, acts) && Prompt(guard, s, acts) && Free(Run(guard, s, acts), guard(c))
    requires var t := Run(guard, s, acts); p < |t.procs| && t.procs[p] == Asleep(c, true)
    ensures c !in Run(guard, s, acts).cond
  {
    hide Runs, Run, Prompt;
    SleepersWaitForCondition(guard, s, acts, p, c);
    PromptRun(guard, s, acts);
    var t := Run(guard, s, acts);
    forall q | 0 <= q < |t.procs| ensures !IsPostponed(guard, t.procs[q], c) {
      assert DirtyInside(guard, t.procs[q]);
    }
  }
}

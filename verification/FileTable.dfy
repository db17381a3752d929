/** Open files, descriptors and pipe ends (kernel/file.c, kernel/sysfile.c, and the descriptor loops of kernel/proc.c
    and kernel/pipe.c). */
module FileTable {
  import opened Options

  const NFILE: nat := 100
  const NOFILE: nat := 16

  datatype Kind = NoKind | PipeEnd(p: nat, writable: bool) | Inode(ip: nat)

  datatype File = File(ref: nat, kind: Kind)

  datatype Ends = Ends(readopen: bool, writeopen: bool)

  type Fds = seq<Option<nat>>
  type Pipes = map<nat, Ends>

  // ---- counting descriptors ----

  function One(b: bool): nat { if b then 1 else 0 }

  function Count(fds: Fds, f: nat): nat {
    if fds == [] then 0 else Count(fds[..|fds| - 1], f) + One(fds[|fds| - 1] == Some(f))
  }

  /** The descriptor slots, of all processes, that name file f. */
  function Named(os: seq<Fds>, f: nat): nat {
    if os == [] then 0 else Named(os[..|os| - 1], f) + Count(os[|os| - 1], f)
  }

  lemma {:induction false} CountUpdate(fds: Fds, k: nat, x: Option<nat>, f: nat)
    requires k < |fds|
    ensures Count(fds[k := x], f) == Count(fds, f) - One(fds[k] == Some(f)) + One(x == Some(f))
  {
    var init := fds[..|fds| - 1];
    if k < |fds| - 1 {
      CountUpdate(init, k, x, f);
      assert fds[k := x][..|fds| - 1] == init[k := x];
    } else {
      assert fds[k := x][..|fds| - 1] == init;
    }
  }

  lemma {:induction false} NamedUpdate(os: seq<Fds>, p: nat, fds: Fds, f: nat)
    requires p < |os|
    ensures Named(os[p := fds], f) == Named(os, f) - Count(os[p], f) + Count(fds, f)
  {
    var init := os[..|os| - 1];
    if p < |os| - 1 {
      NamedUpdate(init, p, fds, f);
      assert os[p := fds][..|os| - 1] == init[p := fds];
    } else {
      assert os[p := fds][..|os| - 1] == init;
    }
  }

  /** Storing x in descriptor k of process p. */
  lemma SlotUpdate(os: seq<Fds>, p: nat, k: nat, x: Option<nat>, f: nat)
    requires p < |os| && k < |os[p]|
    ensures Named(os[p := os[p][k := x]], f) == Named(os, f) - One(os[p][k] == Some(f)) + One(x == Some(f))
  {
    CountUpdate(os[p], k, x, f);
    NamedUpdate(os, p, os[p][k := x], f);
  }

  // ---- the table ----

  type Owed = map<nat, int>            // references a system call holds (or owes) beside the descriptors

  function Ex(e: Owed, f: nat): int { if f in e then e[f] else 0 }

  /** Every file's count is the number of descriptors that name it, give or take what a system call is about to
      settle. */
  ghost predicate Counted(file: seq<File>, os: seq<Fds>, e: Owed) {
    |file| == NFILE && forall f: nat :: f < NFILE ==> file[f].ref == Named(os, f) + Ex(e, f)
  }

  ghost predicate Slots(os: seq<Fds>) {
    forall p :: 0 <= p < |os| ==> |os[p]| == NOFILE && forall k :: 0 <= k < NOFILE && os[p][k].Some? ==>
      os[p][k].value < NFILE
  }

  /** A pipe that exists has an end open; an end is open exactly when it is a file, the one `ends` names. */
  ghost predicate Piped(file: seq<File>, pipes: Pipes, ends: map<(nat, bool), nat>, freed: set<nat>, nextpipe: nat) {
    && (forall f :: 0 <= f < |file| && file[f].kind != NoKind ==> file[f].ref > 0)
    && (forall f :: 0 <= f < |file| && file[f].kind.PipeEnd? ==>
          (file[f].kind.p, file[f].kind.writable) in ends && ends[(file[f].kind.p, file[f].kind.writable)] == f)
    && (forall p, w :: (p, w) in ends ==>
      p in pipes && ends[(p, w)] < |file| && file[ends[(p, w)]].kind == PipeEnd(p, w))
    && (forall p :: p in pipes ==> PipeOk(pipes[p], ends, p) && p < nextpipe && p !in freed)
    && (forall p :: p in freed ==> p < nextpipe)
  }

  predicate PipeOk(s: Ends, ends: map<(nat, bool), nat>, p: nat) {
    (s.readopen || s.writeopen) && (s.readopen <==> (p, false) in ends) && (s.writeopen <==> (p, true) in ends)
  }

  predicate NoFile(file: seq<File>) { forall f :: 0 <= f < |file| ==> file[f].ref > 0 }

  predicate NoFd(fds: Fds) { forall k :: 0 <= k < |fds| ==> fds[k].Some? }

  predicate TwoFiles(file: seq<File>) { exists f, g :: 0 <= f < g < |file| && file[f].ref == 0 && file[g].ref == 0 }

  predicate TwoFds(fds: Fds) { exists j, k :: 0 <= j < k < |fds| && fds[j].None? && fds[k].None? }

  /** Files in use stand for what they stood for. */
  predicate KindsKept(file: seq<File>, file': seq<File>) {
    |file| == |file'| && forall f :: 0 <= f < |file| && file'[f].ref > 0 ==> file'[f].kind == file[f].kind
  }

  /** What fileclose leaves of a file. */
  function Dropped(f: File): File
    requires f.ref > 0
  {
    if f.ref == 1 then File(0, NoKind) else f.(ref := f.ref - 1)
  }

  class Files {
    var file: seq<File>
    var ofile: seq<Fds>                // proc->ofile, by process
    var pipes: Pipes                   // pipe pages in use
    var nextpipe: nat                  // pages are told apart by the order of their allocation
    ghost var ends: map<(nat, bool), nat>
    ghost var freed: set<nat>          // pipes whose page has been given back
    ghost var owed: Owed

    ghost predicate Ok()
      reads this
    {
      Counted(file, ofile, owed) && Slots(ofile) && Piped(file, pipes, ends, freed, nextpipe)
    }

    /** Between system calls nothing is owed: counts and descriptors agree. */
    ghost predicate Valid()
      reads this
    {
      Ok() && owed == map[]
    }

    constructor (n: nat)
      ensures Valid() && |ofile| == n && pipes == map[] && freed == {}
    {
      file := seq(NFILE, _ => File(0, NoKind));
      ofile := seq(n, _ => seq(NOFILE, _ => None));
      pipes, nextpipe, ends, freed, owed := map[], 0, map[], {}, map[];
      new;
      forall f: nat ensures Named(ofile, f) == 0 {
        NoneNamed(ofile, f);
      }
    }

    /** filealloc: the first file nobody refers to; its caller holds the one reference. */
    method Filealloc() returns (r: Option<nat>)
      requires Ok()
      modifies this`file, this`owed
      ensures Ok() && (r.None? ==> file == old(file) && owed == old(owed) && NoFile(file))
      ensures r.Some? ==> |old(file)| == NFILE && forall k :: 0 <= k < r.value < NFILE ==> old(file)[k].ref > 0
      ensures r.Some? ==>
        r.value < NFILE && old(file)[r.value].ref == 0 && file == old(file)[r.value := File(1, NoKind)]
      ensures r.Some? ==> owed == old(owed)[r.value := Ex(old(owed), r.value) + 1]
    {
      hide Named;
      var f := 0;
      while f < NFILE
        invariant f <= NFILE && file == old(file) && owed == old(owed) && forall k :: 0 <= k < f ==> file[k].ref > 0
      {
        if file[f].ref == 0 {
          file := file[f := file[f].(ref := 1)];
          owed := owed[f := Ex(owed, f) + 1];
          return Some(f);
        }
        f := f + 1;
      }
      return None;
    }

    method Filedup(f: nat)
      requires Ok() && f < NFILE && file[f].ref > 0
      modifies this`file, this`owed
      ensures Ok() && file == old(file)[f := old(file)[f].(ref := old(file)[f].ref + 1)] &&
        owed == old(owed)[f := Ex(old(owed), f) + 1]
    {
      hide Named;
      file := file[f := file[f].(ref := file[f].ref + 1)];
      owed := owed[f := Ex(owed, f) + 1];
    }

    /** pipeclose of the end whose file has just gone: the page is freed when the other end is gone too. */
    method Pipeclose(p: nat, writable: bool)
      requires p in pipes
      modifies this`pipes, this`freed
      ensures pipes == ClosedPipes(old(pipes), p, writable) &&
        freed == if p in pipes then old(freed) else old(freed) + {p}
      ensures p in pipes <==> if writable then old(pipes)[p].readopen else old(pipes)[p].writeopen
      ensures p in pipes ==> pipes == old(pipes)[p := if writable then Ends(true, false) else Ends(false, true)]
      ensures p !in pipes ==> pipes == old(pipes) - {p}
    {
      if writable {
        pipes := pipes[p := pipes[p].(writeopen := false)];
      } else {
        pipes := pipes[p := pipes[p].(readopen := false)];
      }
      if !pipes[p].readopen && !pipes[p].writeopen {
        pipes := pipes - {p};
        freed := freed + {p};
      }
    }

    /** fileclose: one reference less; with the last one the file is free again, and a pipe end is closed. */
    method Fileclose(f: nat)
      requires Ok() && f < NFILE && file[f].ref > 0
      modifies this`file, this`owed, this`pipes, this`ends, this`freed
      ensures Ok() && owed == old(owed)[f := Ex(old(owed), f) - 1]
      ensures file == old(file)[f := Dropped(old(file)[f])] && file[f].ref == old(file)[f].ref - 1
      ensures file[f].kind == if old(file)[f].ref == 1 then NoKind else old(file)[f].kind
      ensures if old(file)[f].ref == 1 && old(file)[f].kind.PipeEnd?
        then
          var p, w := old(file)[f].kind.p, old(file)[f].kind.writable;
          && p in old(pipes) && pipes == ClosedPipes(old(pipes), p, w) && ends == old(ends) - {(p, w)}
          && freed == if (p, !w) in ends then old(freed) else old(freed) + {p}
        else pipes == old(pipes) && ends == old(ends) && freed == old(freed)
      ensures Freeing(old(pipes), old(freed), pipes, freed)
    {
      hide Named, Slots, Counted, Piped, ClosedPipes;
      ghost var files := file;
      FileCount(file, ofile, owed);
      FreeingNothing(file, pipes, ends, freed, nextpipe);
      var ref := file[f].ref - 1;
      file := file[f := file[f].(ref := ref)];
      if ref > 0 {
        Recount(files, ofile, owed, f, file[f]);
        SameKind(files, pipes, ends, freed, nextpipe, f, file[f]);
        owed := owed[f := Ex(owed, f) - 1];
        return;
      }
      var ff := file[f];
      file := file[f := File(0, NoKind)];
      assert file == files[f := File(0, NoKind)];
      Recount(files, ofile, owed, f, file[f]);
      owed := owed[f := Ex(owed, f) - 1];
      if ff.kind.PipeEnd? {
        EndClosed(files, pipes, ends, freed, nextpipe, f);
        Pipeclose(ff.kind.p, ff.kind.writable);
        ends := ends - {(ff.kind.p, ff.kind.writable)};
      } else {
        NoEnd(files, pipes, ends, freed, nextpipe, f, NoKind, 0);
      }
    }

    /** fdalloc: the lowest free descriptor of process p takes over the caller's reference to f. */
    method Fdalloc(p: nat, f: nat) returns (r: Option<nat>)
      requires Ok() && p < |ofile| && f < NFILE
      modifies this`ofile, this`owed
      ensures Ok() && |ofile| == |old(ofile)| && |ofile[p]| == NOFILE
      ensures |old(ofile)[p]| == NOFILE && (r.None? ==> ofile == old(ofile) && owed == old(owed) && NoFd(ofile[p]))
      ensures r.Some? ==> r.value < NOFILE && old(ofile)[p][r.value] == None && NoFd(old(ofile)[p][..r.value])
      ensures r.Some? ==>
        ofile == old(ofile)[p := old(ofile)[p][r.value := Some(f)]] && owed == old(owed)[f := Ex(old(owed), f) - 1]
    {
      hide Named, Counted, Piped;
      var fd := 0;
      while fd < NOFILE
        invariant fd <= NOFILE && ofile == old(ofile) && owed == old(owed) && forall k :: 0 <= k < fd ==>
          ofile[p][k].Some?
      {
        if ofile[p][fd].None? {
          SlotFilled(file, ofile, owed, p, fd, f);
          ofile := ofile[p := ofile[p][fd := Some(f)]];
          owed := owed[f := Ex(owed, f) - 1];
          return Some(fd);
        }
        fd := fd + 1;
      }
      return None;
    }

    /** A descriptor is cleared; its reference is now the caller's. */
    method Clear(p: nat, fd: nat)
      requires Ok() && p < |ofile| && |ofile[p]| == NOFILE && fd < NOFILE && ofile[p][fd].Some?
      modifies this`ofile, this`owed
      ensures Ok() && ofile == old(ofile)[p := old(ofile)[p][fd := None]]
      ensures owed == old(owed)[old(ofile)[p][fd].value := Ex(old(owed), old(ofile)[p][fd].value) + 1]
      ensures var f := old(ofile)[p][fd].value; f < NFILE && file[f].ref + 1 > Ex(owed, f)
    {
      hide Piped;
      var f := ofile[p][fd].value;
      SlotCleared(file, ofile, owed, p, fd);
      ofile := ofile[p := ofile[p][fd := None]];
      owed := owed[f := Ex(owed, f) + 1];
    }

    ghost method Settle()
      requires Ok() && forall f :: f in owed ==> owed[f] == 0
      modifies this`owed
      ensures Valid()
    {
      hide Named, Slots, Piped;
      owed := map[];
    }

    /** sys_dup */
    method Dup(p: nat, fd: nat) returns (r: Option<nat>)
      requires Valid() && p < |ofile|
      modifies this`file, this`ofile, this`owed
      ensures Valid() && (r.None? ==> file == old(file) && ofile == old(ofile))
      ensures r.None? <==> fd >= |old(ofile)[p]| || old(ofile)[p][fd].None? || NoFd(old(ofile)[p])
      ensures r.Some? ==> r.value < |old(ofile)[p]| && old(ofile)[p][r.value] == None && NoFd(old(ofile)[p][..r.value])
      ensures r.Some? ==> ofile == old(ofile)[p := old(ofile)[p][r.value := old(ofile)[p][fd]]]
      ensures r.Some? ==>
        var f := old(ofile)[p][fd].value;
        f < |old(file)| && file == old(file)[f := old(file)[f].(ref := old(file)[f].ref + 1)]
    {
      hide Named, Counted, Piped;
      FileCount(file, ofile, owed);
      if fd >= NOFILE || ofile[p][fd].None? {
        return None;
      }
      var f := ofile[p][fd].value;
      InUse(file, ofile, owed, p, fd);
      r := Fdalloc(p, f);
      if r.None? {
        return;
      }
      Filedup(f);
      Settle();
    }

    /** sys_close */
    method Close(p: nat, fd: nat) returns (ok: bool)
      requires Valid() && p < |ofile|
      modifies this`file, this`ofile, this`owed, this`pipes, this`ends, this`freed
      ensures Valid() && (ok <==> fd < |old(ofile)[p]| && old(ofile)[p][fd].Some?)
      ensures ofile == if ok then old(ofile)[p := old(ofile)[p][fd := None]] else old(ofile)
      ensures !ok ==> file == old(file) && pipes == old(pipes)
      ensures ok ==>
        var f := old(ofile)[p][fd].value;
        f < |old(file)| && old(file)[f].ref > 0 && file == old(file)[f := Dropped(old(file)[f])]
      ensures Freeing(old(pipes), old(freed), pipes, freed)
    {
      hide Named, Counted, Piped, ClosedPipes, Freeing;
      FreeingNothing(file, pipes, ends, freed, nextpipe);
      FileCount(file, ofile, owed);
      if fd >= NOFILE || ofile[p][fd].None? {
        return false;
      }
      var f := ofile[p][fd].value;
      InUse(file, ofile, owed, p, fd);
      Clear(p, fd);
      Fileclose(f);
      Settle();
      return true;
    }

    /** sys_open, once the inode is at hand: a file and a descriptor for it, or neither. */
    method Open(p: nat, ip: nat) returns (r: Option<nat>)
      requires Valid() && p < |ofile|
      modifies this`file, this`ofile, this`owed, this`pipes, this`ends, this`freed
      ensures Valid() && pipes == old(pipes) && freed == old(freed) && |ofile| == |old(ofile)|
      ensures r.None? <==> NoFile(old(file)) || NoFd(old(ofile)[p])
      ensures r.None? ==> file == old(file) && ofile == old(ofile)
      ensures r.Some? ==>
        r.value < |old(ofile)[p]| && old(ofile)[p][r.value] == None && NoFd(old(ofile)[p][..r.value]) &&
        r.value < |ofile[p]| && ofile[p][r.value].Some?
      ensures r.Some? ==>
        var f := ofile[p][r.value].value;
        f < NFILE && old(file)[f].ref == 0 && file == old(file)[f := File(1, Inode(ip))] &&
          ofile == old(ofile)[p := old(ofile)[p][r.value := Some(f)]]
    {
      hide Named, Counted, Piped, ClosedPipes, Freeing;
      FileCount(file, ofile, owed);
      var f := Filealloc();
      if f.None? {
        return None;
      }
      WasFree(old(file), pipes, ends, freed, nextpipe, f.value);
      r := Fdalloc(p, f.value);
      if r.None? {
        Fileclose(f.value);
        assert file == old(file);
        Settle();
        return;
      }
      NoEnd(file, pipes, ends, freed, nextpipe, f.value, Inode(ip), 1);
      SameCount(file, ofile, owed, f.value, File(1, Inode(ip)));
      file := file[f.value := File(1, Inode(ip))];
      assert file == old(file)[f.value := File(1, Inode(ip))];
      Settle();
    }

    /** The two calls of filealloc in pipealloc; the first file is closed again when there is no second. */
    method AllocTwo() returns (r: Option<(nat, nat)>)
      requires Valid()
      modifies this`file, this`owed, this`pipes, this`ends, this`freed
      ensures Ok() && pipes == old(pipes) && ends == old(ends) && freed == old(freed)
      ensures r.Some? <==> TwoFiles(old(file))
      ensures r.None? ==> Valid() && file == old(file)
      ensures r.Some? ==>
        var (f, g) := r.value;
        && f < NFILE && g < NFILE && f != g && |old(file)| == NFILE
        && old(file)[f] == File(0, NoKind) && old(file)[g] == File(0, NoKind)
        && file == old(file)[f := File(1, NoKind)][g := File(1, NoKind)] && owed == map[f := 1, g := 1]
    {
      hide Named, Counted, Piped, ClosedPipes, Freeing, Slots;
      FileCount(file, ofile, owed);
      var f0 := Filealloc();
      if f0.None? {
        return None;
      }
      WasFree(old(file), pipes, ends, freed, nextpipe, f0.value);
      var f1 := Filealloc();
      if f1.None? {
        Fileclose(f0.value);
        assert file == old(file);
        Settle();
        return None;
      }
      WasFree(old(file), pipes, ends, freed, nextpipe, f1.value);
      return Some((f0.value, f1.value));
    }

    /** pipealloc: two files and a page (`page` says whether kalloc has one), or nothing. */
    method Pipealloc(page: bool) returns (r: Option<(nat, nat)>)
      requires Valid()
      modifies this`file, this`owed, this`pipes, this`ends, this`freed, this`nextpipe
      ensures Ok() && freed == old(freed) && (r.Some? <==> page && TwoFiles(old(file)))
      ensures r.None? ==> Valid() && file == old(file) && pipes == old(pipes)
      ensures r.Some? ==>
        var (rf, wf) := r.value;
        && rf < NFILE && wf < NFILE && rf != wf && |old(file)| == NFILE
        && old(file)[rf] == File(0, NoKind) && old(file)[wf] == File(0, NoKind)
        && nextpipe == old(nextpipe) + 1
        && file == old(file)[rf := File(1, PipeEnd(old(nextpipe), false))][wf := File(1, PipeEnd(old(nextpipe), true))]
        && pipes == old(pipes)[old(nextpipe) := Ends(true, true)] && owed == map[rf := 1, wf := 1]
        && old(nextpipe) !in old(pipes) && old(nextpipe) !in freed
    {
      hide Named, Counted, Piped, ClosedPipes, Freeing, Slots, TwoFiles;
      r := AllocTwo();
      if r.None? {
        return;
      }
      var (f, g) := r.value;
      if !page {
        Fileclose(f);
        Fileclose(g);
        assert file == old(file);
        Settle();
        return None;
      }
      var e0, e1 := File(1, PipeEnd(nextpipe, false)), File(1, PipeEnd(nextpipe, true));
      NewPipe(file, pipes, ends, freed, nextpipe, f, g);
      SameCount(file, ofile, owed, f, e0);
      SameCount(file[f := e0], ofile, owed, g, e1);
      file := file[f := e0];
      file := file[g := e1];
      pipes := pipes[nextpipe := Ends(true, true)];
      ends := ends[(nextpipe, false) := f][(nextpipe, true) := g];
      nextpipe := nextpipe + 1;
      assert file == old(file)[f := e0][g := e1];
    }

    /** Closing both ends of a pipe nobody else has. */
    method DropPipe(rf: nat, wf: nat, ghost q: nat)
      requires Ok() && rf < NFILE && wf < NFILE && rf != wf && |file| == NFILE && q in pipes &&
        pipes[q] == Ends(true, true)
      requires file[rf] == File(1, PipeEnd(q, false)) && file[wf] == File(1, PipeEnd(q, true))
      modifies this`file, this`owed, this`pipes, this`ends, this`freed
      ensures Ok() && file == old(file)[rf := File(0, NoKind)][wf := File(0, NoKind)] && pipes == old(pipes) - {q} &&
        freed == old(freed) + {q}
      ensures owed == old(owed)[rf := Ex(old(owed), rf) - 1][wf := Ex(old(owed), wf) - 1]
    {
      hide Named, Counted, Freeing, Slots, Piped;
      BothEnds(file, pipes, ends, freed, nextpipe, q);
      Fileclose(rf);
      Fileclose(wf);
    }

    /** The two calls of fdalloc in sys_pipe; the first descriptor is cleared again when there is no second. */
    method FdallocTwo(p: nat, f: nat, g: nat) returns (r: Option<(nat, nat)>)
      requires Ok() && p < |ofile| && f < NFILE && g < NFILE && f != g && owed == map[f := 1, g := 1]
      modifies this`ofile, this`owed
      ensures Ok() && |old(ofile)[p]| == NOFILE && (r.Some? <==> TwoFds(old(ofile)[p]))
      ensures r.None? ==> ofile == old(ofile) && owed == old(owed)
      ensures r.Some? ==>
        var (fd0, fd1) := r.value;
        && fd0 < fd1 < NOFILE && old(ofile)[p][fd0] == None && old(ofile)[p][fd1] == None
        && ofile == old(ofile)[p := old(ofile)[p][fd0 := Some(f)][fd1 := Some(g)]]
        && owed == map[f := 0, g := 0]
    {
      hide Named, Counted, Piped, Slots;
      ghost var was := ofile[p];
      var fd0 := Fdalloc(p, f);
      if fd0.None? {
        return None;
      }
      var fd1 := Fdalloc(p, g);
      if fd1.None? {
        Clear(p, fd0.value);
        assert ofile[p] == was;
        return None;
      }
      assert ofile[p] == was[fd0.value := Some(f)][fd1.value := Some(g)];
      return Some((fd0.value, fd1.value));
    }

    /** sys_pipe: a new pipe with its read end and its write end on two descriptors of p, or no trace of it. */
    method Pipe(p: nat, page: bool) returns (r: Option<(nat, nat)>)
      requires Valid() && p < |ofile|
      modifies this`file, this`ofile, this`owed, this`pipes, this`ends, this`freed, this`nextpipe
      ensures Valid() && |ofile| == |old(ofile)|
      ensures r.Some? <==> page && TwoFiles(old(file)) && TwoFds(old(ofile)[p])
      ensures r.None? ==>
        ofile == old(ofile) && file == old(file) && pipes == old(pipes) && freed <= old(freed) + {old(nextpipe)}
      ensures r.Some? ==>
        var (fd0, fd1) := r.value;
        && fd0 < fd1 < |old(ofile)[p]| && old(ofile)[p][fd0] == None && old(ofile)[p][fd1] == None
        && freed == old(freed)
        && fd1 < |ofile[p]| && ofile[p][fd0].Some? && ofile[p][fd1].Some?
        && var rf, wf := ofile[p][fd0].value, ofile[p][fd1].value;
           && ofile == old(ofile)[p := old(ofile)[p][fd0 := Some(rf)][fd1 := Some(wf)]]
           && rf < NFILE && wf < NFILE && rf != wf
           && file ==
                old(file)[rf := File(1, PipeEnd(old(nextpipe), false))][wf := File(1, PipeEnd(old(nextpipe), true))]
           && pipes == old(pipes)[old(nextpipe) := Ends(true, true)]
    {
      hide Named, Counted, Piped, Freeing, ClosedPipes, Slots, TwoFiles, TwoFds;
      FileCount(file, ofile, owed);
      var pair := Pipealloc(page);
      if pair.None? {
        return None;
      }
      var (rf, wf) := pair.value;
      r := FdallocTwo(p, rf, wf);
      if r.None? {
        DropPipe(rf, wf, old(nextpipe));
        assert file == old(file) && pipes == old(pipes);
      } else {
        assert ofile[p] == old(ofile)[p][r.value.0 := Some(rf)][r.value.1 := Some(wf)];
      }
      Settle();
    }

    /** The descriptor loop of fork: the child's slots name the same files. */
    method Fork(parent: nat, child: nat)
      requires Valid() && parent < |ofile| && child < |ofile| && parent != child && forall k ::
        0 <= k < |ofile[child]| ==> ofile[child][k] == None
      modifies this`file, this`ofile, this`owed
      ensures Valid() && ofile == old(ofile)[child := old(ofile)[parent]] && KindsKept(old(file), file)
    {
      hide Named, Counted, Piped;
      FileCount(file, ofile, owed);
      var i := 0;
      while i < NOFILE
        invariant i <= NOFILE && Valid() && |ofile| == |old(ofile)| && |ofile[child]| == |old(ofile)[parent]| == NOFILE
        invariant ofile == old(ofile)[child := ofile[child]] && ofile[parent] == old(ofile)[parent]
        invariant KindsKept(old(file), file)
        invariant forall k :: 0 <= k < NOFILE ==> ofile[child][k] == if k < i then old(ofile)[parent][k] else None
      {
        if ofile[parent][i].Some? {
          var f := ofile[parent][i].value;
          InUse(file, ofile, owed, parent, i);
          FileCount(file, ofile, owed);
          Filedup(f);
          SlotFilled(file, ofile, owed, child, i, f);
          ofile := ofile[child := ofile[child][i := Some(f)]];
          owed := owed[f := Ex(owed, f) - 1];
          Settle();
        }
        i := i + 1;
      }
      assert ofile[child] == old(ofile)[parent];
    }

    /** The descriptor loop of exit. */
    method Exit(p: nat)
      requires Valid() && p < |ofile|
      modifies this`file, this`ofile, this`owed, this`pipes, this`ends, this`freed
      ensures Valid() && |ofile| == |old(ofile)| && |ofile[p]| == NOFILE && ofile == old(ofile)[p := ofile[p]]
      ensures (forall k :: 0 <= k < NOFILE ==> ofile[p][k] == None) && KindsKept(old(file), file)
      ensures Freeing(old(pipes), old(freed), pipes, freed)
    {
      hide Named, Counted, Piped, ClosedPipes, Freeing;
      FreeingNothing(file, pipes, ends, freed, nextpipe);
      FileCount(file, ofile, owed);
      var fd := 0;
      while fd < NOFILE
        invariant fd <= NOFILE && Valid() && |ofile| == |old(ofile)| && ofile == old(ofile)[p := ofile[p]]
        invariant forall k :: 0 <= k < fd && k < |ofile[p]| ==> ofile[p][k] == None
        invariant Freeing(old(pipes), old(freed), pipes, freed) && KindsKept(old(file), file)
      {
        if ofile[p][fd].Some? {
          InUse(file, ofile, owed, p, fd);
          ghost var ps, fs := pipes, freed;
          Fileclose(ofile[p][fd].value);
          FreeingTrans(old(pipes), old(freed), ps, fs, pipes, freed);
          Clear(p, fd);
          Settle();
        }
        fd := fd + 1;
      }
    }
  }

  lemma BothEnds(file: seq<File>, pipes: Pipes, ends: map<(nat, bool), nat>, freed: set<nat>, nextpipe: nat, q: nat)
    requires Piped(file, pipes, ends, freed, nextpipe) && q in pipes && pipes[q] == Ends(true, true)
    ensures (q, false) in ends && (q, true) in ends
  {
    assert PipeOk(pipes[q], ends, q);
  }

  lemma FreeingTrans(p0: Pipes, f0: set<nat>, p1: Pipes, f1: set<nat>, p2: Pipes, f2: set<nat>)
    requires Freeing(p0, f0, p1, f1) && Freeing(p1, f1, p2, f2)
    ensures Freeing(p0, f0, p2, f2)
  {
    forall q ensures q in f2 - f0 <==> q in p0.Keys - p2.Keys {
      assert q in f1 - f0 <==> q in p0.Keys - p1.Keys;
      assert q in f2 - f1 <==> q in p1.Keys - p2.Keys;
    }
  }

  lemma WasFree(file: seq<File>, pipes: Pipes, ends: map<(nat, bool), nat>, freed: set<nat>, nextpipe: nat, f: nat)
    requires Piped(file, pipes, ends, freed, nextpipe) && f < |file| && file[f].ref == 0
    ensures file[f] == File(0, NoKind)
  {
  }

  lemma NewPipe(file: seq<File>, pipes: Pipes, ends: map<(nat, bool), nat>, freed: set<nat>, nextpipe: nat, f: nat,
      g: nat)
    requires Piped(file, pipes, ends, freed, nextpipe) && f < |file| && g < |file| && f != g &&
      file[f].kind == NoKind && file[g].kind == NoKind
    ensures nextpipe !in pipes && nextpipe !in freed
    ensures Piped(file[f := File(1, PipeEnd(nextpipe, false))][g := File(1, PipeEnd(nextpipe, true))],
      pipes[nextpipe := Ends(true, true)],
                  ends[(nextpipe, false) := f][(nextpipe, true) := g], freed, nextpipe + 1)
  {
    var pipes' := pipes[nextpipe := Ends(true, true)];
    var ends' := ends[(nextpipe, false) := f][(nextpipe, true) := g];
    forall q | q in pipes' ensures PipeOk(pipes'[q], ends', q) {
      assert q in pipes ==> PipeOk(pipes[q], ends, q);
      assert (nextpipe, false) !in ends && (nextpipe, true) !in ends;
    }
  }

  lemma SlotFilled(file: seq<File>, os: seq<Fds>, e: Owed, p: nat, k: nat, f: nat)
    requires Counted(file, os, e) && p < |os| && k < |os[p]| && os[p][k] == None
    ensures Counted(file, os[p := os[p][k := Some(f)]], e[f := Ex(e, f) - 1])
  {
    hide Named;
    forall g: nat ensures Named(os[p := os[p][k := Some(f)]], g) == Named(os, g) + One(g == f) {
      SlotUpdate(os, p, k, Some(f), g);
    }
  }

  lemma SlotCleared(file: seq<File>, os: seq<Fds>, e: Owed, p: nat, k: nat)
    requires Counted(file, os, e) && p < |os| && k < |os[p]| && os[p][k].Some?
    ensures var f := os[p][k].value;
      Counted(file, os[p := os[p][k := None]], e[f := Ex(e, f) + 1]) && (f < NFILE ==> file[f].ref > Ex(e, f))
  {
    hide Named;
    forall g: nat ensures Named(os[p := os[p][k := None]], g) == Named(os, g) - One(g == os[p][k].value) {
      SlotUpdate(os, p, k, None, g);
    }
  }

  lemma InUse(file: seq<File>, os: seq<Fds>, e: Owed, p: nat, k: nat)
    requires Counted(file, os, e) && p < |os| && k < |os[p]| && os[p][k].Some? && os[p][k].value < NFILE &&
      Ex(e, os[p][k].value) >= 0
    ensures file[os[p][k].value].ref > 0
  {
    SlotCleared(file, os, e, p, k);
  }

  function ClosedPipes(pipes: Pipes, p: nat, w: bool): Pipes
    requires p in pipes
  {
    var s := if w then pipes[p].(writeopen := false) else pipes[p].(readopen := false);
    if s.readopen || s.writeopen then pipes[p := s] else pipes - {p}
  }

  /** The pages newly given back are those of the pipes that are gone, and each had not been given back before. */
  ghost predicate Freeing(pipes: Pipes, freed: set<nat>, pipes': Pipes, freed': set<nat>) {
    freed <= freed' && pipes'.Keys <= pipes.Keys && freed' - freed == pipes.Keys - pipes'.Keys && freed !! pipes.Keys
  }

  /** A pipe page is in use as long as one of its ends is open, and nobody refers to it once it has been given back. */
  lemma PageLifetime(file: seq<File>, pipes: Pipes, ends: map<(nat, bool), nat>, freed: set<nat>, nextpipe: nat, p: nat)
    requires Piped(file, pipes, ends, freed, nextpipe)
    ensures p in freed ==> p !in pipes && forall f :: 0 <= f < |file| && file[f].kind.PipeEnd? ==> file[f].kind.p != p
    ensures p in pipes <==>
      exists f :: 0 <= f < |file| && file[f].kind.PipeEnd? && file[f].kind.p == p && file[f].ref > 0
  {
    if p in pipes {
      assert PipeOk(pipes[p], ends, p);
      var f := if pipes[p].readopen then ends[(p, false)] else ends[(p, true)];
      assert file[f].kind.PipeEnd? && file[f].kind.p == p && file[f].ref > 0;
    }
  }

  lemma FreeingNothing(file: seq<File>, pipes: Pipes, ends: map<(nat, bool), nat>, freed: set<nat>, nextpipe: nat)
    requires Piped(file, pipes, ends, freed, nextpipe)
    ensures Freeing(pipes, freed, pipes, freed)
  {
  }

  lemma FileCount(file: seq<File>, os: seq<Fds>, e: Owed)
    requires Counted(file, os, e)
    ensures |file| == NFILE
  {
  }

  /** A change of one count is a change in what is owed. */
  lemma Recount(file: seq<File>, os: seq<Fds>, e: Owed, f: nat, x: File)
    requires Counted(file, os, e) && f < NFILE
    ensures Counted(file[f := x], os, e[f := Ex(e, f) + x.ref - file[f].ref])
  {
    hide Named;
  }

  lemma SameCount(file: seq<File>, os: seq<Fds>, e: Owed, f: nat, x: File)
    requires Counted(file, os, e) && f < NFILE && x.ref == file[f].ref
    ensures Counted(file[f := x], os, e)
  {
    hide Named;
  }

  lemma SameKind(file: seq<File>, pipes: Pipes, ends: map<(nat, bool), nat>, freed: set<nat>, nextpipe: nat, f: nat,
      x: File)
    requires Piped(file, pipes, ends, freed, nextpipe) && f < |file| && x.kind == file[f].kind && x.ref > 0
    ensures Piped(file[f := x], pipes, ends, freed, nextpipe)
  {
  }

  /** A file that is no pipe end becomes another such file. */
  lemma NoEnd(file: seq<File>, pipes: Pipes, ends: map<(nat, bool), nat>, freed: set<nat>, nextpipe: nat, f: nat,
      k: Kind, ref: nat)
    requires Piped(file, pipes, ends, freed, nextpipe) && f < |file| && !file[f].kind.PipeEnd? && !k.PipeEnd? &&
      (k != NoKind ==> ref > 0)
    ensures Piped(file[f := File(ref, k)], pipes, ends, freed, nextpipe)
  {
  }

  lemma OnePipeClosed(pipes: Pipes, ends: map<(nat, bool), nat>, p: nat, w: bool)
    requires (forall q :: q in pipes ==> PipeOk(pipes[q], ends, q)) && p in pipes && (p, w) in ends
    ensures p in ClosedPipes(pipes, p, w) <==> (p, !w) in ends
    ensures var pipes' := ClosedPipes(pipes, p, w); forall q :: q in pipes' ==> PipeOk(pipes'[q], ends - {(p, w)}, q)
    ensures pipes.Keys - {p} <= ClosedPipes(pipes, p, w).Keys <= pipes.Keys
  {
    assert PipeOk(pipes[p], ends, p);
    var pipes', ends' := ClosedPipes(pipes, p, w), ends - {(p, w)};
    forall q | q in pipes' ensures PipeOk(pipes'[q], ends', q) {
      assert PipeOk(pipes[q], ends, q);
    }
  }

  lemma EndClosed(file: seq<File>, pipes: Pipes, ends: map<(nat, bool), nat>, freed: set<nat>, nextpipe: nat, f: nat)
    requires Piped(file, pipes, ends, freed, nextpipe) && f < |file| && file[f].kind.PipeEnd?
    ensures var p, w := file[f].kind.p, file[f].kind.writable;
      && p in pipes && (p in ClosedPipes(pipes, p, w) <==> (p, !w) in ends)
      && Piped(file[f := File(0, NoKind)], ClosedPipes(pipes, p, w), ends - {(p, w)},
               if (p, !w) in ends then freed else freed + {p}, nextpipe)
      && Freeing(pipes, freed, ClosedPipes(pipes, p, w), if (p, !w) in ends then freed else freed + {p})
  {
    hide ClosedPipes, PipeOk;
    var p, w := file[f].kind.p, file[f].kind.writable;
    assert (p, w) in ends;
    OnePipeClosed(pipes, ends, p, w);
  }

  lemma {:induction false} CountNone(fds: Fds, f: nat)
    requires forall k :: 0 <= k < |fds| ==> fds[k] == None
    ensures Count(fds, f) == 0
  {
    if fds != [] {
      CountNone(fds[..|fds| - 1], f);
    }
  }

  lemma {:induction false} NoneNamed(os: seq<Fds>, f: nat)
    requires forall p :: 0 <= p < |os| ==> forall k :: 0 <= k < |os[p]| ==> os[p][k] == None
    ensures Named(os, f) == 0
  {
    if os != [] {
      NoneNamed(os[..|os| - 1], f);
      CountNone(os[|os| - 1], f);
    }
  }
}

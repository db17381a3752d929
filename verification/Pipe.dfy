/** Pipes (kernel/pipe.c). Each method is one stretch of execution with p->lock held, up to the next sleep or return,
    so a run is any sequence of calls by any number of readers and writers. */
module Pipe {
  import opened Ints

  const PIPESIZE: nat := 512

  datatype WriteResult = Written | WriteSlept(i: nat) | WriteFailed(i: nat)
  datatype ReadResult = Read(bytes: seq<Byte>) | ReadSlept | ReadFailed

  /** The counters are the numbers of bytes accepted and delivered, modulo 2^32; the ring holds what lies between. */
  ghost predicate Ring(data: seq<Byte>, nread: Uint, nwrite: Uint, accepted: seq<Byte>, delivered: seq<Byte>) {
    && |data| == PIPESIZE && delivered <= accepted && |accepted| - |delivered| <= PIPESIZE
    && nread == |delivered| % UINT && nwrite == |accepted| % UINT
    && forall k :: |delivered| <= k < |accepted| ==> data[k % PIPESIZE] == accepted[k]
  }

  /** The 32-bit tests for full and empty are exact, also after the counters have wrapped. */
  lemma CountersExact(d: nat, a: nat)
    requires d <= a <= d + PIPESIZE
    ensures a % UINT == (d % UINT + PIPESIZE) % UINT <==> a == d + PIPESIZE
    ensures d % UINT == a % UINT <==> d == a
    ensures a % UINT % PIPESIZE == a % PIPESIZE
  {
    assert UINT == 0x80_0000 * PIPESIZE;
    assert a == a / UINT * UINT + a % UINT;
    assert a == PIPESIZE * (a / UINT * 0x80_0000) + a % UINT;
    ModPeriod(a / UINT * 0x80_0000, a % UINT);
  }

  lemma {:induction false} ModPeriod(q: nat, r: nat)
    ensures (PIPESIZE * q + r) % PIPESIZE == r % PIPESIZE
  {
    if q > 0 {
      ModPeriod(q - 1, r);
      assert PIPESIZE * q + r == PIPESIZE * (q - 1) + r + PIPESIZE;
    }
  }

  lemma SameSlot(j: nat, k: nat)
    requires j % PIPESIZE == k % PIPESIZE && j <= k < j + PIPESIZE
    ensures j == k
  {
  }

  lemma Accept(data: seq<Byte>, nread: Uint, nwrite: Uint, accepted: seq<Byte>, delivered: seq<Byte>, b: Byte)
    requires Ring(data, nread, nwrite, accepted, delivered) && |accepted| < |delivered| + PIPESIZE
    ensures Ring(data[nwrite % PIPESIZE := b], nread, (nwrite + 1) % UINT, accepted + [b], delivered)
  {
    CountersExact(|delivered|, |accepted|);
    var slot := |accepted| % PIPESIZE;
    var d := data[slot := b];
    forall k | |delivered| <= k < |accepted| + 1 ensures d[k % PIPESIZE] == (accepted + [b])[k] {
      if k < |accepted| && k % PIPESIZE == slot {
        SameSlot(k, |accepted|);
      }
    }
    NextCount(|accepted|);
  }

  lemma NextCount(n: nat)
    ensures (n % UINT + 1) % UINT == (n + 1) % UINT
  {
  }

  lemma Deliver(data: seq<Byte>, nread: Uint, nwrite: Uint, accepted: seq<Byte>, delivered: seq<Byte>)
    requires Ring(data, nread, nwrite, accepted, delivered) && |delivered| < |accepted|
    ensures data[nread % PIPESIZE] == accepted[|delivered|]
    ensures Ring(data, (nread + 1) % UINT, nwrite, accepted, delivered + [data[nread % PIPESIZE]])
  {
    CountersExact(|delivered|, |delivered|);
    NextCount(|delivered|);
  }

  class Pipe {
    const data: array<Byte>
    var nread: Uint
    var nwrite: Uint
    var readopen: bool
    var writeopen: bool
    ghost var accepted: seq<Byte>      // every byte a writer has stored
    ghost var delivered: seq<Byte>     // every byte a reader has taken
    ghost var readers: set<nat>        // processes SLEEPING on &p->nread
    ghost var writers: set<nat>        // processes SLEEPING on &p->nwrite
    ghost var stranded: bool           // a killed writer left bytes behind without a wakeup for these readers

    ghost predicate Fifo()
      reads this, data
    {
      data.Length == PIPESIZE && Ring(data[..], nread, nwrite, accepted, delivered)
    }

    ghost function Room(): int
      reads this
    {
      |delivered| + PIPESIZE - |accepted|
    }

    /** With the lock free: sleeping writers face a full pipe with a reader end, sleeping readers an empty one with a
        writer end. */
    ghost predicate Valid()
      reads this, data
    {
      && Fifo()
      && (writers != {} ==> Room() == 0 && readopen)
      && (readers != {} ==> (Room() == PIPESIZE || stranded) && writeopen && readopen)
      && (stranded ==> readers != {})
    }

    /** pipealloc */
    constructor ()
      ensures Valid() && accepted == delivered == [] && readers == writers == {} && !stranded && readopen && writeopen
      ensures fresh(data)
    {
      data := new Byte[PIPESIZE];
      nread, nwrite, readopen, writeopen := 0, 0, true, true;
      accepted, delivered, readers, writers, stranded := [], [], {}, {}, false;
    }

    /** p->data[p->nwrite++ % PIPESIZE] = b */
    method Store(b: Byte)
      requires Fifo() && Room() > 0
      modifies data, this`nwrite, this`accepted
      ensures Fifo() && accepted == old(accepted) + [b]
    {
      hide Ring;
      Accept(data[..], nread, nwrite, accepted, delivered, b);
      ghost var was := data[..];
      data[nwrite % PIPESIZE] := b;
      assert data[..] == was[nwrite % PIPESIZE := b];
      nwrite := (nwrite + 1) % UINT;
      accepted := accepted + [b];
    }

    /** The copy loop of pipewrite: stores bytes while there is room. */
    method Fill(addr: seq<Byte>, from: nat) returns (i: nat)
      requires Fifo() && from <= |addr|
      modifies data, this`nwrite, this`accepted
      ensures Fifo() && from <= i <= |addr| && accepted == old(accepted) + addr[from..i]
      ensures i - from == if |addr| - from <= old(Room()) then |addr| - from else old(Room())
    {
      hide Ring;
      RingFacts();
      i := from;
      while i < |addr| && nwrite != (nread + PIPESIZE) % UINT
        invariant Fifo() && from <= i <= |addr| && accepted == old(accepted) + addr[from..i]
        invariant 0 <= Room() == old(Room()) - (i - from)
        invariant nwrite == (nread + PIPESIZE) % UINT <==> Room() == 0
      {
        Store(addr[i]);
        i := i + 1;
        RingFacts();
      }
    }

    lemma RingFacts()
      requires Fifo()
      ensures 0 <= Room() <= PIPESIZE && delivered <= accepted
      ensures nwrite == (nread + PIPESIZE) % UINT <==> Room() == 0
      ensures nread == nwrite <==> Room() == PIPESIZE
    {
      CountersExact(|delivered|, |accepted|);
    }

    /** pipewrite by process p from byte `from` of its buffer, until it returns or sleeps.
        A reader is left asleep beside bytes exactly when a killed writer with more than a pipeful finds it there. */
    method Write(p: nat, addr: seq<Byte>, from: nat, killed: bool) returns (r: WriteResult)
      requires Valid() && from <= |addr| && p !in writers
      modifies data, this`nwrite, this`accepted, this`readers, this`writers, this`stranded
      ensures Valid()
      ensures !old(stranded) ==> (stranded <==> killed && old(readers) != {} && |addr| - from > PIPESIZE)
      ensures match r
        case Written => |addr| - from <= old(Room()) && accepted == old(accepted) + addr[from..] && readers == {} &&
          writers == old(writers)
        case WriteSlept(i) =>
          && |addr| - from > old(Room()) && from <= i < |addr| && accepted == old(accepted) + addr[from..i]
          && Room() == 0 && readopen && !killed && readers == {} && writers == old(writers) + {p}
        case WriteFailed(i) =>
          && |addr| - from > old(Room()) && from <= i < |addr| && accepted == old(accepted) + addr[from..i]
          && Room() == 0 && (killed || !readopen) && readers == old(readers) && writers == old(writers)
    {
      hide Ring;
      RingFacts();
      var i := Fill(addr, from);
      RingFacts();
      if i < |addr| {
        if !readopen || killed {
          stranded := readers != {};
          return WriteFailed(i);
        }
        readers, stranded := {}, false;
        writers := writers + {p};
        return WriteSlept(i);
      }
      readers, stranded := {}, false;
      assert addr[from..i] == addr[from..];
      return Written;
    }

    /** The copy loop of piperead: takes bytes while there are any. */
    method Drain(n: nat) returns (bytes: seq<Byte>)
      requires Fifo()
      modifies this`nread, this`delivered
      ensures Fifo() && delivered == old(delivered) + bytes
      ensures |bytes| == if n <= |accepted| - |old(delivered)| then n else |accepted| - |old(delivered)|
    {
      hide Ring;
      RingFacts();
      bytes := [];
      var i := 0;
      while i < n && nread != nwrite
        invariant Fifo() && i == |bytes| <= n && delivered == old(delivered) + bytes && |delivered| <= |accepted|
        invariant nread == nwrite <==> Room() == PIPESIZE
      {
        Deliver(data[..], nread, nwrite, accepted, delivered);
        var b := data[nread % PIPESIZE];
        bytes := bytes + [b];
        delivered := delivered + [b];
        nread := (nread + 1) % UINT;
        i := i + 1;
        RingFacts();
      }
    }

    /** piperead by process p, until it returns or sleeps: the oldest bytes not yet delivered, end of file (no bytes)
        when the pipe is empty and the writer end is gone. */
    method Read(p: nat, n: nat, killed: bool) returns (r: ReadResult)
      requires Valid() && p !in readers && readopen
      modifies this`nread, this`delivered, this`readers, this`writers, this`stranded
      ensures Valid() && (stranded ==> old(stranded))
      ensures r.Read? <==> old(Room()) < PIPESIZE || !writeopen
      ensures match r
        case Read(bytes) =>
          && delivered == old(delivered) + bytes && delivered <= accepted && writers == {} && readers == old(readers)
          && |bytes| == if n <= |accepted| - |old(delivered)| then n else |accepted| - |old(delivered)|
        case ReadSlept => !killed && delivered == old(delivered) && readers == old(readers) + {p} &&
          writers == old(writers)
        case ReadFailed => killed && delivered == old(delivered) && readers == old(readers) && writers == old(writers)
    {
      hide Ring;
      RingFacts();
      if nread == nwrite && writeopen {
        if killed {
          return ReadFailed;
        }
        readers := readers + {p};
        return ReadSlept;
      }
      var bytes := Drain(n);
      RingFacts();
      writers := {};
      return ReadResult.Read(bytes);
    }

    /** pipeclose: the sleepers at the other end are woken; the page is freed when both ends are gone.
        A process asleep in the pipe still holds its own end open, so that end is not the one being closed. */
    method Close(writable: bool) returns (freed: bool)
      requires Valid() && (writable ==> writeopen && writers == {}) && (!writable ==> readopen && readers == {})
      modifies this`readopen, this`writeopen, this`readers, this`writers, this`stranded
      ensures Valid() && (stranded ==> old(stranded))
      ensures writable ==> !writeopen && readopen == old(readopen) && readers == {} && writers == old(writers)
      ensures !writable ==> !readopen && writeopen == old(writeopen) && writers == {} && readers == old(readers)
      ensures freed <==> !readopen && !writeopen
      ensures freed ==> readers == writers == {}
    {
      if writable {
        writeopen := false;
        readers, stranded := {}, false;
      } else {
        readopen := false;
        writers := {};
      }
      freed := !readopen && !writeopen;
    }

    /** kill gets process p out of its sleep. */
    method Rouse(p: nat)
      requires Valid()
      modifies this`readers, this`writers, this`stranded
      ensures Valid() && readers == old(readers) - {p} && writers == old(writers) - {p} && (stranded ==> old(stranded))
    {
      readers, writers := readers - {p}, writers - {p};
      stranded := stranded && readers != {};
    }
  }

  /** The shortest run that leaves a reader asleep beside a full pipe. */
  method KilledWriterStrandsReader(addr: seq<Byte>) returns (p: Pipe)
    requires |addr| == PIPESIZE + 1
    ensures p.Valid() && p.readers == {1} && p.Room() == 0 && p.accepted == addr[..PIPESIZE] && p.stranded
  {
    p := new Pipe();
    var r := p.Read(1, 1, false);
    var w := p.Write(2, addr, 0, true);
    assert w.WriteFailed?;
    assert addr[0..PIPESIZE] == addr[..PIPESIZE];
  }
}

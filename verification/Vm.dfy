/** Physical pages (kernel/kalloc.c) and address spaces (kernel/vm.c). Addresses are page numbers unless a name says
    size. */
module Vm {
  import opened Options
  import opened PageTable

  const PGSIZE: nat := 4096
  const KERNBASE: nat := 0x8000_0000
  const USER_FLAGS: nat := PTE_W + PTE_U
  const ZERO: nat := 0                 // the contents of a zeroed page

  /** A kernel mapping: n pages from virtual page `virt` on, to the frames from `phys` on. */
  datatype Kmap = Kmap(virt: nat, phys: nat, n: nat, perm: nat)

  /** PGROUNDUP(size) / PGSIZE */
  function Pages(size: nat): nat { (size + PGSIZE - 1) / PGSIZE }

  /** An image with the pages v up to a besides those it had. */
  ghost predicate Extended(was: set<nat>, now: set<nat>, v: nat, a: nat) {
    forall w: nat :: w in now <==> w in was || v <= w < a
  }

  ghost predicate Vacant(mapped: set<nat>, v: nat, n: nat) {
    forall w :: w in mapped ==> w < v || n <= w
  }

  /** Frames that hold user pages, or that their taker has not put to use yet, hold what they held. */
  ghost predicate DataKept(mem: Mem, owner: Owner, mem': Mem) {
    forall f :: f in owner && (owner[f].PageOf? || owner[f] == Taken) ==> f in mem && f in mem' && mem'[f] == mem[f]
  }

  /** No address space loses a page to another use. */
  ghost predicate PagesKept(owner: Owner, owner': Owner) {
    forall f :: f in owner && (owner[f].PageOf? || owner[f] == Taken || owner[f] == Lost) ==>
      f in owner' && owner'[f] == owner[f]
  }

  function Filled<T>(lo: nat, hi: nat, x: T): (m: map<nat, T>)
    ensures forall f :: f in m <==> lo <= f < hi
    ensures forall f :: f in m ==> m[f] == x
    decreases hi
  {
    if hi <= lo then map[] else Filled(lo, hi - 1, x)[hi - 1 := x]
  }

  lemma AllTaken(lo: nat, hi: nat)
    requires 0 < lo <= hi
    ensures Ok(Filled(lo, hi, Data(ZERO)), [], Filled(lo, hi, Taken), map[])
    ensures Filled(lo, hi, Taken).Keys == Filled(lo, hi, Free).Keys
  {
  }

  datatype View = View(mem: Mem, free: seq<nat>, owner: Owner, spaces: Spaces)

  ghost predicate Sound(s: View) { Ok(s.mem, s.free, s.owner, s.spaces) }

  class Memory {
    var mem: Mem
    var free: seq<nat>                 // kmem.freelist from its head on
    const kmap: seq<Kmap>
    ghost var owner: Owner
    ghost var spaces: Spaces

    ghost predicate Valid()
      reads this
    {
      Ok(mem, free, owner, spaces)
    }

    ghost function Now(): View
      reads this
    {
      View(mem, free, owner, spaces)
    }

    /** kinit: freerange puts every frame from lo up to hi on the free list. */
    constructor (lo: nat, hi: nat, ks: seq<Kmap>)
      requires 0 < lo <= hi
      ensures Valid() && spaces == map[] && kmap == ks && owner.Keys == Filled(lo, hi, Free).Keys
      ensures |free| == hi - lo && forall f :: f in owner ==> owner[f] == Free
    {
      hide Ok, Filled;
      kmap := ks;
      mem, free, owner, spaces := Filled(lo, hi, Data(ZERO)), [], Filled(lo, hi, Taken), map[];
      new;
      AllTaken(lo, hi);
      var p := lo;
      while p < hi
        invariant lo <= p <= hi && Valid() && spaces == map[] && |free| == p - lo &&
          owner.Keys == Filled(lo, hi, Taken).Keys
        invariant forall f :: f in owner ==> owner[f] == if f < p then Free else Taken
      {
        Kfree(p);
        p := p + 1;
      }
    }

    /** kalloc */
    method Kalloc() returns (r: Option<nat>)
      requires Valid()
      modifies this`free, this`owner
      ensures Valid() && (r.None? <==> old(free) == [])
      ensures r.None? ==> free == old(free) && owner == old(owner)
      ensures r.Some? ==> r.value == old(free)[0] && free == old(free)[1..] && owner == old(owner)[r.value := Taken]
      ensures r.Some? ==> r.value in old(owner) && old(owner)[r.value] == Free
    {
      hide Ok;
      if free == [] {
        return None;
      }
      TakenOk(mem, free, owner, spaces);
      r := Some(free[0]);
      owner := owner[free[0] := Taken];
      free := free[1..];
    }

    /** kfree of a frame its caller holds */
    method Kfree(f: nat)
      requires Valid() && f in owner && owner[f] == Taken
      modifies this`mem, this`free, this`owner
      ensures Valid() && mem == old(mem)[f := Data(JUNK)] && free == [f] + old(free) && owner == old(owner)[f := Free]
      ensures forall e :: e in spaces ==> SameLookups(old(mem), mem, e)
    {
      hide Ok;
      FilledOk(mem, free, owner, spaces, f, Data(JUNK));
      mem := mem[f := Data(JUNK)];
      ReturnedOk(mem, free, owner, spaces, f, Free);
      free := [f] + free;
      owner := owner[f := Free];
    }

    /** walkpgdir: the frame of the table for page v; a missing table is made when asked for and there is a frame
        left. */
    method Walk(d: nat, v: nat, alloc: bool) returns (r: Option<nat>)
      requires Valid() && d in spaces && v < NPAGES
      modifies this`mem, this`free, this`owner
      ensures Valid() && (r.Some? <==> Pde(old(mem), d, v).Pte? || (alloc && old(free) != []))
      ensures r.Some? ==> Pde(mem, d, v).Pte? && Pde(mem, d, v).frame == r.value
      ensures r.None? || !alloc ==> mem == old(mem) && free == old(free) && owner == old(owner)
      ensures r.Some? ==> Walked(old(mem), old(free), old(owner), mem, owner, d, v)
      ensures r.Some? ==> free == if Pde(old(mem), d, v).Pte? then old(free) else old(free)[1..]
      ensures forall e :: e in spaces ==> SameLookups(old(mem), mem, e)
    {
      hide Ok, SameLookups, Lookup;
      SameRefl(mem, spaces);
      var pde := At(mem, d)[v / NPTE];
      if pde.Pte? {
        return Some(pde.frame);
      }
      if !alloc {
        return None;
      }
      r := Kalloc();
      if r.None? {
        return;
      }
      TableOk(mem, free, owner, spaces, d, v / NPTE, r.value);
      DirFrame(mem, free, owner, spaces, d, r.value);
      mem := mem[r.value := Table(Empty())];
      mem := mem[d := Table(At(mem, d)[v / NPTE := Pte(r.value, TABLE_FLAGS)])];
      owner := owner[r.value := TableOf(d, v / NPTE)];
    }

    /** One round of mappages. A user page takes over the frame its caller holds. */
    method MapOne(d: nat, v: nat, f: nat, perm: nat) returns (ok: bool)
      requires Valid() && d in spaces && v < NPAGES && Lookup(mem, d, v) == Absent
      requires v < USER ==> f in owner && owner[f] == Taken
      modifies this`mem, this`free, this`owner, this`spaces
      ensures Valid() && (ok <==> Pde(old(mem), d, v).Pte? || old(free) != [])
      ensures !ok ==> Now() == old(Now())
      ensures ok ==> Lookup(mem, d, v) == Pte(f, perm) && OnlyPage(old(mem), mem, old(spaces), d, v)
      ensures ok ==> spaces == if v < USER then old(spaces)[d := old(spaces)[d] + {v}] else old(spaces)
      ensures ok ==> free == if Pde(old(mem), d, v).Pte? then old(free) else old(free)[1..]
      ensures ok ==> Placed(old(mem), old(owner), mem, owner, d, v, f)
    {
      hide Ok, SameLookups, OnlyPage, Placed, Walked, WithTable, Lookup;
      ghost var m0, f0, o0 := mem, free, owner;
      var t := Walk(d, v, true);
      if t.None? {
        return false;
      }
      assert Lookup(mem, d, v) == Absent by {
        AbsentStill(m0, mem, d, v);
      }
      if v < USER {
        WalkedTaken(m0, f0, o0, mem, owner, d, v, f);
      }
      PlacedFacts(m0, f0, o0, mem, free, owner, spaces, d, v, f, perm);
      ghost var x := Pte(f, perm);
      OnlyPageStored(mem, free, owner, spaces, d, v, x);
      OnlyPageTrans(m0, mem, WithPte(mem, d, v, x), spaces, d, v);
      if v < USER {
        MappedOk(mem, free, owner, spaces, d, v, f, perm);
      } else {
        KernelMappedOk(mem, free, owner, spaces, d, v, x);
      }
      ghost var m1 := WithPte(mem, d, v, x);
      mem := mem[t.value := Table(At(mem, t.value)[v % NPTE := Pte(f, perm)])];
      assert mem == m1;
      if v < USER {
        owner := owner[f := PageOf(d, v)];
        spaces := spaces[d := spaces[d] + {v}];
      }
      return true;
    }

    /** One page of deallocuvm: kfree the frame, clear the entry. */
    method FreePage(d: nat, v: nat, t: nat)
      requires Valid() && d in spaces && v < USER && Pde(mem, d, v).Pte? && Pde(mem, d, v).frame == t &&
        Lookup(mem, d, v).Pte?
      modifies this`mem, this`free, this`owner, this`spaces
      ensures Valid() && spaces == old(spaces)[d := old(spaces)[d] - {v}]
      ensures Lookup(mem, d, v) == Absent && OnlyPage(old(mem), mem, old(spaces), d, v)
      ensures var f := Lookup(old(mem), d, v).frame;
        f in old(owner) && old(owner)[f] == PageOf(d, v) && free == [f] + old(free) && owner == old(owner)[f := Free]
      ensures Kept(old(mem), old(owner), mem, owner) && At(mem, d) == At(old(mem), d)
    {
      hide Ok, SameLookups, OnlyPage, Lookup, DataKept;
      ghost var m0 := mem;
      UserFrame(mem, free, owner, spaces, d, v);
      TableNotDir(mem, free, owner, spaces, d, v);
      var f := At(mem, t)[v % NPTE].frame;
      FilledOk(mem, free, owner, spaces, f, Data(JUNK));
      mem := mem[f := Data(JUNK)];
      LookupSame(m0, mem, d, v);
      UnmappedOk(mem, free, owner, spaces, d, v, f);
      OnlyPageStored(mem, free, owner, spaces, d, v, Absent);
      OnlyPageTrans(m0, mem, WithPte(mem, d, v, Absent), spaces, d, v);
      KeptFreed(m0, free, owner, spaces, d, v, f);
      free := [f] + free;
      ghost var m1 := WithPte(mem, d, v, Absent);
      mem := mem[t := Table(At(mem, t)[v % NPTE := Absent])];
      assert mem == m1;
      owner := owner[f := Free];
      spaces := spaces[d := spaces[d] - {v}];
    }

    /** deallocuvm: exactly the mapped pages from PGROUNDUP(newsz) up to oldsz that the loop reaches leave, and their
        frames are freed. Its jump over a missing table is measured from where the loop stands, not from the table's
        start. */
    method Deallocuvm(d: nat, oldsz: nat, newsz: nat) returns (r: nat)
      requires Valid() && d in spaces && oldsz <= KERNBASE
      modifies this`mem, this`free, this`owner, this`spaces
      ensures Valid() && r == if newsz >= oldsz then oldsz else newsz
      ensures newsz >= oldsz ==> Now() == old(Now())
      ensures d in spaces && (newsz < oldsz ==>
        Swept(old(Now()), Now(), d, Reached(old(mem), d, old(spaces)[d], Pages(newsz), Pages(oldsz))))
    {
      hide Ok, Swept, OnlyPage, Lookup, Kept, SameLookups, Walked, Sweeping, Reached, Pde;
      if newsz >= oldsz {
        return oldsz;
      }
      var lo := Pages(newsz);
      var a := lo;
      ghost var m, mapped := mem, spaces[d];
      ghost var gone := {};
      AllTabled(mem, free, owner, spaces, d);
      SweptNothing(Now(), d);
      SweepStart(m, d, mapped, lo);
      while a * PGSIZE < oldsz
        invariant lo <= a && Valid() && At(mem, d) == At(m, d)
        invariant Sweeping(m, d, mapped, lo, a) && gone == Reached(m, d, mapped, lo, a)
        invariant gone == Reached(m, d, mapped, lo, if a < Pages(oldsz) then a else Pages(oldsz))
        invariant Swept(old(Now()), Now(), d, gone)
      {
        SweptSpaces(old(Now()), Now(), d, gone);
        MappedPage(mem, free, owner, spaces, d, a);
        SamePde(m, mem, d, a);
        ReachedBelow(m, d, mapped, lo, a);
        ghost var s := Now();
        var t := Walk(d, a, false);
        if t.None? {
          SweepGap(m, d, mapped, lo, a, Pages(oldsz));
          a := a + NPTE - 1;
        } else {
          SweepPage(m, d, mapped, lo, a);
          if At(mem, t.value)[a % NPTE].Pte? {
            FreePage(d, a, t.value);
            SweptMore(old(Now()), s, Now(), d, gone, a);
            gone := gone + {a};
          }
        }
        a := a + 1;
      }
      SweptSpaces(old(Now()), Now(), d, gone);
      return newsz;
    }

    /** One page of allocuvm or copyuvm, holding x. Without a frame for the page nothing changes; without one for its
        table the page is lost. */
    method GrowOne(d: nat, a: nat, x: Frame, flags: nat) returns (mapped: bool, out: bool)
      requires Valid() && d in spaces && a < USER && a !in spaces[d]
      modifies this`mem, this`free, this`owner, this`spaces
      ensures Valid() && d in spaces && (out <==> old(free) == [])
      ensures mapped <==> !out && (Pde(old(mem), d, a).Pte? || |old(free)| > 1)
      ensures out ==> Now() == old(Now())
      ensures !out && !mapped ==> free == [] && LosesOne(old(Now()), Now())
      ensures mapped ==> Added(old(Now()), Now(), d, a, x, flags)
      ensures mapped ==> |old(free)| == |free| + 1 + if Pde(old(mem), d, a).Pte? then 0 else 1
      ensures mapped ==>
        spaces[d] == old(spaces)[d] + {a} && Tabled(old(mem), mem, d, a) && Losses(old(owner), owner) == {}
    {
      hide Ok, OnlyPage, Lookup, SameLookups, Placed, Added, LosesOne, Tabled;
      ghost var s := Now();
      MappedPage(mem, free, owner, spaces, d, a);
      var f := Kalloc();
      if f.None? {
        return false, true;
      }
      DirFrame(mem, free, owner, spaces, d, f.value);
      FilledOk(mem, free, owner, spaces, f.value, x);
      mem := mem[f.value := x];
      AbsentStill(s.mem, mem, d, a);
      var ok := MapOne(d, a, f.value, flags);
      if !ok {
        ReturnedOk(mem, free, owner, spaces, f.value, Lost);
        LosesOneFacts(s, f.value, x);
        owner := owner[f.value := Lost];
        return false, false;
      }
      AddedOne(s, Now(), d, a, f.value, x, flags);
      return true, false;
    }

    /** allocuvm. Growing needs Need frames. With fewer, the pages made so far are given back and 0 is returned, except
        that a page whose table cannot be made is lost: exactly when the frames run out between the two. If that was the
        last page, the new size is returned although the page is missing. */
    method Allocuvm(d: nat, oldsz: nat, newsz: nat) returns (r: nat)
      requires Valid() && d in spaces && Vacant(spaces[d], Pages(oldsz), Pages(newsz))
      modifies this`mem, this`free, this`owner, this`spaces
      ensures Valid() && d in spaces
      ensures newsz >= KERNBASE || newsz < oldsz ==>
        r == (if newsz >= KERNBASE then 0 else oldsz) && Now() == old(Now())
      ensures oldsz <= newsz < KERNBASE ==>
        Allocated(old(Now()), Now(), d, Pages(oldsz), Pages(newsz), r, newsz)
      ensures oldsz <= newsz < KERNBASE ==>
        forall w :: Pages(oldsz) <= w < Pages(newsz) && w in spaces[d] ==> UserAccess(mem, d, w, true)
    {
      hide Ok, Added, Grown, Shrunk, Need, Tabled, LosesOne, Losses, Growing, Allocated, UserAccess;
      if newsz >= KERNBASE {
        return 0;
      }
      if newsz < oldsz {
        return oldsz;
      }
      var v := Pages(oldsz);
      var a := v;
      ghost var lost := false;
      GrownNothing(Now(), d, v);
      while a * PGSIZE < newsz
        invariant v <= a <= Pages(newsz) && Valid() && d in spaces
        invariant Growing(old(Now()), Now(), d, v, a, lost)
      {
        ghost var s := Now();
        NextPage(old(Now()), s, d, v, a, Pages(newsz), lost);
        var mapped, out := GrowOne(d, a, Data(ZERO), USER_FLAGS);
        if out {
          assert oldsz < newsz;
          var back := Deallocuvm(d, newsz, oldsz);
          GrowthReached(old(Now()), s, Now(), d, v, a, Pages(newsz), lost);
          FailedGrowth(old(Now()), s, Now(), d, v, a, Pages(newsz), lost, newsz);
          PagesUsable(old(Now()), Now(), d, v, Pages(newsz), 0, newsz);
          return 0;
        }
        if mapped {
          GrowingMore(old(Now()), s, Now(), d, v, a);
        } else {
          GrowingLost(old(Now()), s, Now(), d, v, a);
          lost := true;
        }
        a := a + 1;
      }
      FinishedGrowth(old(Now()), Now(), d, v, a, lost, newsz);
      PagesUsable(old(Now()), Now(), d, v, a, newsz, newsz);
      return newsz;
    }

    /** freevm: every frame of the address space is free afterwards, and nothing else has changed. */
    method Freevm(d: nat)
      requires Valid() && d in spaces
      modifies this`mem, this`free, this`owner, this`spaces
      ensures Valid() && Released(old(Now()), Now(), d)
    {
      hide Ok, Shrunk, Swept, Reached, Released, Lookup, DirFreed, Detached, SameLookups;
      var r := Deallocuvm(d, KERNBASE, 0);
      WholeSwept(old(Now()), Now(), d);
      ghost var s := Now();
      DetachedOk(mem, free, owner, spaces, d);
      DirFreedStart(s, d);
      owner, spaces := Detached(owner, d), spaces - {d};
      var i := 0;
      ReleasingStart(s, Now(), d);
      while i < NPTE
        invariant i <= NPTE && Valid() && spaces == s.spaces - {d} && Releasing(s, Now(), d, i)
      {
        TableFrame(s, Now(), d, i);
        var e := At(mem, d)[i];
        ghost var t := Now();
        SameRefl(mem, spaces);
        if e.Pte? {
          Kfree(e.frame);
        }
        ReleasingMore(s, t, Now(), d, i);
        i := i + 1;
      }
      ghost var t := Now();
      LastFrame(s, t, d);
      Kfree(d);
      ReleasedAll(old(Now()), s, t, Now(), d);
    }

    /** mappages over n kernel pages; it fails exactly when the frames do not suffice for the tables that are
        missing. */
    method Mappages(d: nat, k: Kmap) returns (ok: bool)
      requires Valid() && d in spaces && KmapOk(k) && forall w :: k.virt <= w < k.virt + k.n ==>
        Lookup(mem, d, w) == Absent
      modifies this`mem, this`free, this`owner, this`spaces
      ensures Valid() && spaces == old(spaces) && OthersKept(old(Now()), Now(), d) &&
        OnlyPages(old(Now()), Now(), d, k.virt, k.virt + k.n)
      ensures ok ==> forall w :: k.virt <= w < k.virt + k.n ==> Lookup(mem, d, w) == Pte(k.phys + w - k.virt, k.perm)
      ensures Losses(old(owner), owner) == {} && (!ok ==> free == [])
      ensures ok <==> |old(free)| >= |Spanned(k.virt, k.virt + k.n) - Tabs(old(mem), d)|
      ensures ok ==> Tallied(old(Now()), Now(), d, Spanned(k.virt, k.virt + k.n))
    {
      hide Ok, OthersKept, OnlyPages, OnlyPage, Lookup, Placed, Losses, Tallied, Tabs, Spanned, Tabled;
      var a := k.virt;
      KernelStart(Now(), d, k);
      TalliedNothing(Now(), d, a);
      while a < k.virt + k.n
        invariant k.virt <= a <= k.virt + k.n && Valid() && spaces == old(spaces) &&
          KernelMapping(old(Now()), Now(), d, k, a)
        invariant Tallied(old(Now()), Now(), d, Spanned(k.virt, a))
      {
        ghost var s := Now();
        NextKernel(old(Now()), s, d, k, a);
        var one := MapOne(d, a, k.phys + a - k.virt, k.perm);
        if !one {
          KernelStop(old(Now()), s, d, k, a);
          TalliedStop(old(Now()), s, d, k.virt, a, k.virt + k.n);
          return false;
        }
        PlacedTabled(s.mem, s.owner, mem, owner, d, a, k.phys + a - k.virt);
        TalliedMore(old(Now()), s, Now(), d, k.virt, a);
        KernelMore(old(Now()), s, Now(), d, k, a);
        a := a + 1;
      }
      KernelStop(old(Now()), Now(), d, k, a);
      TalliedAll(old(Now()), Now(), d, Spanned(k.virt, a));
      return true;
    }

    /** setupkvm: a fresh directory that maps exactly the kernel regions. With too few frames for it and its tables it
        fails and keeps every frame there was: a directory begun is not given back. */
    method Setupkvm() returns (r: Option<nat>)
      requires Valid() && KmapsOk(kmap)
      modifies this`mem, this`free, this`owner, this`spaces
      ensures Valid() && Preserved(old(Now()), Now()) && Losses(old(owner), owner) == {}
      ensures r.Some? <==> |old(free)| >= SetupNeed(kmap)
      ensures r.None? ==> free == []
      ensures r.Some? ==> r.value !in old(spaces) && spaces == old(spaces)[r.value := {}]
      ensures r.Some? ==> KernelUpTo(mem, r.value, kmap, |kmap|)
      ensures r.Some? ==> |free| == |old(free)| - SetupNeed(kmap) && Tabs(mem, r.value) == KernelTabs(kmap, |kmap|)
    {
      hide Ok, Preserved, KernelUpTo, OthersKept, OnlyPages, Lookup, SameLookups, KmapsOk, Losses, Tallied, Tabs,
        Spanned, KernelTabs;
      ghost var s := Now();
      PreservedRefl(s);
      r := Kalloc();
      if r.None? {
        return;
      }
      var d := r.value;
      DirOk(mem, free, owner, spaces, d);
      mem := mem[d := Table(Empty())];
      owner, spaces := owner[d := Dir], spaces[d := {}];
      NewSpace(s, Now(), d);
      KernelNone(mem, d, kmap);
      BlankTabs(mem, d, kmap);
      var k := 0;
      while k < |kmap|
        invariant k <= |kmap| && Valid() && SettingUp(s, Now(), d, kmap, k)
      {
        ghost var t := Now();
        NextRegion(mem, d, kmap, k);
        var ok := Mappages(d, kmap[k]);
        StillPreserved(s, t, Now(), d, kmap, k);
        if !ok {
          return None;
        }
        RegionSetUp(s, t, Now(), d, kmap, k);
        k := k + 1;
      }
    }

    /** copyuvm: a new address space with the same pages, flags and contents on frames of its own, or none at all; every
        existing address space is as it was either way. */
    method Copyuvm(d: nat, sz: nat) returns (r: Option<nat>)
      requires Valid() && KmapsOk(kmap) && d in spaces && sz <= KERNBASE
      requires forall w: nat :: w < Pages(sz) ==> w in spaces[d]
      modifies this`mem, this`free, this`owner, this`spaces
      ensures Valid() && Preserved(old(Now()), Now())
      ensures r.Some? ==> r.value !in old(spaces) && Copying(old(Now()), Now(), d, r.value, Pages(sz))
      ensures r.Some? ==> KernelPart(mem, r.value, kmap)
      ensures r.Some? <==> |old(free)| >= CopyNeed(kmap, Pages(sz))
      ensures r.Some? ==> |free| == |old(free)| - CopyNeed(kmap, Pages(sz)) && Losses(old(owner), owner) == {}
      ensures r.None? && |old(free)| < SetupNeed(kmap) ==> free == [] && Losses(old(owner), owner) == {}
      ensures r.None? && |old(free)| >= SetupNeed(kmap) ==>
        && spaces == old(spaces)
        && |Losses(old(owner), owner)| == if CopyLoses(kmap, |old(free)|, Pages(sz)) then 1 else 0
    {
      hide CopyNeed, CopyLoses, CopyTally, Tabs, KernelTabs, Spanned;
      hide Ok, Preserved, Copying, Added, KernelUpTo, Lookup, Released, LosesOne, KmapsOk, Losses, Tabled, OthersKept,
        KernelEntry;
      ghost var s := Now();
      r := Setupkvm();
      CopyNeedsSetup(kmap, Pages(sz));
      if r.None? {
        return;
      }
      var c := r.value;
      NothingCopied(s, Now(), d, c, kmap);
      NothingTallied(s, Now(), c, kmap);
      var i := 0;
      while i * PGSIZE < sz
        invariant i <= Pages(sz) && Valid() && d in spaces && c in spaces && Copying(s, Now(), d, c, i) &&
          KernelPart(mem, c, kmap)
        invariant CopyTally(s, Now(), c, kmap, i)
      {
        ghost var t := Now();
        NextCopy(s, t, d, c, i, Pages(sz));
        var pt := Walk(d, i, false);
        var e := At(mem, pt.value)[i % NPTE];
        var x := mem[e.frame];
        var mapped, out := GrowOne(c, i, x, e.flags);
        if !mapped {
          CopyStopped(s, t, Now(), d, c, i, out);
          CopyShort(s, t, c, kmap, i, Pages(sz), out);
          ghost var u := Now();
          Freevm(c);
          CopyUndone(s, u, Now(), d, c);
          return None;
        }
        CopiedMore(s, t, Now(), d, c, i, kmap);
        CopyTallied(s, t, Now(), c, kmap, i);
        i := i + 1;
      }
      CopyDone(s, Now(), d, c, i);
      CopyEnough(s, Now(), c, kmap, i);
    }
  }

  ghost predicate KernelPart(mem: Mem, c: nat, ks: seq<Kmap>) {
    forall w :: USER <= w < NPAGES ==> Lookup(mem, c, w) == KernelEntry(ks, |ks|, w)
  }

  /** Page w of c has the contents and flags that page w of d had. */
  predicate CopyOf(mem: Mem, mem': Mem, d: nat, c: nat, w: nat)
    requires w < NPAGES
  {
    var e := Lookup(mem, d, w);
    e.Pte? && e.frame in mem && PageIs(mem', c, w, mem[e.frame], e.flags)
  }

  /** c is a new address space that holds copies of the first i pages of d. */
  ghost predicate Copying(s: View, t: View, d: nat, c: nat, i: nat) {
    && Preserved(s, t) && Losses(s.owner, t.owner) == {} && d in s.spaces && c !in s.spaces
    && t.spaces.Keys == s.spaces.Keys + {c} && Extended({}, t.spaces[c], 0, i) && i <= USER
    && forall w :: 0 <= w < i ==> CopyOf(s.mem, t.mem, d, c, w)
  }

  lemma NothingCopied(s: View, t: View, d: nat, c: nat, ks: seq<Kmap>)
    requires Preserved(s, t) && Losses(s.owner, t.owner) == {} && d in s.spaces && c !in s.spaces &&
      t.spaces == s.spaces[c := {}]
    requires KmapsOk(ks) && KernelUpTo(t.mem, c, ks, |ks|)
    ensures Copying(s, t, d, c, 0) && KernelPart(t.mem, c, ks) && d in t.spaces && c in t.spaces
  {
    hide Lookup, KernelEntry;
  }

  lemma NextCopy(s: View, t: View, d: nat, c: nat, i: nat, n: nat)
    requires Sound(s) && Sound(t) && Copying(s, t, d, c, i) && i < n <= USER && i in s.spaces[d]
    ensures d in t.spaces && c in t.spaces && i !in t.spaces[c]
    ensures Lookup(t.mem, d, i) == Lookup(s.mem, d, i) && Lookup(t.mem, d, i).Pte? && Pde(t.mem, d, i).Pte?
    ensures var e := At(t.mem, Pde(t.mem, d, i).frame)[i % NPTE];
      e == Lookup(t.mem, d, i) && e.frame in t.mem && e.frame in s.mem && t.mem[e.frame] == s.mem[e.frame]
  {
    hide SpaceOk, UseOk, FreeOk;
    MappedPage(s.mem, s.free, s.owner, s.spaces, d, i);
    assert SameLookups(s.mem, t.mem, d);
    assert Lookup(t.mem, d, i) == Lookup(s.mem, d, i);
    UserFrame(s.mem, s.free, s.owner, s.spaces, d, i);
    UserFrame(t.mem, t.free, t.owner, t.spaces, d, i);
  }

  lemma CopiedMore(s: View, t: View, u: View, d: nat, c: nat, i: nat, ks: seq<Kmap>)
    requires Sound(t) && Copying(s, t, d, c, i) && i < USER && KernelPart(t.mem, c, ks) &&
      Losses(t.owner, u.owner) == {}
    requires var e := Lookup(s.mem, d, i); e.Pte? && e.frame in s.mem && Added(t, u, c, i, s.mem[e.frame], e.flags)
    requires c in t.spaces && c in u.spaces && u.spaces[c] == t.spaces[c] + {i}
    ensures Copying(s, u, d, c, i + 1) && KernelPart(u.mem, c, ks) && d in u.spaces
  {
    hide Lookup, KernelEntry, SpaceOk, UseOk, FreeOk, SameLookups;
    PreservedMore(s, t, u, c, i, i + 1);
    LossesTrans(s.owner, t.owner, u.owner);
    forall w | 0 <= w < i ensures CopyOf(s.mem, u.mem, d, c, w) {
      assert CopyOf(s.mem, t.mem, d, c, w);
      UserFrame(t.mem, t.free, t.owner, t.spaces, c, w);
    }
  }

  lemma PreservedLost(s: View, t: View, u: View)
    requires Preserved(s, t) && LosesOne(t, u) && Losses(s.owner, t.owner) == {}
    ensures Preserved(s, u) && |Losses(s.owner, u.owner)| == 1
  {
    hide Lookup, SameLookups, Kept, PageUsesKept, Losses;
    forall e | e in s.spaces ensures SameLookups(s.mem, u.mem, e) {
      SameTrans(s.mem, t.mem, u.mem, e);
    }
    var f :| f in t.owner && t.owner[f] == Free && u.owner == t.owner[f := Lost];
    OneMoreLost(s.owner, t.owner, f);
    KeptTrans(s.mem, s.owner, t.mem, t.owner, u.mem, u.owner);
  }

  lemma CopyStopped(s: View, t: View, u: View, d: nat, c: nat, i: nat, out: bool)
    requires Copying(s, t, d, c, i) && (if out then u == t else LosesOne(t, u))
    ensures Preserved(s, u) && |Losses(s.owner, u.owner)| == (if out then 0 else 1) && c in u.spaces && c !in s.spaces
    ensures u.spaces.Keys == s.spaces.Keys + {c}
  {
    hide Preserved, Losses, CopyOf;
    if !out {
      PreservedLost(s, t, u);
      assert u.spaces == t.spaces by { SpacesSame(t, u); }
    }
  }

  lemma SpacesSame(t: View, u: View)
    requires LosesOne(t, u)
    ensures u.spaces == t.spaces
  {
  }

  lemma CopyDone(s: View, t: View, d: nat, c: nat, i: nat)
    requires Copying(s, t, d, c, i)
    ensures Preserved(s, t) && Losses(s.owner, t.owner) == {} && c !in s.spaces
  {
    hide Preserved, Losses, CopyOf;
  }

  lemma CopyUndone(s: View, t: View, u: View, d: nat, c: nat)
    requires Preserved(s, t) && c !in s.spaces && t.spaces.Keys == s.spaces.Keys + {c} && Released(t, u, c)
    requires Sound(s) && Sound(t)
    ensures Preserved(s, u) && Losses(s.owner, u.owner) == Losses(s.owner, t.owner) && u.spaces == s.spaces
  {
    hide Lookup, SameLookups, SpaceOk, FreeOk, Losses;
    DirOwned(t.mem, t.owner, t.spaces[c], c);
    forall e | e in s.spaces ensures e in u.spaces && u.spaces[e] == s.spaces[e] && SameLookups(s.mem, u.mem, e) {
      SameTrans(s.mem, t.mem, u.mem, e);
    }
    forall f | f in s.owner && s.owner[f].PageOf? ensures s.owner[f].d != c {
      assert UseOk(s.mem, s.owner, s.spaces, f);
    }
    SameLosses(s.owner, t.owner, u.owner);
  }

  lemma SameLosses(o0: Owner, o1: Owner, o2: Owner)
    requires o1.Keys == o2.Keys && forall f :: f in o1 ==> (o1[f] == Lost <==> o2[f] == Lost)
    ensures Losses(o0, o2) == Losses(o0, o1)
  {
  }

  lemma OneMoreLost(owner: Owner, owner': Owner, f: nat)
    requires f in owner' && owner'[f] == Free && PageUsesKept(owner, owner') && Losses(owner, owner') == {}
    ensures Losses(owner, owner'[f := Lost]) == {f} && PageUsesKept(owner, owner'[f := Lost])
  {
    var lost := Losses(owner, owner'[f := Lost]);
    forall g | g in lost ensures g == f {
      assert g !in Losses(owner, owner');
    }
  }

  // ---- counting frames ----

  /** The tables that directory d has. */
  function Tabs(mem: Mem, d: nat): set<nat> {
    set i | 0 <= i < NPTE && At(mem, d)[i].Pte?
  }

  /** The tables that pages lo up to hi lie in. */
  function Spanned(lo: nat, hi: nat): set<nat> {
    set i | 0 <= i < NPTE && Spans(lo, hi, i)
  }

  predicate Spans(lo: nat, hi: nat, i: nat) { lo < hi && lo / NPTE <= i <= (hi - 1) / NPTE }

  function KernelTabs(ks: seq<Kmap>, j: nat): set<nat>
    requires j <= |ks|
  {
    if j == 0 then {} else KernelTabs(ks, j - 1) + Spanned(ks[j - 1].virt, ks[j - 1].virt + ks[j - 1].n)
  }

  /** The frames setupkvm takes: the directory, and a table for every span of pages with a kernel region. */
  function SetupNeed(ks: seq<Kmap>): nat { 1 + |KernelTabs(ks, |ks|)| }

  /** The frames a copy of n pages takes: those of setupkvm, the pages, and their tables. */
  function CopyNeed(ks: seq<Kmap>, n: nat): nat { SetupNeed(ks) + n + (n + NPTE - 1) / NPTE }

  /** The frames run out after some page of the copy has got its own and before its table. */
  ghost predicate CopyLoses(ks: seq<Kmap>, frames: nat, n: nat) {
    exists i :: 0 <= i < n && i % NPTE == 0 && frames == CopyNeed(ks, i) + 1
  }

  /** Every frame that left the free list has become one of d's tables, and those are now the given ones too. */
  ghost predicate Tallied(s: View, t: View, d: nat, tabs: set<nat>) {
    Tabs(t.mem, d) == Tabs(s.mem, d) + tabs && |t.free| + |Tabs(t.mem, d)| == |s.free| + |Tabs(s.mem, d)|
  }

  lemma TabsStep(mem: Mem, mem': Mem, d: nat, v: nat)
    requires v < NPAGES && Tabled(mem, mem', d, v)
    ensures Tabs(mem', d) == Tabs(mem, d) + {v / NPTE}
    ensures v / NPTE in Tabs(mem, d) <==> Pde(mem, d, v).Pte?
  {
    forall i | 0 <= i < NPTE ensures i in Tabs(mem', d) <==> i in Tabs(mem, d) || i == v / NPTE {
      var k := i * NPTE;
      assert k / NPTE == i && k < NPAGES;
      assert Pde(mem', d, k).Pte? <==> Pde(mem, d, k).Pte? || k / NPTE == v / NPTE;
    }
  }

  lemma SpannedMore(lo: nat, a: nat)
    requires lo <= a < NPAGES
    ensures Spanned(lo, a + 1) == Spanned(lo, a) + {a / NPTE}
  {
    assert lo < a ==> a / NPTE <= (a - 1) / NPTE + 1 && (a - 1) / NPTE <= a / NPTE && lo / NPTE <= (a - 1) / NPTE;
  }

  lemma TalliedNothing(s: View, d: nat, lo: nat)
    ensures Tallied(s, s, d, Spanned(lo, lo))
  {
    assert Spanned(lo, lo) == {};
  }

  lemma PlacedTabled(mem: Mem, owner: Owner, mem': Mem, owner': Owner, d: nat, v: nat, f: nat)
    requires v < NPAGES && Placed(mem, owner, mem', owner', d, v, f)
    ensures Tabled(mem, mem', d, v)
  {
  }

  lemma TalliedMore(s: View, t: View, u: View, d: nat, lo: nat, a: nat)
    requires lo <= a < NPAGES && Tallied(s, t, d, Spanned(lo, a)) && Tabled(t.mem, u.mem, d, a)
    requires Pde(t.mem, d, a).Pte? || t.free != []
    requires u.free == if Pde(t.mem, d, a).Pte? then t.free else t.free[1..]
    ensures Tallied(s, u, d, Spanned(lo, a + 1))
  {
    hide Tabs, Spanned, Tabled;
    TabsStep(t.mem, u.mem, d, a);
    SpannedMore(lo, a);
    assert Tabs(u.mem, d) == Tabs(s.mem, d) + Spanned(lo, a + 1);
    if Pde(t.mem, d, a).Pte? {
      assert Tabs(u.mem, d) == Tabs(t.mem, d);
    }
  }

  lemma TalliedStop(s: View, t: View, d: nat, lo: nat, a: nat, hi: nat)
    requires lo <= a < hi <= NPAGES && Tallied(s, t, d, Spanned(lo, a)) && !Pde(t.mem, d, a).Pte? && t.free == []
    ensures |s.free| < |Spanned(lo, hi) - Tabs(s.mem, d)|
  {
    var made := Tabs(t.mem, d) - Tabs(s.mem, d);
    assert Tabs(t.mem, d) == Tabs(s.mem, d) + made;
    assert a / NPTE in Spanned(lo, hi) - Tabs(s.mem, d) - made by {
      assert lo / NPTE <= a / NPTE <= (hi - 1) / NPTE;
    }
    assert made <= Spanned(lo, hi) by {
      assert lo < a ==> (a - 1) / NPTE <= (hi - 1) / NPTE;
    }
    Below(made, Spanned(lo, hi) - Tabs(s.mem, d));
  }

  lemma TalliedAll(s: View, t: View, d: nat, tabs: set<nat>)
    requires Tallied(s, t, d, tabs)
    ensures |s.free| == |t.free| + |tabs - Tabs(s.mem, d)|
  {
    assert Tabs(t.mem, d) == Tabs(s.mem, d) + (tabs - Tabs(s.mem, d));
  }

  lemma Joined(s: set<nat>, t: set<nat>)
    ensures |s| + |t - s| == |s + t|
  {
    assert s + t == s + (t - s);
  }

  lemma Below(s: set<nat>, t: set<nat>)
    requires s < t
    ensures |s| < |t|
  {
    assert t == s + (t - s) && t - s != {};
  }

  lemma BlankTabs(mem: Mem, d: nat, ks: seq<Kmap>)
    requires Blank(mem, d)
    ensures Tabs(mem, d) == KernelTabs(ks, 0) && |KernelTabs(ks, 0)| == 0
  {
    forall i | 0 <= i < NPTE ensures i !in Tabs(mem, d) {
      assert i * NPTE / NPTE == i;
    }
  }

  lemma {:induction false} KernelTabsMono(ks: seq<Kmap>, j: nat, n: nat)
    requires j <= n <= |ks|
    ensures KernelTabs(ks, j) <= KernelTabs(ks, n) && |KernelTabs(ks, j)| <= |KernelTabs(ks, n)|
  {
    hide Spanned;
    if j < n {
      KernelTabsMono(ks, j, n - 1);
    }
    assert KernelTabs(ks, n) == KernelTabs(ks, j) + (KernelTabs(ks, n) - KernelTabs(ks, j));
  }

  /** What region k adds to the need is what its mapping takes. */
  lemma NextTabs(t: View, d: nat, ks: seq<Kmap>, k: nat)
    requires k < |ks| && Tabs(t.mem, d) == KernelTabs(ks, k)
    ensures |KernelTabs(ks, k)| + |Spanned(ks[k].virt, ks[k].virt + ks[k].n) - Tabs(t.mem, d)| ==
      |KernelTabs(ks, k + 1)| <= |KernelTabs(ks, |ks|)|
  {
    hide Spanned, Tabs;
    Joined(KernelTabs(ks, k), Spanned(ks[k].virt, ks[k].virt + ks[k].n));
    KernelTabsMono(ks, k + 1, |ks|);
  }

  lemma RegionTallied(t: View, u: View, d: nat, ks: seq<Kmap>, k: nat)
    requires k < |ks| && Tabs(t.mem, d) == KernelTabs(ks, k) &&
      Tallied(t, u, d, Spanned(ks[k].virt, ks[k].virt + ks[k].n))
    ensures Tabs(u.mem, d) == KernelTabs(ks, k + 1) &&
      |u.free| + |KernelTabs(ks, k + 1)| == |t.free| + |KernelTabs(ks, k)|
  {
    hide Spanned;
  }

  lemma {:induction false} KernelTabsHigh(ks: seq<Kmap>, j: nat)
    requires KmapsOk(ks) && j <= |ks|
    ensures forall i :: i in KernelTabs(ks, j) ==> USER / NPTE <= i
  {
    if j > 0 {
      KernelTabsHigh(ks, j - 1);
      assert KmapOk(ks[j - 1]);
    }
  }

  /** After i pages of the copy c. */
  ghost predicate CopyTally(s: View, t: View, c: nat, ks: seq<Kmap>, i: nat) {
    i <= USER && Tabs(t.mem, c) == KernelTabs(ks, |ks|) + Spanned(0, i) && |t.free| + CopyNeed(ks, i) == |s.free|
  }

  lemma NothingTallied(s: View, t: View, c: nat, ks: seq<Kmap>)
    requires Tabs(t.mem, c) == KernelTabs(ks, |ks|) && |t.free| + SetupNeed(ks) == |s.free|
    ensures CopyTally(s, t, c, ks, 0)
  {
    hide Tabs, KernelTabs;
    assert Spanned(0, 0) == {};
  }

  /** Page i of the copy finds its table unless it is the first page of a table. */
  lemma CopyTable(t: View, c: nat, ks: seq<Kmap>, i: nat)
    requires KmapsOk(ks) && i < USER && Tabs(t.mem, c) == KernelTabs(ks, |ks|) + Spanned(0, i)
    ensures Pde(t.mem, c, i).Pte? <==> i % NPTE != 0
    ensures CopyNeed(ks, i + 1) == CopyNeed(ks, i) + 1 + if Pde(t.mem, c, i).Pte? then 0 else 1
  {
    hide KernelTabs, KmapsOk;
    KernelTabsHigh(ks, |ks|);
    assert i / NPTE < USER / NPTE;
    assert i / NPTE in Tabs(t.mem, c) <==> Pde(t.mem, c, i).Pte?;
    assert i > 0 ==> (i / NPTE <= (i - 1) / NPTE <==> i % NPTE != 0);
    assert i / NPTE in Spanned(0, i) <==> i % NPTE != 0;
    RoundUp(i, i + 1);
  }

  lemma CopyTallied(s: View, t: View, u: View, c: nat, ks: seq<Kmap>, i: nat)
    requires KmapsOk(ks) && i < USER && CopyTally(s, t, c, ks, i) && Tabled(t.mem, u.mem, c, i)
    requires |t.free| == |u.free| + 1 + if Pde(t.mem, c, i).Pte? then 0 else 1
    ensures CopyTally(s, u, c, ks, i + 1)
  {
    hide Tabs, KernelTabs, Spanned, Tabled, CopyNeed, KmapsOk;
    CopyTable(t, c, ks, i);
    TabsStep(t.mem, u.mem, c, i);
    SpannedMore(0, i);
  }

  lemma RoundUp(i: nat, n: nat)
    requires i < n
    ensures (i + 1 + NPTE - 1) / NPTE == (i + NPTE - 1) / NPTE + if i % NPTE == 0 then 1 else 0
    ensures (i + 1 + NPTE - 1) / NPTE <= (n + NPTE - 1) / NPTE
  {
  }

  lemma CopyNeedsSetup(ks: seq<Kmap>, n: nat)
    ensures CopyNeed(ks, n) >= SetupNeed(ks)
  {
    hide SetupNeed;
  }

  lemma CopyNeedMono(ks: seq<Kmap>, i: nat, n: nat)
    requires i < n
    ensures CopyNeed(ks, i) + 1 + (if i % NPTE == 0 then 1 else 0) <= CopyNeed(ks, n)
  {
    hide SetupNeed;
    RoundUp(i, n);
  }

  /** The copy stops at page i for want of a frame, and a page is lost exactly when that frame was for the table. */
  lemma CopyShort(s: View, t: View, c: nat, ks: seq<Kmap>, i: nat, n: nat, out: bool)
    requires KmapsOk(ks) && i < n <= USER && CopyTally(s, t, c, ks, i) && (out <==> t.free == [])
    requires !out ==> !Pde(t.mem, c, i).Pte? && |t.free| == 1
    ensures |s.free| < CopyNeed(ks, n) && (CopyLoses(ks, |s.free|, n) <==> !out)
  {
    hide Tabs, KernelTabs, Spanned, CopyNeed, KmapsOk;
    CopyTable(t, c, ks, i);
    CopyNeedMono(ks, i, n);
    if out {
      forall j | 0 <= j < n && j % NPTE == 0 ensures |s.free| != CopyNeed(ks, j) + 1 {
        if j < i {
          CopyNeedMono(ks, j, i);
        } else if i < j {
          CopyNeedMono(ks, i, j);
        }
      }
    } else {
      assert i % NPTE == 0;
    }
  }

  lemma CopyEnough(s: View, t: View, c: nat, ks: seq<Kmap>, n: nat)
    requires CopyTally(s, t, c, ks, n)
    ensures |t.free| + CopyNeed(ks, n) == |s.free| && |s.free| >= SetupNeed(ks)
  {
    hide Tabs, KernelTabs, Spanned;
  }

  /** Kernel regions do not overlap. */
  ghost predicate KmapsOk(ks: seq<Kmap>) {
    && (forall j :: 0 <= j < |ks| ==> KmapOk(ks[j]))
    && (forall i, j :: 0 <= i < j < |ks| ==> ks[i].virt + ks[i].n <= ks[j].virt || ks[j].virt + ks[j].n <= ks[i].virt)
  }

  /** The entry that the first j kernel regions prescribe for page w. */
  function KernelEntry(ks: seq<Kmap>, j: nat, w: nat): Pte
    requires j <= |ks|
  {
    if j == 0 then Absent
    else if ks[j - 1].virt <= w < ks[j - 1].virt + ks[j - 1].n then
      Pte(ks[j - 1].phys + w - ks[j - 1].virt, ks[j - 1].perm)
    else KernelEntry(ks, j - 1, w)
  }

  ghost predicate KernelUpTo(mem: Mem, d: nat, ks: seq<Kmap>, j: nat)
    requires j <= |ks|
  {
    forall w :: 0 <= w < NPAGES ==> Lookup(mem, d, w) == KernelEntry(ks, j, w)
  }

  lemma KernelNone(mem: Mem, d: nat, ks: seq<Kmap>)
    requires Blank(mem, d)
    ensures KernelUpTo(mem, d, ks, 0)
  {
  }

  lemma {:induction false} OutsideRegions(ks: seq<Kmap>, j: nat, k: nat, w: nat)
    requires KmapsOk(ks) && j <= k < |ks| && ks[k].virt <= w < ks[k].virt + ks[k].n
    ensures KernelEntry(ks, j, w) == Absent
  {
    if j > 0 {
      OutsideRegions(ks, j - 1, k, w);
    }
  }

  lemma NextRegion(mem: Mem, d: nat, ks: seq<Kmap>, k: nat)
    requires KmapsOk(ks) && k < |ks| && KernelUpTo(mem, d, ks, k)
    ensures KmapOk(ks[k]) && forall w :: ks[k].virt <= w < ks[k].virt + ks[k].n ==> Lookup(mem, d, w) == Absent
  {
    hide Lookup;
    forall w | ks[k].virt <= w < ks[k].virt + ks[k].n ensures Lookup(mem, d, w) == Absent {
      OutsideRegions(ks, k, k, w);
    }
  }

  /** setupkvm has mapped the first k regions into the new directory d. */
  ghost predicate SettingUp(s: View, t: View, d: nat, ks: seq<Kmap>, k: nat)
    requires k <= |ks|
  {
    && d !in s.spaces && t.spaces == s.spaces[d := {}] && Preserved(s, t) && Losses(s.owner, t.owner) == {}
    && KernelUpTo(t.mem, d, ks, k)
    && Tabs(t.mem, d) == KernelTabs(ks, k) && |t.free| + 1 + |KernelTabs(ks, k)| == |s.free|
  }

  /** One region more, mapped or not: what was there before is kept, and a failure means too few frames in all. */
  lemma StillPreserved(s: View, t: View, u: View, d: nat, ks: seq<Kmap>, k: nat)
    requires k < |ks| && SettingUp(s, t, d, ks, k) && Losses(t.owner, u.owner) == {}
    requires OthersKept(t, u, d) && OnlyPages(t, u, d, ks[k].virt, ks[k].virt + ks[k].n)
    ensures Preserved(s, u) && Losses(s.owner, u.owner) == {}
    ensures |t.free| < |Spanned(ks[k].virt, ks[k].virt + ks[k].n) - Tabs(t.mem, d)| ==> |s.free| < SetupNeed(ks)
  {
    hide Preserved, KernelUpTo, OthersKept, OnlyPages, Losses, Tabs, Spanned, KernelTabs;
    PreservedMore(s, t, u, d, ks[k].virt, ks[k].virt + ks[k].n);
    LossesTrans(s.owner, t.owner, u.owner);
    NextTabs(t, d, ks, k);
  }

  lemma RegionSetUp(s: View, t: View, u: View, d: nat, ks: seq<Kmap>, k: nat)
    requires KmapsOk(ks) && k < |ks| && SettingUp(s, t, d, ks, k) && u.spaces == t.spaces
    requires Preserved(s, u) && Losses(s.owner, u.owner) == {} && OnlyPages(t, u, d, ks[k].virt, ks[k].virt + ks[k].n)
    requires forall w :: ks[k].virt <= w < ks[k].virt + ks[k].n && w < NPAGES ==>
      Lookup(u.mem, d, w) == Pte(ks[k].phys + w - ks[k].virt, ks[k].perm)
    requires Tallied(t, u, d, Spanned(ks[k].virt, ks[k].virt + ks[k].n))
    ensures SettingUp(s, u, d, ks, k + 1)
  {
    hide Preserved, KernelUpTo, OnlyPages, Losses, Tabs, Spanned, KernelTabs, KmapsOk, Tallied, Lookup;
    RegionTallied(t, u, d, ks, k);
    KernelMoreRegions(t, u, d, ks, k);
  }

  lemma KernelMoreRegions(t: View, u: View, d: nat, ks: seq<Kmap>, k: nat)
    requires KmapsOk(ks) && k < |ks| && KernelUpTo(t.mem, d, ks, k) && d in t.spaces
    requires OnlyPages(t, u, d, ks[k].virt, ks[k].virt + ks[k].n)
    requires forall w :: ks[k].virt <= w < ks[k].virt + ks[k].n && w < NPAGES ==>
      Lookup(u.mem, d, w) == Pte(ks[k].phys + w - ks[k].virt, ks[k].perm)
    ensures KernelUpTo(u.mem, d, ks, k + 1)
  {
    hide Lookup;
  }

  /** Every address space is still there, page for page, with the contents it had. */
  ghost predicate Preserved(s: View, t: View) {
    && (forall e :: e in s.spaces ==> e in t.spaces && t.spaces[e] == s.spaces[e] && SameLookups(s.mem, t.mem, e))
    && t.owner.Keys == s.owner.Keys && PageUsesKept(s.owner, t.owner) && Kept(s.mem, s.owner, t.mem, t.owner)
  }

  lemma PreservedRefl(s: View)
    requires Sound(s)
    ensures Preserved(s, s) && Losses(s.owner, s.owner) == {}
  {
    hide SpaceOk, UseOk, FreeOk, Lookup;
    DataInMemory(s.mem, s.owner, s.spaces);
  }

  lemma NewSpace(s: View, t: View, d: nat)
    requires Sound(s) && d in s.owner && s.owner[d] == Free && d !in s.spaces
    requires t.mem == s.mem[d := Table(Empty())] && t.owner == s.owner[d := Taken][d := Dir] &&
      t.spaces == s.spaces[d := {}]
    requires forall e :: e in s.spaces ==> SameLookups(s.mem, t.mem, e)
    ensures Preserved(s, t) && Losses(s.owner, t.owner) == {}
  {
    hide SpaceOk, UseOk, FreeOk, Lookup;
    DataInMemory(s.mem, s.owner, s.spaces);
  }

  lemma PreservedMore(s: View, t: View, u: View, d: nat, lo: nat, hi: nat)
    requires Preserved(s, t) && d !in s.spaces && OthersKept(t, u, d) && OnlyPages(t, u, d, lo, hi)
    ensures Preserved(s, u)
  {
    hide Lookup;
    forall e | e in s.spaces ensures SameLookups(s.mem, u.mem, e) {
      assert SameLookups(t.mem, u.mem, e);
      SameTrans(s.mem, t.mem, u.mem, e);
    }
  }

  predicate KmapOk(k: Kmap) { USER <= k.virt && 0 < k.n && k.virt + k.n <= NPAGES }

  ghost predicate KernelMapping(s: View, t: View, d: nat, k: Kmap, a: nat)
    requires KmapOk(k) && k.virt <= a <= k.virt + k.n
  {
    && OthersKept(s, t, d) && OnlyPages(s, t, d, k.virt, a) && Losses(s.owner, t.owner) == {}
    && (forall w :: k.virt <= w < a ==> Lookup(t.mem, d, w) == Pte(k.phys + w - k.virt, k.perm))
    && (forall w :: a <= w < k.virt + k.n ==> Lookup(t.mem, d, w) == Absent)
  }

  lemma KernelStart(s: View, d: nat, k: Kmap)
    requires Sound(s) && d in s.spaces && KmapOk(k) && forall w :: k.virt <= w < k.virt + k.n ==>
      Lookup(s.mem, d, w) == Absent
    ensures KernelMapping(s, s, d, k, k.virt)
  {
    hide SpaceOk, UseOk, FreeOk, Lookup;
    DataInMemory(s.mem, s.owner, s.spaces);
  }

  lemma NextKernel(s: View, t: View, d: nat, k: Kmap, a: nat)
    requires KmapOk(k) && k.virt <= a < k.virt + k.n && KernelMapping(s, t, d, k, a)
    ensures Lookup(t.mem, d, a) == Absent
  {
  }

  lemma KernelStop(s: View, t: View, d: nat, k: Kmap, a: nat)
    requires KmapOk(k) && k.virt <= a <= k.virt + k.n && KernelMapping(s, t, d, k, a)
    ensures OthersKept(s, t, d) && OnlyPages(s, t, d, k.virt, k.virt + k.n) && Losses(s.owner, t.owner) == {}
    ensures forall w :: k.virt <= w < a ==> Lookup(t.mem, d, w) == Pte(k.phys + w - k.virt, k.perm)
  {
    hide Lookup;
  }

  lemma OthersTrans(s: View, t: View, u: View, d: nat)
    requires OthersKept(s, t, d) && OthersKept(t, u, d)
    ensures OthersKept(s, u, d)
  {
  }

  lemma PlacedKept(t: View, u: View, d: nat, a: nat, f: nat)
    requires USER <= a < NPAGES && d in t.spaces && u.spaces == t.spaces &&
      Placed(t.mem, t.owner, u.mem, u.owner, d, a, f)
    ensures OthersKept(t, u, d) && Losses(t.owner, u.owner) == {}
  {
  }

  lemma LossesTrans(o0: Owner, o1: Owner, o2: Owner)
    requires Losses(o0, o1) == {}
    ensures Losses(o0, o2) <= Losses(o1, o2)
  {
    forall f | f in Losses(o0, o2) ensures f in Losses(o1, o2) {
      assert f !in Losses(o0, o1);
    }
  }

  lemma KernelMore(s: View, t: View, u: View, d: nat, k: Kmap, a: nat)
    requires KmapOk(k) && k.virt <= a < k.virt + k.n && KernelMapping(s, t, d, k, a) && u.spaces == t.spaces &&
      d in t.spaces
    requires Placed(t.mem, t.owner, u.mem, u.owner, d, a, k.phys + a - k.virt) && OnlyPage(t.mem, u.mem, t.spaces, d, a)
    requires Lookup(u.mem, d, a) == Pte(k.phys + a - k.virt, k.perm)
    ensures KernelMapping(s, u, d, k, a + 1)
  {
    hide Lookup, Placed, OthersKept, Losses;
    PlacedKept(t, u, d, a, k.phys + a - k.virt);
    OthersTrans(s, t, u, d);
    LossesTrans(s.owner, t.owner, u.owner);
    OnlyMore(s, t, u, d, k.virt, a);
  }

  lemma OnlyMore(s: View, t: View, u: View, d: nat, lo: nat, a: nat)
    requires OthersKept(s, t, d) && OnlyPages(s, t, d, lo, a) && OnlyPage(t.mem, u.mem, t.spaces, d, a) && lo <= a
    ensures OnlyPages(s, u, d, lo, a + 1)
  {
    hide Lookup;
  }

  /** The uses of frames once tables 0 up to i of directory d are free; the rest of d's frames are taken. */
  function DirFreed(owner: Owner, d: nat, i: nat): (r: Owner)
    ensures r.Keys == owner.Keys
  {
    map f | f in owner ::
      if f == d then Taken else if owner[f].TableOf? &&
        owner[f].d == d then (if owner[f].i < i then Free else Taken) else owner[f]
  }

  lemma DirFreedStart(s: View, d: nat)
    ensures DirFreed(s.owner, d, 0) == Detached(s.owner, d)
  {
  }

  ghost predicate Releasing(s: View, t: View, d: nat, i: nat) {
    && t.owner == DirFreed(s.owner, d, i) && At(t.mem, d) == At(s.mem, d)
    && (forall e :: e in s.spaces && e != d ==> SameLookups(s.mem, t.mem, e)) && Kept(s.mem, s.owner, t.mem, t.owner)
  }

  lemma ReleasingStart(s: View, t: View, d: nat)
    requires Sound(s) && t.mem == s.mem && t.owner == DirFreed(s.owner, d, 0)
    ensures Releasing(s, t, d, 0)
  {
    hide SpaceOk, UseOk, FreeOk;
    DataInMemory(s.mem, s.owner, s.spaces);
  }

  lemma TableFrame(s: View, t: View, d: nat, i: nat)
    requires Sound(s) && d in s.spaces && Releasing(s, t, d, i) && i < NPTE
    ensures var e := At(t.mem, d)[i]; e.Pte? ==>
      e.frame in t.owner && t.owner[e.frame] == Taken && e.frame != d && s.owner[e.frame] == TableOf(d, i)
  {
    assert SpaceOk(s.mem, s.owner, s.spaces[d], d);
    assert PdeOk(s.mem, s.owner, d, i);
  }

  lemma DirFreedMore(owner: Owner, d: nat, i: nat, e: Pte)
    requires forall f :: f in owner && owner[f] == TableOf(d, i) ==> e.Pte? && e.frame == f
    requires e.Pte? ==> e.frame in owner && owner[e.frame] == TableOf(d, i) && e.frame != d
    ensures DirFreed(owner, d, i + 1) == if e.Pte? then DirFreed(owner, d, i)[e.frame := Free]
      else DirFreed(owner, d, i)
  {
  }

  lemma ReleasingMore(s: View, t: View, u: View, d: nat, i: nat)
    requires Sound(s) && d in s.spaces && Releasing(s, t, d, i) && i < NPTE && t.spaces == s.spaces - {d}
    requires forall g :: g in t.spaces ==> SameLookups(t.mem, u.mem, g)
    requires var e := At(t.mem, d)[i];
      if e.Pte? then
        && e.frame in t.owner && t.owner[e.frame] == Taken && e.frame != d && s.owner[e.frame] == TableOf(d, i)
        && u.mem == t.mem[e.frame := Data(JUNK)] && u.owner == t.owner[e.frame := Free]
      else u.mem == t.mem && u.owner == t.owner
    ensures Releasing(s, u, d, i + 1)
  {
    hide SpaceOk, FreeOk, Lookup, SameLookups, DirFreed;
    forall f | f in s.owner && s.owner[f] == TableOf(d, i) ensures At(t.mem, d)[i].Pte? && At(t.mem, d)[i].frame == f {
      assert UseOk(s.mem, s.owner, s.spaces, f);
    }
    DirFreedMore(s.owner, d, i, At(t.mem, d)[i]);
    forall g | g in s.spaces && g != d ensures SameLookups(s.mem, u.mem, g) {
      assert g in t.spaces;
      SameTrans(s.mem, t.mem, u.mem, g);
    }
  }

  lemma SameTrans(mem: Mem, mem': Mem, mem'': Mem, d: nat)
    requires SameLookups(mem, mem', d) && (mem'' == mem' || SameLookups(mem', mem'', d))
    ensures SameLookups(mem, mem'', d)
  {
    hide Lookup;
    forall v | 0 <= v < NPAGES ensures Lookup(mem'', d, v) == Lookup(mem, d, v) {
      assert Lookup(mem', d, v) == Lookup(mem, d, v);
    }
  }

  lemma LastFrame(s: View, t: View, d: nat)
    requires Sound(s) && d in s.spaces && Releasing(s, t, d, NPTE)
    ensures d in t.owner && t.owner[d] == Taken
  {
    assert SpaceOk(s.mem, s.owner, s.spaces[d], d);
  }

  function AllFreed(owner: Owner, d: nat): Owner {
    map f | f in owner ::
      if f == d || (owner[f].TableOf? && owner[f].d == d) ||
        (owner[f].PageOf? && owner[f].d == d) then Free else owner[f]
  }

  /** The address space d is gone: its directory, tables and pages are free frames, all else is as it was. */
  ghost predicate Released(s: View, t: View, d: nat) {
    && t.spaces == s.spaces - {d} && t.owner == AllFreed(s.owner, d) && Kept(s.mem, s.owner, t.mem, t.owner)
    && forall e :: e in t.spaces ==> SameLookups(s.mem, t.mem, e)
  }

  lemma ReleasedUses(s0: View, s: View, owner: Owner, d: nat)
    requires Sound(s0) && Sound(s) && s.owner == FreedUses(s0.owner, d, 0, USER) && owner == DirFreed(s.owner, d, NPTE)
    ensures owner[d := Free] == if d in s0.owner then AllFreed(s0.owner, d) else owner[d := Free]
  {
    hide SpaceOk, FreeOk, Lookup, FreedUses, DirFreed, AllFreed;
    forall f | f in s0.owner && s0.owner[f].PageOf? ensures s0.owner[f].v < USER {
      assert UseOk(s0.mem, s0.owner, s0.spaces, f);
    }
    forall f | f in s0.owner && s0.owner[f].TableOf? ensures s0.owner[f].i < NPTE {
      assert UseOk(s0.mem, s0.owner, s0.spaces, f);
    }
    EveryUseFreed(s0.owner, d);
  }

  lemma EveryUseFreed(owner: Owner, d: nat)
    requires forall f :: f in owner && owner[f].PageOf? ==> owner[f].v < USER
    requires forall f :: f in owner && owner[f].TableOf? ==> owner[f].i < NPTE
    ensures d in owner ==> DirFreed(FreedUses(owner, d, 0, USER), d, NPTE)[d := Free] == AllFreed(owner, d)
  {
  }

  lemma KeptTrans(m0: Mem, o0: Owner, m1: Mem, o1: Owner, m2: Mem, o2: Owner)
    requires Kept(m0, o0, m1, o1) && Kept(m1, o1, m2, o2)
    requires forall f :: f in o0 && f in o2 && o0[f].PageOf? && o2[f] == o0[f] ==> f in o1 && o1[f] == o0[f]
    ensures Kept(m0, o0, m2, o2)
  {
  }

  lemma ReleasedAll(s0: View, s: View, t: View, u: View, d: nat)
    requires Sound(s0) && Sound(s) && Shrunk(s0, s, d, 0, USER) && d in s0.spaces
    requires Sound(t) && Releasing(s, t, d, NPTE) && u.owner == t.owner[d := Free] && u.spaces == s.spaces - {d}
    requires d in t.owner && t.owner[d] == Taken && u.mem == t.mem[d := Data(JUNK)]
    requires forall e :: e in u.spaces ==> SameLookups(t.mem, u.mem, e)
    ensures Released(s0, u, d)
  {
    hide Ok, Lookup, SameLookups, Kept;
    ReleasedUses(s0, s, t.owner, d);
    assert u.spaces == s0.spaces - {d};
    forall e | e in u.spaces ensures SameLookups(s0.mem, u.mem, e) {
      OnlyOthers(s0, s, d, e);
      SameTrans(s0.mem, s.mem, t.mem, e);
      SameTrans(s0.mem, t.mem, u.mem, e);
    }
    KeptTrans(s0.mem, s0.owner, s.mem, s.owner, t.mem, t.owner);
    KeptTrans(s0.mem, s0.owner, t.mem, t.owner, u.mem, u.owner) by {
      AllInMemory(t);
      KeptStore(t.mem, t.owner, d);
    }
  }

  lemma AllInMemory(s: View)
    requires Sound(s)
    ensures forall f :: f in s.owner ==> f in s.mem
  {
    hide SpaceOk, UseOk, FreeOk;
    DataInMemory(s.mem, s.owner, s.spaces);
  }

  lemma OnlyOthers(s: View, t: View, d: nat, e: nat)
    requires Shrunk(s, t, d, 0, USER) && e in s.spaces && e != d
    ensures SameLookups(s.mem, t.mem, e)
  {
    hide Lookup;
  }

  lemma KeptStore(mem: Mem, owner: Owner, d: nat)
    requires d in owner && owner[d] == Taken && forall f :: f in owner ==> f in mem
    ensures Kept(mem, owner, mem[d := Data(JUNK)], owner[d := Free])
  {
  }

  /** Page k is the first of the range to need a table that d does not have. */
  predicate NewTable(mem: Mem, d: nat, v: nat, k: nat)
    requires k < NPAGES
  {
    Pde(mem, d, k) == Absent && (k == v || k % NPTE == 0)
  }

  /** The frames that pages v up to n take: one each, and one for every missing table. */
  function Need(mem: Mem, d: nat, v: nat, n: nat): (r: nat)
    requires n <= NPAGES
    ensures r >= n - v
  {
    if n <= v then 0 else Need(mem, d, v, n - 1) + if NewTable(mem, d, v, n - 1) then 2 else 1
  }

  /** The frames run out after page k has got its own and before its table. */
  predicate LosesAt(mem: Mem, frames: nat, d: nat, v: nat, k: nat)
    requires k < NPAGES
  {
    v <= k && NewTable(mem, d, v, k) && frames == Need(mem, d, v, k) + 1
  }

  ghost predicate Growing(s: View, t: View, d: nat, v: nat, a: nat, lost: bool) {
    var top := if lost then a - 1 else a;
    && v <= top && a <= USER && d in s.spaces && d in t.spaces && Extended(s.spaces[d], t.spaces[d], v, top)
    && Grown(s, t, d, v, top)
    && (lost ==> t.free == [] && LosesAt(s.mem, |s.free|, d, v, top) && |Losses(s.owner, t.owner)| == 1)
    && (!lost ==>
      |t.free| + Need(s.mem, d, v, a) == |s.free| && Losses(s.owner, t.owner) == {} && Tables(s.mem, t.mem, d, v, a))
  }

  /** The tables d has after pages v up to a have been mapped. */
  ghost predicate Tables(mem: Mem, mem': Mem, d: nat, v: nat, a: nat) {
    forall k :: 0 <= k < NPAGES ==>
      (Pde(mem', d, k).Pte? <==> Pde(mem, d, k).Pte? || (v < a && v / NPTE <= k / NPTE <= (a - 1) / NPTE))
  }

  /** Other address spaces are untouched, and every user page that was mapped still is, with the contents it had. */
  ghost predicate OthersKept(s: View, t: View, d: nat) {
    && d in s.spaces && t.spaces.Keys == s.spaces.Keys
    && (forall e :: e in s.spaces && e != d ==> t.spaces[e] == s.spaces[e])
    && t.owner.Keys == s.owner.Keys && PageUsesKept(s.owner, t.owner) && Kept(s.mem, s.owner, t.mem, t.owner)
  }

  /** The flat maps agree but for the pages lo up to hi of d. */
  ghost predicate OnlyPages(s: View, t: View, d: nat, lo: nat, hi: nat) {
    forall e, w :: e in s.spaces && 0 <= w < NPAGES && (e != d || w < lo || hi <= w) ==>
      Lookup(t.mem, e, w) == Lookup(s.mem, e, w)
  }

  /** What has happened once d has zeroed, writable user pages v up to a, and every other page is as it was. */
  ghost predicate Grown(s: View, t: View, d: nat, v: nat, a: nat)
    requires a <= NPAGES
  {
    OthersKept(s, t, d) && OnlyPages(s, t, d, v, a) && forall w :: v <= w < a ==> Zeroed(t.mem, d, w)
  }

  ghost predicate Allocated(s: View, t: View, d: nat, v: nat, n: nat, r: nat, newsz: nat) {
    && v <= n <= USER && d in s.spaces && d in t.spaces
    && (|s.free| >= Need(s.mem, d, v, n) ==>
          && r == newsz && Extended(s.spaces[d], t.spaces[d], v, n) && Grown(s, t, d, v, n)
          && Losses(s.owner, t.owner) == {} && |t.free| == |s.free| - Need(s.mem, d, v, n))
    && (|s.free| < Need(s.mem, d, v, n) ==>
          && (Losses(s.owner, t.owner) == {} <==> forall k :: v <= k < n ==> !LosesAt(s.mem, |s.free|, d, v, k))
          && |Losses(s.owner, t.owner)| <= 1
          && if v < n && LosesAt(s.mem, |s.free|, d, v, n - 1)
             then r == newsz && Extended(s.spaces[d], t.spaces[d], v, n - 1) && Grown(s, t, d, v, n - 1)
             else r == 0 && t.spaces[d] == s.spaces[d] && OthersKept(s, t, d) && OnlyPages(s, t, d, v, n))
  }

  lemma GrownNothing(s: View, d: nat, v: nat)
    requires Sound(s) && d in s.spaces && v <= USER
    ensures Growing(s, s, d, v, v, false)
  {
    hide SpaceOk, UseOk, FreeOk, Lookup;
    DataInMemory(s.mem, s.owner, s.spaces);
  }

  lemma NextTable(s: View, t: View, d: nat, v: nat, a: nat)
    requires Growing(s, t, d, v, a, false) && a < USER
    ensures Pde(t.mem, d, a).Pte? <==> !NewTable(s.mem, d, v, a)
  {
    hide Grown, Need, Losses;
    if v < a {
      assert a / NPTE == (a - 1) / NPTE <==> a % NPTE != 0;
    }
  }

  lemma NextPage(s: View, t: View, d: nat, v: nat, a: nat, n: nat, lost: bool)
    requires Growing(s, t, d, v, a, lost) && a < n <= USER && Vacant(s.spaces[d], v, n)
    ensures a !in t.spaces[d] && v <= (if lost then a - 1 else a)
    ensures !lost ==> (Pde(t.mem, d, a).Pte? <==> !NewTable(s.mem, d, v, a))
    ensures lost ==> t.free == []
  {
    hide Grown, Need, Losses, NewTable, Tables;
    if !lost {
      NextTable(s, t, d, v, a);
    }
  }

  /** One frame, free before, is accounted to nobody; nothing else has changed. */
  ghost predicate LosesOne(s: View, t: View) {
    && t.spaces == s.spaces && (forall e :: e in s.spaces ==> SameLookups(s.mem, t.mem, e))
    && Kept(s.mem, s.owner, t.mem, t.owner)
    && exists f :: f in s.owner && s.owner[f] == Free && t.owner == s.owner[f := Lost]
  }

  lemma LosesOneFacts(s: View, f: nat, x: Frame)
    requires Sound(s) && f in s.owner && s.owner[f] == Free
    requires forall e :: e in s.spaces ==> SameLookups(s.mem, s.mem[f := x], e)
    ensures LosesOne(s, s.(free := [], mem := s.mem[f := x], owner := s.owner[f := Taken][f := Lost]))
  {
    hide SameLookups, SpaceOk, UseOk, FreeOk;
    DataInMemory(s.mem, s.owner, s.spaces);
    assert s.owner[f := Taken][f := Lost] == s.owner[f := Lost];
  }

  /** Frames that have come to belong to nobody. */
  function Losses(owner: Owner, owner': Owner): set<nat> {
    set f | f in owner' && owner'[f] == Lost && (f !in owner || owner[f] != Lost)
  }

  /** The directory d has gained at most the table page v needs. */
  ghost predicate Tabled(mem: Mem, mem': Mem, d: nat, v: nat) {
    forall k :: 0 <= k < NPAGES ==> (Pde(mem', d, k).Pte? <==> Pde(mem, d, k).Pte? || k / NPTE == v / NPTE)
  }

  predicate PageIs(mem: Mem, d: nat, w: nat, x: Frame, flags: nat)
    requires w < NPAGES
  {
    var e := Lookup(mem, d, w);
    e.Pte? && e.flags == flags && e.frame in mem && mem[e.frame] == x
  }

  predicate Zeroed(mem: Mem, d: nat, w: nat)
    requires w < NPAGES
  {
    PageIs(mem, d, w, Data(ZERO), USER_FLAGS)
  }

  ghost predicate PageUsesKept(owner: Owner, owner': Owner) {
    forall f :: f in owner && (owner[f].PageOf? || owner[f] == Lost) ==> f in owner' && owner'[f] == owner[f]
  }

  /** Page a of d is new and holds x; every other page is as it was. */
  ghost predicate Added(s: View, t: View, d: nat, a: nat, x: Frame, flags: nat)
    requires a < NPAGES
  {
    OthersKept(s, t, d) && OnlyPages(s, t, d, a, a + 1) && PageIs(t.mem, d, a, x, flags)
  }

  lemma AddedOne(s: View, t: View, d: nat, a: nat, f: nat, x: Frame, flags: nat)
    requires Sound(s) && d in s.spaces && a < USER && f in s.owner && s.owner[f] == Free && f != d
    requires forall e :: e in s.spaces ==> SameLookups(s.mem, s.mem[f := x], e)
    requires Placed(s.mem[f := x], s.owner[f := Taken], t.mem, t.owner, d, a, f)
    requires OnlyPage(s.mem[f := x], t.mem, s.spaces, d, a)
    requires Lookup(t.mem, d, a) == Pte(f, flags) && t.spaces == s.spaces[d := s.spaces[d] + {a}]
    ensures Added(s, t, d, a, x, flags) && Tabled(s.mem, t.mem, d, a) && Losses(s.owner, t.owner) == {}
  {
    hide SpaceOk, UseOk, FreeOk, Lookup, OthersKept;
    OthersAfterAdd(s, t, d, a, f, x);
    OnlyPageTrans(s.mem, s.mem[f := x], t.mem, s.spaces, d, a);
  }

  lemma OthersAfterAdd(s: View, t: View, d: nat, a: nat, f: nat, x: Frame)
    requires Sound(s) && d in s.spaces && a < USER && f in s.owner && s.owner[f] == Free
    requires Placed(s.mem[f := x], s.owner[f := Taken], t.mem, t.owner, d, a, f)
    requires t.spaces == s.spaces[d := s.spaces[d] + {a}]
    ensures OthersKept(s, t, d) && Losses(s.owner, t.owner) == {}
  {
    hide SpaceOk, UseOk, FreeOk, Lookup, Pde;
    DataInMemory(s.mem, s.owner, s.spaces);
  }

  /** What has happened once the user pages of d from lo up to hi are gone and their frames freed. */
  ghost predicate Shrunk(s: View, t: View, d: nat, lo: nat, hi: nat) {
    && d in s.spaces && t.spaces.Keys == s.spaces.Keys
    && (forall e :: e in s.spaces && e != d ==> t.spaces[e] == s.spaces[e])
    && OnlyPages(s, t, d, lo, if hi < USER then hi else USER)
    && t.owner == FreedUses(s.owner, d, lo, hi) && Kept(s.mem, s.owner, t.mem, t.owner)
  }

  /** Frames of the user pages lo..hi of d are free, all others keep their use. */
  function FreedUses(owner: Owner, d: nat, lo: nat, hi: nat): Owner {
    map f | f in owner :: if owner[f].PageOf? && owner[f].d == d && lo <= owner[f].v < hi then Free else owner[f]
  }

  // ---- the loop of deallocuvm ----

  ghost function Within(mapped: set<nat>, lo: nat, hi: nat): set<nat> {
    set v | v in mapped && lo <= v < hi
  }

  /** Page v lies in the first table at or after page lo, and its place in the table is before that of lo: the jumps
      from lo pass over it. */
  ghost predicate Skipped(mem: Mem, d: nat, lo: nat, v: nat)
    requires v < NPAGES
  {
    v % NPTE < lo % NPTE && forall k :: lo / NPTE <= k < v / NPTE ==> At(mem, d)[k] == Absent
  }

  /** The mapped pages between lo and hi that the loop comes by. */
  ghost function Reached(mem: Mem, d: nat, mapped: set<nat>, lo: nat, hi: nat): set<nat> {
    set v | v in Within(mapped, lo, hi) && v < NPAGES && !Skipped(mem, d, lo, v)
  }

  /** Nothing is skipped from a table's start, nor from a page that has its table. */
  lemma NotSkipped(mem: Mem, d: nat, lo: nat, v: nat)
    requires lo <= v < NPAGES && (lo % NPTE == 0 || Pde(mem, d, lo).Pte?)
    ensures !Skipped(mem, d, lo, v)
  {
    if lo / NPTE < v / NPTE && lo % NPTE != 0 {
      assert At(mem, d)[lo / NPTE].Pte?;
    }
  }

  ghost predicate Tabling(mem: Mem, d: nat, mapped: set<nat>) {
    forall v :: v in mapped ==> v < USER && Pde(mem, d, v).Pte?
  }

  /** Shrinking does what it promises, that is, frees every page from lo up to hi, if and only if no mapped page is
      skipped. */
  lemma ShrinksFully(mem: Mem, d: nat, mapped: set<nat>, lo: nat, hi: nat)
    requires Tabling(mem, d, mapped)
    ensures Reached(mem, d, mapped, lo, hi) == Within(mapped, lo, hi) <==>
              forall v :: v in mapped && lo <= v < hi && v < NPAGES ==> !Skipped(mem, d, lo, v)
    ensures lo % NPTE == 0 || (lo < NPAGES && Pde(mem, d, lo).Pte?) ==>
      Reached(mem, d, mapped, lo, hi) == Within(mapped, lo, hi)
  {
    hide Skipped, Pde;
    forall v | v in Within(mapped, lo, hi) ensures v < NPAGES &&
      (v in Reached(mem, d, mapped, lo, hi) <==> !Skipped(mem, d, lo, v)) {
    }
    if lo % NPTE == 0 || (lo < NPAGES && Pde(mem, d, lo).Pte?) {
      forall v | v in Within(mapped, lo, hi) ensures v in Reached(mem, d, mapped, lo, hi) {
        NotSkipped(mem, d, lo, v);
      }
    }
  }

  /** Where the loop stands at page a: it has met no table yet and keeps its place within the table, or it goes page by
      page and table by table from where it met one. */
  ghost predicate Sweeping(mem: Mem, d: nat, mapped: set<nat>, lo: nat, a: nat) {
    || (a % NPTE == lo % NPTE && forall k :: lo / NPTE <= k < a / NPTE && k < NPTE ==> At(mem, d)[k] == Absent)
    || ((a < NPAGES ==> Pde(mem, d, a).Pte? || a % NPTE == 0) && forall v :: v in mapped && a <= v < NPAGES ==>
      !Skipped(mem, d, lo, v))
  }

  lemma SweepStart(mem: Mem, d: nat, mapped: set<nat>, lo: nat)
    ensures Sweeping(mem, d, mapped, lo, lo) && Reached(mem, d, mapped, lo, lo) == {}
  {
  }

  lemma ReachedBelow(mem: Mem, d: nat, mapped: set<nat>, lo: nat, a: nat)
    ensures a !in Reached(mem, d, mapped, lo, a)
  {
  }

  /** A jump from page a passes no page that is not skipped. */
  lemma JumpPasses(mem: Mem, d: nat, mapped: set<nat>, lo: nat, a: nat, v: nat)
    requires Tabling(mem, d, mapped) && lo <= a < USER && Sweeping(mem, d, mapped, lo, a) && !Pde(mem, d, a).Pte?
    requires v in mapped && a <= v < a + NPTE
    ensures v < NPAGES && Skipped(mem, d, lo, v)
  {
    assert Pde(mem, d, v).Pte?;
    assert v / NPTE == a / NPTE + 1;
    assert a % NPTE != 0;
    assert v % NPTE < a % NPTE;
    NotSkippedHere(mem, d, lo, a, v);
  }

  lemma NotSkippedHere(mem: Mem, d: nat, lo: nat, a: nat, v: nat)
    requires lo <= a < NPAGES && !Pde(mem, d, a).Pte? && v < NPAGES && v / NPTE == a / NPTE + 1 &&
      v % NPTE < a % NPTE == lo % NPTE
    requires forall k :: lo / NPTE <= k < a / NPTE && k < NPTE ==> At(mem, d)[k] == Absent
    ensures Skipped(mem, d, lo, v)
  {
  }

  lemma SweepGap(mem: Mem, d: nat, mapped: set<nat>, lo: nat, a: nat, hi: nat)
    requires Tabling(mem, d, mapped) && lo <= a < USER && a < hi && Sweeping(mem, d, mapped, lo, a) &&
      !Pde(mem, d, a).Pte?
    ensures Sweeping(mem, d, mapped, lo, a + NPTE)
    ensures Reached(mem, d, mapped, lo, a + NPTE) == Reached(mem, d, mapped, lo, a)
    ensures Reached(mem, d, mapped, lo, if a + NPTE < hi then a + NPTE else hi) == Reached(mem, d, mapped, lo, a)
  {
    forall v | v in mapped && a <= v < a + NPTE ensures v < NPAGES && Skipped(mem, d, lo, v) {
      JumpPasses(mem, d, mapped, lo, a, v);
    }
    assert (a + NPTE) % NPTE == a % NPTE && (a + NPTE) / NPTE == a / NPTE + 1;
  }

  lemma SweepPage(mem: Mem, d: nat, mapped: set<nat>, lo: nat, a: nat)
    requires Tabling(mem, d, mapped) && lo <= a < USER && Sweeping(mem, d, mapped, lo, a) && Pde(mem, d, a).Pte?
    ensures Sweeping(mem, d, mapped, lo, a + 1)
    ensures Reached(mem, d, mapped, lo, a + 1) == Reached(mem, d, mapped, lo, a) + if a in mapped then {a} else {}
  {
    forall v | v in mapped && a <= v < NPAGES ensures !Skipped(mem, d, lo, v) {
      NoneSkipped(mem, d, mapped, lo, a, v);
    }
    assert (a + 1) % NPTE == 0 || (a + 1) / NPTE == a / NPTE;
  }

  lemma NoneSkipped(mem: Mem, d: nat, mapped: set<nat>, lo: nat, a: nat, v: nat)
    requires lo <= a < USER && Sweeping(mem, d, mapped, lo, a) && Pde(mem, d, a).Pte? && v in mapped && a <= v < NPAGES
    ensures !Skipped(mem, d, lo, v)
  {
    if a / NPTE < v / NPTE {
      assert lo / NPTE <= a / NPTE;
      assert At(mem, d)[a / NPTE].Pte?;
    } else {
      assert a % NPTE <= v % NPTE;
    }
  }

  lemma SamePde(mem: Mem, mem': Mem, d: nat, v: nat)
    requires At(mem, d) == At(mem', d) && v < NPAGES
    ensures Pde(mem, d, v) == Pde(mem', d, v)
  {
  }

  lemma TableNotDir(mem: Mem, free: seq<nat>, owner: Owner, spaces: Spaces, d: nat, v: nat)
    requires Ok(mem, free, owner, spaces) && d in spaces && v < NPAGES && Pde(mem, d, v).Pte?
    ensures Pde(mem, d, v).frame != d
  {
    assert SpaceOk(mem, owner, spaces[d], d);
    assert PdeOk(mem, owner, d, v / NPTE);
  }

  lemma AllTabled(mem: Mem, free: seq<nat>, owner: Owner, spaces: Spaces, d: nat)
    requires Ok(mem, free, owner, spaces) && d in spaces
    ensures Tabling(mem, d, spaces[d])
  {
    hide UseOk, FreeOk;
    forall v | v in spaces[d] ensures v < USER && Pde(mem, d, v).Pte? {
      assert SpaceOk(mem, owner, spaces[d], d);
      assert PteOk(mem, owner, spaces[d], d, v);
    }
  }

  /** What has happened once the given user pages of d are gone and their frames freed. */
  ghost predicate Swept(s: View, t: View, d: nat, gone: set<nat>) {
    && d in s.spaces && t.spaces == s.spaces[d := s.spaces[d] - gone] && t.owner == FreedIn(s.owner, d, gone)
    && (forall e, w :: e in s.spaces && 0 <= w < NPAGES && (e != d || w !in gone) ==>
      Lookup(t.mem, e, w) == Lookup(s.mem, e, w))
    && Kept(s.mem, s.owner, t.mem, t.owner)
  }

  function FreedIn(owner: Owner, d: nat, gone: set<nat>): Owner {
    map f | f in owner :: if owner[f].PageOf? && owner[f].d == d && owner[f].v in gone then Free else owner[f]
  }

  lemma SweptSpaces(s: View, t: View, d: nat, gone: set<nat>)
    requires Swept(s, t, d, gone)
    ensures d in s.spaces && t.spaces == s.spaces[d := s.spaces[d] - gone]
  {
  }

  lemma SweptNothing(s: View, d: nat)
    requires Sound(s) && d in s.spaces
    ensures Swept(s, s, d, {})
  {
    hide SpaceOk, UseOk, FreeOk, Lookup;
    DataInMemory(s.mem, s.owner, s.spaces);
    assert FreedIn(s.owner, d, {}) == s.owner;
    assert s.spaces[d] - {} == s.spaces[d];
  }

  lemma SweptMore(s: View, t: View, u: View, d: nat, gone: set<nat>, a: nat)
    requires Sound(s) && Swept(s, t, d, gone) && a < USER && a !in gone
    requires OnlyPage(t.mem, u.mem, t.spaces, d, a) && Lookup(t.mem, d, a).Pte? &&
      u.spaces == t.spaces[d := t.spaces[d] - {a}]
    requires var f := Lookup(t.mem, d, a).frame;
      u.owner == t.owner[f := Free] && f in t.owner && t.owner[f] == PageOf(d, a)
    requires Kept(t.mem, t.owner, u.mem, u.owner)
    ensures Swept(s, u, d, gone + {a})
  {
    hide SpaceOk, UseOk, FreeOk, Lookup, FreedIn;
    var f := Lookup(t.mem, d, a).frame;
    forall g | g in s.owner && s.owner[g] == PageOf(d, a) ensures g == f {
      PageMapped(s.mem, s.free, s.owner, s.spaces, g);
    }
    OneMoreFreed(s.owner, d, gone, a, f);
    assert s.spaces[d] - gone - {a} == s.spaces[d] - (gone + {a});
  }

  lemma OneMoreFreed(owner: Owner, d: nat, gone: set<nat>, a: nat, f: nat)
    requires f in FreedIn(owner, d, gone) && a !in gone && FreedIn(owner, d, gone)[f] == PageOf(d, a)
    requires forall g :: g in owner && owner[g] == PageOf(d, a) ==> g == f
    ensures FreedIn(owner, d, gone + {a}) == FreedIn(owner, d, gone)[f := Free]
  {
  }

  lemma SweptRange(s: View, t: View, d: nat, lo: nat, hi: nat)
    requires Sound(s) && d in s.spaces && hi <= USER && Swept(s, t, d, Within(s.spaces[d], lo, hi))
    ensures Shrunk(s, t, d, lo, hi)
  {
    hide SpaceOk, UseOk, FreeOk, Lookup, Kept;
    forall f | f in s.owner && s.owner[f].PageOf? && s.owner[f].d == d ensures s.owner[f].v in s.spaces[d] {
      PageMapped(s.mem, s.free, s.owner, s.spaces, f);
    }
    assert FreedUses(s.owner, d, lo, hi) == t.owner;
  }

  /** The sweep of freevm starts at page 0 and reaches everything. */
  lemma WholeSwept(s: View, t: View, d: nat)
    requires Sound(s) && d in s.spaces && Swept(s, t, d, Reached(s.mem, d, s.spaces[d], 0, USER))
    ensures Shrunk(s, t, d, 0, USER) && d in t.spaces && t.spaces[d] == {}
  {
    hide SpaceOk, UseOk, FreeOk, Lookup, Reached, Kept, FreedIn, Skipped;
    AllTabled(s.mem, s.free, s.owner, s.spaces, d);
    ShrinksFully(s.mem, d, s.spaces[d], 0, USER);
    SweptRange(s, t, d, 0, USER);
  }

  /** The pages a failed growth has made all get their frames back. */
  lemma GrowthReached(s: View, t: View, u: View, d: nat, v: nat, a: nat, n: nat, lost: bool)
    requires Growing(s, t, d, v, a, lost) && a < n <= USER && Sound(t) && Vacant(s.spaces[d], v, n)
    requires Swept(t, u, d, Reached(t.mem, d, t.spaces[d], v, n))
    ensures Shrunk(t, u, d, v, n) && d in u.spaces && u.spaces[d] == s.spaces[d]
  {
    hide SpaceOk, UseOk, FreeOk, Lookup, Grown, Need, LosesAt, Losses, Tables, Reached, Kept, FreedIn, Skipped;
    AllTabled(t.mem, t.free, t.owner, t.spaces, d);
    if v in t.spaces[d] {
      ShrinksFully(t.mem, d, t.spaces[d], v, n);
    } else {
      assert Within(t.spaces[d], v, n) == {};
      NoneReached(t.mem, d, t.spaces[d], v, n);
    }
    SweptRange(t, u, d, v, n);
  }

  lemma NoneReached(mem: Mem, d: nat, mapped: set<nat>, lo: nat, hi: nat)
    requires Within(mapped, lo, hi) == {}
    ensures Reached(mem, d, mapped, lo, hi) == {}
  {
  }

  // ---- contiguous images ----

  /** The user pages are exactly those below n. */
  ghost predicate Image(mapped: set<nat>, n: nat) {
    forall v: nat :: v in mapped <==> v < n
  }

  /** A contiguous image shrinks to the pages below the new size: the jump finds nothing to leave behind. */
  lemma ImageShrinks(s: View, t: View, d: nat, n: nat, lo: nat, hi: nat)
    requires Sound(s) && d in s.spaces && Image(s.spaces[d], n) && n <= hi <= USER &&
      Swept(s, t, d, Reached(s.mem, d, s.spaces[d], lo, hi))
    ensures d in t.spaces && Image(t.spaces[d], if n <= lo then n else lo)
  {
    hide SpaceOk, UseOk, FreeOk, Lookup, Kept, FreedIn, Skipped, Pde, Reached;
    AllTabled(s.mem, s.free, s.owner, s.spaces, d);
    if lo < n {
      assert lo in s.spaces[d];
      ShrinksFully(s.mem, d, s.spaces[d], lo, hi);
    } else {
      assert Within(s.spaces[d], lo, hi) == {};
      NoneReached(s.mem, d, s.spaces[d], lo, hi);
    }
  }

  /** A contiguous image grows to the pages below the new size, or is as it was; only a lost last page makes it one
      short. */
  lemma ImageGrows(s: View, t: View, d: nat, v: nat, n: nat, r: nat, newsz: nat)
    requires Allocated(s, t, d, v, n, r, newsz) && Image(s.spaces[d], v)
    ensures if |s.free| >= Need(s.mem, d, v, n) then r == newsz && Image(t.spaces[d], n)
            else if v < n && LosesAt(s.mem, |s.free|, d, v, n - 1) then r == newsz && Image(t.spaces[d], n - 1)
            else r == 0 && Image(t.spaces[d], v)
  {
    hide Grown, OthersKept, OnlyPages, Losses, Need, LosesAt;
  }

  /** A copy has exactly the pages below the size, whatever else the original has. */
  lemma CopyImage(s: View, t: View, d: nat, c: nat, n: nat)
    requires Copying(s, t, d, c, n)
    ensures c in t.spaces && Image(t.spaces[c], n)
  {
    hide Preserved, Losses, CopyOf;
  }

  /** The jump leaves a page behind: with page 1024 mapped and no table for page 1, shrinking to one page frees nothing.
      No contiguous image meets this (ImageShrinks). */
  method JumpLeavesPage() returns (m: Memory, d: nat)
    ensures m.Valid() && d in m.spaces && m.spaces[d] == {1024}
  {
    hide Ok, Lookup, Added, LosesOne, Preserved, KernelUpTo;
    m := new Memory(1, 4, []);
    assert SetupNeed(m.kmap) == 1;
    var r := m.Setupkvm();
    d := r.value;
    assert 0 !in Tabs(m.mem, d);
    var mapped, out := m.GrowOne(d, 1024, Data(ZERO), USER_FLAGS);
    assert Pde(m.mem, d, 1024).Pte? && !Pde(m.mem, d, 0).Pte?;
    assert Skipped(m.mem, d, 1, 1024);
    var sz := m.Deallocuvm(d, 1025 * PGSIZE, PGSIZE);
  }

  lemma NoTables(mem: Mem, d: nat)
    requires Tabs(mem, d) == {}
    ensures Pde(mem, d, 0) == Absent
  {
    assert 0 !in Tabs(mem, d);
  }

  lemma OneIsLost(owner: Owner, owner': Owner)
    requires Losses(owner, owner') != {}
    ensures exists f :: f in owner' && owner'[f] == Lost
  {
    var f :| f in Losses(owner, owner');
  }

  /** allocuvm succeeds without its page: one frame for the page, none for its table. */
  method GrowthLosesLastPage() returns (m: Memory, d: nat, r: nat)
    ensures m.Valid() && d in m.spaces && m.spaces[d] == {} && r == PGSIZE && exists f ::
      f in m.owner && m.owner[f] == Lost
  {
    hide Ok, Lookup, Preserved, KernelUpTo, Grown, OthersKept, OnlyPages, Losses;
    m := new Memory(1, 3, []);
    assert SetupNeed(m.kmap) == 1;
    var dir := m.Setupkvm();
    d := dir.value;
    NoTables(m.mem, d);
    assert Need(m.mem, d, 0, 1) == 2 && LosesAt(m.mem, 1, d, 0, 0);
    ghost var own := m.owner;
    r := m.Allocuvm(d, 0, PGSIZE);
    assert m.spaces[d] == {};
    OneIsLost(own, m.owner);
  }

  /** copyuvm fails and one frame is gone for good: the copy's page got it, its table got none. */
  method CopyLosesPage() returns (m: Memory, d: nat, r: Option<nat>)
    ensures m.Valid() && m.spaces == map[d := {0}] && r == None && exists f :: f in m.owner && m.owner[f] == Lost
  {
    hide Ok, Lookup, Preserved, KernelUpTo, Grown, OthersKept, OnlyPages, Copying, Losses, CopyNeed, KernelPart;
    m := new Memory(1, 6, []);
    d := OnePage(m);
    CopyNeedsThree();
    ghost var own := m.owner;
    assert CopyLoses(m.kmap, 2, 1);
    r := m.Copyuvm(d, PGSIZE);
    OneIsLost(own, m.owner);
  }

  method OnePage(m: Memory) returns (d: nat)
    requires m.Valid() && m.kmap == [] && m.spaces == map[] && |m.free| == 5
    modifies m
    ensures m.Valid() && m.spaces == map[d := {0}] && |m.free| == 2
  {
    hide Ok, Lookup, Preserved, KernelUpTo, Grown, OnlyPages, Losses;
    assert SetupNeed(m.kmap) == 1;
    var dir := m.Setupkvm();
    d := dir.value;
    NoTables(m.mem, d);
    assert Need(m.mem, d, 0, 1) == 2;
    ghost var s := m.Now();
    var sz := m.Allocuvm(d, 0, PGSIZE);
    OnlySpace(s, m.Now(), d);
  }

  lemma OnlySpace(s: View, t: View, d: nat)
    requires s.spaces == map[d := {}] && Grown(s, t, d, 0, 1) && d in t.spaces && Extended({}, t.spaces[d], 0, 1)
    ensures t.spaces == map[d := {0}]
  {
    hide Lookup;
    assert t.spaces[d] == {0};
  }

  lemma CopyNeedsThree()
    ensures CopyNeed([], 0) == 1 && CopyNeed([], 1) == 3
  {
  }

  /** setupkvm fails and keeps the one frame it got. */
  method SetupKeepsFrames() returns (m: Memory, r: Option<nat>)
    ensures m.Valid() && r == None && m.owner.Keys == {1} && m.free == []
  {
    hide Ok, Lookup, KernelUpTo, SameLookups, Kept, PageUsesKept;
    var k := Kmap(USER, 0, 1, 3);
    m := new Memory(1, 2, [k]);
    assert USER / NPTE in Spanned(k.virt, k.virt + k.n);
    assert KernelTabs(m.kmap, 1) != {};
    assert m.owner.Keys == {1};
    r := m.Setupkvm();
  }

  lemma PageMapped(mem: Mem, free: seq<nat>, owner: Owner, spaces: Spaces, f: nat)
    requires Ok(mem, free, owner, spaces) && f in owner && owner[f].PageOf?
    ensures owner[f].d in spaces && owner[f].v in spaces[owner[f].d] && owner[f].v < USER
    ensures Lookup(mem, owner[f].d, owner[f].v).Pte? && Lookup(mem, owner[f].d, owner[f].v).frame == f
  {
    assert UseOk(mem, owner, spaces, f);
    assert SpaceOk(mem, owner, spaces[owner[f].d], owner[f].d);
    assert PteOk(mem, owner, spaces[owner[f].d], owner[f].d, owner[f].v);
  }

  lemma MappedPage(mem: Mem, free: seq<nat>, owner: Owner, spaces: Spaces, d: nat, v: nat)
    requires Ok(mem, free, owner, spaces) && d in spaces && v < USER
    ensures Lookup(mem, d, v).Pte? <==> v in spaces[d]
    ensures Lookup(mem, d, v) == if Pde(mem, d, v).Pte? then At(mem, Pde(mem, d, v).frame)[v % NPTE] else Absent
  {
    assert SpaceOk(mem, owner, spaces[d], d);
    assert PteOk(mem, owner, spaces[d], d, v);
  }

  /** User pages that stay mapped hold what they held. */
  ghost predicate Kept(mem: Mem, owner: Owner, mem': Mem, owner': Owner) {
    forall f :: f in owner && f in owner' && owner[f].PageOf? && owner'[f] == owner[f] ==>
      f in mem && f in mem' && mem'[f] == mem[f]
  }

  lemma LookupSame(mem: Mem, mem': Mem, d: nat, v: nat)
    requires SameLookups(mem, mem', d) && v < NPAGES
    ensures Lookup(mem', d, v) == Lookup(mem, d, v)
  {
  }

  lemma UserFrame(mem: Mem, free: seq<nat>, owner: Owner, spaces: Spaces, d: nat, v: nat)
    requires Ok(mem, free, owner, spaces) && d in spaces && v < USER && Lookup(mem, d, v).Pte?
    ensures var f := Lookup(mem, d, v).frame; f in owner && owner[f] == PageOf(d, v) && f != d && f > 0
    ensures Pde(mem, d, v).Pte? && Pde(mem, d, v).frame != Lookup(mem, d, v).frame
    ensures Lookup(mem, d, v) == At(mem, Pde(mem, d, v).frame)[v % NPTE]
  {
    assert SpaceOk(mem, owner, spaces[d], d);
    assert PteOk(mem, owner, spaces[d], d, v) && PdeOk(mem, owner, d, v / NPTE);
    assert UseOk(mem, owner, spaces, Lookup(mem, d, v).frame);
  }

  lemma KeptFreed(mem: Mem, free: seq<nat>, owner: Owner, spaces: Spaces, d: nat, v: nat, f: nat)
    requires v < USER && Pde(mem, d, v).Pte? && f != d && f in owner && owner[f] == PageOf(d, v)
    requires Ok(mem, free, owner, spaces) && d in spaces
    ensures Kept(mem, owner, WithPte(mem[f := Data(JUNK)], d, v, Absent), owner[f := Free])
  {
    hide SpaceOk, UseOk, FreeOk;
    PdeFacts(mem, owner, spaces[d], d, v);
    DataInMemory(mem, owner, spaces);
  }

  /** Mapping page v of d touches table frames only, gives d the table it needs and, for a user page, the frame f. */
  ghost predicate Placed(mem: Mem, owner: Owner, mem': Mem, owner': Owner, d: nat, v: nat, f: nat)
    requires v < NPAGES
  {
    && DataKept(mem, owner, mem') && PagesKept(if f in owner && v < USER then owner - {f} else owner, owner')
    && owner'.Keys == owner.Keys && Losses(owner, owner') == {}
    && forall k :: 0 <= k < NPAGES ==> (Pde(mem', d, k).Pte? <==> Pde(mem, d, k).Pte? || k / NPTE == v / NPTE)
  }

  /** What Walk leaves behind. */
  ghost predicate Walked(mem: Mem, free: seq<nat>, owner: Owner, mem': Mem, owner': Owner, d: nat, v: nat)
    requires v < NPAGES
  {
    || (mem' == mem && owner' == owner && Pde(mem, d, v).Pte?)
    || (free != [] && mem' == WithTable(mem, d, v / NPTE, free[0]) && owner' == owner[free[0] := TableOf(d, v / NPTE)]
        && free[0] in owner && owner[free[0]] == Free)
  }

  lemma WalkedTaken(mem: Mem, free: seq<nat>, owner: Owner, mem': Mem, owner': Owner, d: nat, v: nat, f: nat)
    requires v < NPAGES && Walked(mem, free, owner, mem', owner', d, v) && f in owner && owner[f] == Taken
    ensures f in owner' && owner'[f] == Taken
  {
  }

  lemma PlacedFacts(mem: Mem, free: seq<nat>, owner: Owner, mem': Mem, free': seq<nat>, owner': Owner,
                    spaces: Spaces, d: nat, v: nat, f: nat, perm: nat)
    requires Ok(mem, free, owner, spaces) && Ok(mem', free', owner', spaces) && d in spaces && v < NPAGES
    requires Walked(mem, free, owner, mem', owner', d, v) && Pde(mem', d, v).Pte?
    requires v < USER ==> f in owner' && owner'[f] == Taken
    ensures Placed(mem, owner, WithPte(mem', d, v, Pte(f, perm)), if v < USER then owner'[f := PageOf(d, v)]
      else owner', d, v, f)
  {
    hide SpaceOk, UseOk, FreeOk;
    DirOwned(mem, owner, spaces[d], d);
    PdeFacts(mem', owner', spaces[d], d, v);
    DataInMemory(mem, owner, spaces);
    var m := WithPte(mem', d, v, Pte(f, perm));
    forall k | 0 <= k < NPAGES ensures Pde(m, d, k).Pte? <==> Pde(mem, d, k).Pte? || k / NPTE == v / NPTE {
      PteLookup(mem', owner', spaces[d], d, v, Pte(f, perm), spaces[d], d, k);
    }
  }

  lemma DataInMemory(mem: Mem, owner: Owner, spaces: Spaces)
    requires forall f :: f in owner ==> UseOk(mem, owner, spaces, f)
    ensures forall f :: f in owner ==> f in mem
  {
  }

  lemma AbsentStill(mem: Mem, mem': Mem, d: nat, v: nat)
    requires SameLookups(mem, mem', d) && v < NPAGES && Lookup(mem, d, v) == Absent
    ensures Lookup(mem', d, v) == Absent
  {
  }

  lemma OnlyPageTrans(mem: Mem, mem': Mem, mem'': Mem, spaces: Spaces, d: nat, v: nat)
    requires forall e :: e in spaces ==> SameLookups(mem, mem', e)
    requires OnlyPage(mem', mem'', spaces, d, v)
    ensures OnlyPage(mem, mem'', spaces, d, v)
  {
    forall e, w | e in spaces && 0 <= w < NPAGES &&
      (e != d || w != v) ensures Lookup(mem'', e, w) == Lookup(mem, e, w) {
      assert SameLookups(mem, mem', e);
      assert Lookup(mem', e, w) == Lookup(mem, e, w);
    }
  }

  lemma SameRefl(mem: Mem, spaces: Spaces)
    ensures forall e :: e in spaces ==> SameLookups(mem, mem, e)
  {
  }

  lemma DirFrame(mem: Mem, free: seq<nat>, owner: Owner, spaces: Spaces, d: nat, t: nat)
    requires Ok(mem, free, owner, spaces) && d in spaces && t in owner && owner[t] == Taken
    ensures d != t && d in mem && mem[d].Table?
  {
    assert SpaceOk(mem, owner, spaces[d], d);
  }

  lemma GrownTrans(s: View, t: View, u: View, d: nat, v: nat, a: nat)
    requires a < USER && v <= a && Sound(t) && Grown(s, t, d, v, a) && Added(t, u, d, a, Data(ZERO), USER_FLAGS)
    ensures Grown(s, u, d, v, a + 1)
  {
    hide SpaceOk, UseOk, FreeOk, Lookup;
    forall w | v <= w < a ensures Zeroed(u.mem, d, w) {
      assert Zeroed(t.mem, d, w);
      UserFrame(t.mem, t.free, t.owner, t.spaces, d, w);
    }
  }

  lemma GrowingMore(s: View, t: View, u: View, d: nat, v: nat, a: nat)
    requires Growing(s, t, d, v, a, false) && a < USER && Sound(t) && Added(t, u, d, a, Data(ZERO), USER_FLAGS) &&
      d in u.spaces
    requires u.spaces[d] == t.spaces[d] + {a} && Tabled(t.mem, u.mem, d, a) && Losses(t.owner, u.owner) == {}
    requires |t.free| == |u.free| + 1 + if Pde(t.mem, d, a).Pte? then 0 else 1
    ensures Growing(s, u, d, v, a + 1, false)
  {
    hide Grown, Added, SpaceOk, UseOk, FreeOk;
    NextTable(s, t, d, v, a);
    GrownTrans(s, t, u, d, v, a);
    forall k | 0 <= k < NPAGES
      ensures Pde(u.mem, d, k).Pte? <==> Pde(s.mem, d, k).Pte? || v / NPTE <= k / NPTE <= a / NPTE
    {
      assert v < a ==> a / NPTE <= (a - 1) / NPTE + 1;
      assert v == a || (a - 1) / NPTE <= a / NPTE;
    }
  }

  lemma GrowingLost(s: View, t: View, u: View, d: nat, v: nat, a: nat)
    requires Growing(s, t, d, v, a, false) && a < USER && Sound(t) && LosesOne(t, u) && u.free == [] && |t.free| == 1
    requires !Pde(t.mem, d, a).Pte?
    ensures Growing(s, u, d, v, a + 1, true)
  {
    hide SpaceOk, UseOk, FreeOk, Lookup;
    NextTable(s, t, d, v, a);
    GrownLost(s, t, u, d, v, a);
    var f :| f in t.owner && t.owner[f] == Free && u.owner == t.owner[f := Lost];
    assert Losses(s.owner, u.owner) == {f};
  }

  lemma GrownLost(s: View, t: View, u: View, d: nat, v: nat, a: nat)
    requires a < USER && v <= a && Sound(t) && Grown(s, t, d, v, a) && LosesOne(t, u)
    ensures Grown(s, u, d, v, a)
  {
    hide SpaceOk, UseOk, FreeOk;
    forall e, w | e in s.spaces && 0 <= w < NPAGES &&
      (e != d || w < v || a <= w) ensures Lookup(u.mem, e, w) == Lookup(s.mem, e, w) {
      assert SameLookups(t.mem, u.mem, e);
    }
    forall w | v <= w < a ensures Zeroed(u.mem, d, w) {
      assert Zeroed(t.mem, d, w);
      UserFrame(t.mem, t.free, t.owner, t.spaces, d, w);
      assert SameLookups(t.mem, u.mem, d);
      assert Lookup(u.mem, d, w) == Lookup(t.mem, d, w);
    }
  }

  lemma {:induction false} NeedMono(mem: Mem, d: nat, v: nat, a: nat, n: nat)
    requires a <= n <= NPAGES
    ensures Need(mem, d, v, a) <= Need(mem, d, v, n)
    ensures v <= a < n ==> Need(mem, d, v, a) + (if NewTable(mem, d, v, a) then 2 else 1) <= Need(mem, d, v, n)
  {
    hide NewTable;
    if a < n {
      NeedMono(mem, d, v, a, n - 1);
    }
  }

  /** The frames can run out between page and table at one page at most. */
  lemma LosesOnce(mem: Mem, frames: nat, d: nat, v: nat, k: nat, j: nat)
    requires k < NPAGES && j < NPAGES && LosesAt(mem, frames, d, v, k) && LosesAt(mem, frames, d, v, j)
    ensures k == j
  {
    if k < j {
      NeedMono(mem, d, v, k, j);
    } else if j < k {
      NeedMono(mem, d, v, j, k);
    }
  }

  lemma FailedGrowth(s: View, t: View, u: View, d: nat, v: nat, a: nat, n: nat, lost: bool, newsz: nat)
    requires Growing(s, t, d, v, a, lost) && a < n <= USER && Sound(s) && Sound(t) && t.free == [] &&
      Vacant(s.spaces[d], v, n)
    requires Shrunk(t, u, d, v, n) && d in u.spaces && u.spaces[d] == s.spaces[d]
    ensures Allocated(s, u, d, v, n, 0, newsz)
  {
    hide Grown, Shrunk, Need, OthersKept, OnlyPages, SpaceOk, UseOk, FreeOk;
    forall f | f in s.owner && s.owner[f].PageOf? && s.owner[f].d == d ensures s.owner[f].v < v || n <= s.owner[f].v {
      PageMapped(s.mem, s.free, s.owner, s.spaces, f);
    }
    GivenBack(s, t, u, d, v, if lost then a - 1 else a, n);
    NeedMono(s.mem, d, v, a, n);
    if lost {
      NeedMono(s.mem, d, v, a - 1, n);
    }
    forall k | v <= k < n && LosesAt(s.mem, |s.free|, d, v, k) ensures lost && k == a - 1 {
      if lost {
        LosesOnce(s.mem, |s.free|, d, v, k, a - 1);
      } else if k < a {
        NeedMono(s.mem, d, v, k, a);
      } else {
        NeedMono(s.mem, d, v, a, k);
      }
    }
  }

  lemma GivenBack(s: View, t: View, u: View, d: nat, v: nat, top: nat, n: nat)
    requires v <= top <= n <= USER && Sound(t) && Grown(s, t, d, v, top) && Shrunk(t, u, d, v, n)
    requires forall f :: f in s.owner && s.owner[f].PageOf? && s.owner[f].d == d ==>
      s.owner[f].v < v || n <= s.owner[f].v
    ensures OthersKept(s, u, d) && OnlyPages(s, u, d, v, n) && Losses(s.owner, u.owner) == Losses(s.owner, t.owner)
  {
    hide SpaceOk, UseOk, FreeOk, Lookup;
  }

  lemma FinishedGrowth(s: View, t: View, d: nat, v: nat, n: nat, lost: bool, newsz: nat)
    requires Growing(s, t, d, v, n, lost) && v <= n <= USER
    ensures Allocated(s, t, d, v, n, newsz, newsz)
  {
    hide Grown, Need;
    if lost {
      NeedMono(s.mem, d, v, n - 1, n);
    }
  }

  /** The pages allocuvm leaves are user code's to read and write. */
  lemma PagesUsable(s: View, t: View, d: nat, v: nat, n: nat, r: nat, newsz: nat)
    requires Sound(t) && Allocated(s, t, d, v, n, r, newsz) && Vacant(s.spaces[d], v, n)
    ensures forall w :: v <= w < n && w in t.spaces[d] ==> UserAccess(t.mem, d, w, true)
  {
    hide SpaceOk, UseOk, FreeOk, OthersKept, OnlyPages, Need, Losses, LosesAt, Lookup, UserAccess;
    forall w | v <= w < n && w in t.spaces[d] ensures UserAccess(t.mem, d, w, true) {
      assert Zeroed(t.mem, d, w);
      EntryDecides(t.mem, t.owner, t.spaces[d], d, w, true);
    }
  }

  /** With kernel regions that are not user, user code can neither read nor write any kernel page. */
  lemma KernelProtected(t: View, c: nat, ks: seq<Kmap>, w: nat, write: bool)
    requires Sound(t) && c in t.spaces && KernelPart(t.mem, c, ks) && USER <= w < NPAGES
    requires forall k :: 0 <= k < |ks| ==> ks[k].perm in {0, PTE_W}
    ensures !UserAccess(t.mem, c, w, write)
  {
    hide SpaceOk, UseOk, FreeOk, Lookup;
    NotUser(ks, |ks|, w);
  }

  lemma {:induction false} NotUser(ks: seq<Kmap>, j: nat, w: nat)
    requires j <= |ks| && w < NPAGES && forall k :: 0 <= k < |ks| ==> ks[k].perm in {0, PTE_W}
    ensures !Allows(KernelEntry(ks, j, w), PTE_U)
  {
    if j > 0 {
      NotUser(ks, j - 1, w);
    }
  }

  /** A store to one page is seen by that page of that address space only: a copy is independent of its original. */
  lemma StoresArePrivate(s: View, d: nat, v: nat, x: Frame, e: nat, w: nat)
    requires Sound(s) && d in s.spaces && v in s.spaces[d] && e in s.spaces && w in s.spaces[e]
    ensures v < USER && w < USER && Lookup(s.mem, d, v).Pte? && Lookup(s.mem, e, w).Pte?
    ensures var f, g := Lookup(s.mem, d, v).frame, Lookup(s.mem, e, w).frame;
      var t := s.(mem := s.mem[f := x]);
      && Sound(t) && Lookup(t.mem, e, w) == Lookup(s.mem, e, w)
      && g in s.mem && t.mem[g] == if e == d && w == v then x else s.mem[g]
  {
    hide SpaceOk, UseOk, FreeOk, Lookup;
    NoSharing(s.mem, s.free, s.owner, s.spaces, d, v, e, w);
    UserFrame(s.mem, s.free, s.owner, s.spaces, d, v);
    UserFrame(s.mem, s.free, s.owner, s.spaces, e, w);
    DataInMemory(s.mem, s.owner, s.spaces);
    FilledOk(s.mem, s.free, s.owner, s.spaces, Lookup(s.mem, d, v).frame, x);
    LookupSame(s.mem, s.mem[Lookup(s.mem, d, v).frame := x], e, w);
  }
}

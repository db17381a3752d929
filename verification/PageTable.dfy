/** Two-level page tables over physical frames (kernel/vm.c), seen as a flat map from virtual page to frame and
    flags. */
module PageTable {
  const NPTE: nat := 1024              // entries of a directory and of a table
  const USER: nat := 0x8_0000          // KERNBASE / PGSIZE: user pages are the virtual pages below it
  const NPAGES: nat := 0x10_0000
  const JUNK: nat := 1                 // what kfree fills a page with
  const PTE_W: nat := 2
  const PTE_U: nat := 4
  const TABLE_FLAGS: nat := PTE_W + PTE_U

  /** An entry with PTE_P set has a frame and permission bits; without it, nothing else in it matters. */
  datatype Pte = Absent | Pte(frame: nat, flags: nat)

  type Entries = s: seq<Pte> | |s| == NPTE witness seq(NPTE, _ => Absent)

  function Empty(): Entries { seq(NPTE, _ => Absent) }

  /** A frame is used as a table of entries, or holds 4096 bytes that only matter as a whole. */
  datatype Frame = Table(entries: Entries) | Data(bytes: nat)

  type Mem = map<nat, Frame>

  datatype Use = Free | Taken | Dir | TableOf(d: nat, i: nat) | PageOf(d: nat, v: nat) | Lost

  type Owner = map<nat, Use>
  type Spaces = map<nat, set<nat>>     // page directory -> mapped user pages

  function At(mem: Mem, f: nat): Entries {
    if f in mem && mem[f].Table? then mem[f].entries else Empty()
  }

  predicate IsTable(mem: Mem, f: nat) { f in mem && mem[f].Table? }

  function Pde(mem: Mem, d: nat, v: nat): Pte
    requires v < NPAGES
  {
    At(mem, d)[v / NPTE]
  }

  /** The flat map: the entry for virtual page v. */
  function Lookup(mem: Mem, d: nat, v: nat): Pte
    requires v < NPAGES
  {
    var e := Pde(mem, d, v);
    if e.Pte? then At(mem, e.frame)[v % NPTE] else Absent
  }

  predicate PdeOk(mem: Mem, owner: Owner, d: nat, i: nat)
    requires i < NPTE
  {
    var e := At(mem, d)[i];
    e.Pte? ==>
      e.frame in owner && owner[e.frame] == TableOf(d, i) && IsTable(mem, e.frame) && e.flags == TABLE_FLAGS
  }

  predicate PteOk(mem: Mem, owner: Owner, mapped: set<nat>, d: nat, v: nat)
    requires v < USER
  {
    var e := Lookup(mem, d, v);
    (e.Pte? <==> v in mapped) && (e.Pte? ==> e.frame in owner && owner[e.frame] == PageOf(d, v))
  }

  ghost predicate SpaceOk(mem: Mem, owner: Owner, mapped: set<nat>, d: nat) {
    && d in owner && owner[d] == Dir && IsTable(mem, d)
    && (forall v :: v in mapped ==> v < USER)
    && (forall i :: 0 <= i < NPTE ==> PdeOk(mem, owner, d, i))
    && (forall v :: 0 <= v < USER ==> PteOk(mem, owner, mapped, d, v))
  }

  /** A frame is used as its owner says. */
  predicate UseOk(mem: Mem, owner: Owner, spaces: Spaces, f: nat) {
    f > 0 && f in mem && f in owner &&
    match owner[f]
    case Dir => f in spaces
    case TableOf(d, i) => d in spaces && i < NPTE && At(mem, d)[i].Pte? && At(mem, d)[i].frame == f
    case PageOf(d, v) => d in spaces && v < USER && Lookup(mem, d, v).Pte? && Lookup(mem, d, v).frame == f
    case _ => true
  }

  ghost predicate FreeOk(free: seq<nat>, owner: Owner) {
    && (forall i, j :: 0 <= i < j < |free| ==> free[i] != free[j])
    && (forall f :: f in owner ==> (owner[f] == Free <==> f in free))
    && (forall f :: f in free ==> f in owner)
  }

  /** Every frame has exactly one use: on the free list, a directory, one table of one directory, one page of one
      address space, or taken by its caller. */
  ghost predicate Ok(mem: Mem, free: seq<nat>, owner: Owner, spaces: Spaces) {
    && (forall d :: d in spaces ==> SpaceOk(mem, owner, spaces[d], d))
    && (forall f :: f in owner ==> UseOk(mem, owner, spaces, f))
    && FreeOk(free, owner)
  }

  /** No frame is mapped twice, by one address space or by two. */
  lemma NoSharing(mem: Mem, free: seq<nat>, owner: Owner, spaces: Spaces, d: nat, v: nat, e: nat, w: nat)
    requires Ok(mem, free, owner, spaces) && d in spaces && e in spaces && v in spaces[d] && w in spaces[e]
    ensures v < USER && w < USER && Lookup(mem, d, v).Pte? && Lookup(mem, e, w).Pte?
    ensures Lookup(mem, d, v).frame == Lookup(mem, e, w).frame ==> d == e && v == w
    ensures Lookup(mem, d, v).frame !in free
  {
    assert SpaceOk(mem, owner, spaces[d], d) && SpaceOk(mem, owner, spaces[e], e);
    assert PteOk(mem, owner, spaces[d], d, v) && PteOk(mem, owner, spaces[e], e, w);
  }

  predicate Allows(e: Pte, bit: nat)
    requires bit > 0
  {
    e.Pte? && e.flags / bit % 2 == 1
  }

  /** What the processor grants to user code at page v: both levels must be present and user, and to write, writable. */
  predicate UserAccess(mem: Mem, d: nat, v: nat, write: bool)
    requires v < NPAGES
  {
    && Allows(Pde(mem, d, v), PTE_U) && Allows(Lookup(mem, d, v), PTE_U)
    && (write ==> Allows(Pde(mem, d, v), PTE_W) && Allows(Lookup(mem, d, v), PTE_W))
  }

  /** The directory restricts nothing: the page's own entry decides. */
  lemma EntryDecides(mem: Mem, owner: Owner, mapped: set<nat>, d: nat, v: nat, write: bool)
    requires SpaceOk(mem, owner, mapped, d) && v < NPAGES
    ensures UserAccess(mem, d, v, write) <==>
      Allows(Lookup(mem, d, v), 4) && (write ==> Allows(Lookup(mem, d, v), 2))
  {
    assert PdeOk(mem, owner, d, v / NPTE);
  }

  // ---- the primitive updates ----

  lemma TakenOk(mem: Mem, free: seq<nat>, owner: Owner, spaces: Spaces)
    requires Ok(mem, free, owner, spaces) && free != []
    ensures free[0] in owner && owner[free[0]] == Free
    ensures Ok(mem, free[1..], owner[free[0] := Taken], spaces)
  {
    var own := owner[free[0] := Taken];
    assert owner[free[0]] == Free;
    forall d | d in spaces ensures SpaceOk(mem, own, spaces[d], d) {
      TakenSpace(mem, owner, spaces[d], d, free[0]);
    }
    forall f | f in own ensures UseOk(mem, own, spaces, f) {
      assert UseOk(mem, owner, spaces, f);
    }
  }

  lemma TakenSpace(mem: Mem, owner: Owner, mapped: set<nat>, d: nat, f: nat)
    requires SpaceOk(mem, owner, mapped, d) && f in owner && owner[f] == Free
    ensures SpaceOk(mem, owner[f := Taken], mapped, d)
  {
    var own := owner[f := Taken];
    forall i | 0 <= i < NPTE ensures PdeOk(mem, own, d, i) {
      assert PdeOk(mem, owner, d, i);
    }
    forall v | 0 <= v < USER ensures PteOk(mem, own, mapped, d, v) {
      assert PteOk(mem, owner, mapped, d, v);
    }
  }

  ghost predicate SameLookups(mem: Mem, mem': Mem, d: nat) {
    forall v :: 0 <= v < NPAGES ==> Lookup(mem', d, v) == Lookup(mem, d, v)
  }

  /** The memory after a fresh table t has been hung into slot i of directory d. */
  function WithTable(mem: Mem, d: nat, i: nat, t: nat): Mem
    requires i < NPTE
  {
    mem[t := Table(Empty())][d := Table(At(mem, d)[i := Pte(t, TABLE_FLAGS)])]
  }

  lemma TableLookups(mem: Mem, owner: Owner, mapped: set<nat>, d: nat, i: nat, t: nat, e: nat)
    requires SpaceOk(mem, owner, mapped, e) && d in owner && owner[d] == Dir
    requires t in owner && owner[t] == Taken && i < NPTE && At(mem, d)[i] == Absent
    ensures SameLookups(mem, WithTable(mem, d, i, t), e)
  {
    var m := WithTable(mem, d, i, t);
    forall v | 0 <= v < NPAGES ensures Lookup(m, e, v) == Lookup(mem, e, v) {
      assert PdeOk(mem, owner, e, v / NPTE);
    }
  }

  lemma TableSpace(mem: Mem, owner: Owner, mapped: set<nat>, d: nat, i: nat, t: nat, e: nat)
    requires SpaceOk(mem, owner, mapped, e) && d in owner && owner[d] == Dir
    requires t in owner && owner[t] == Taken && i < NPTE && At(mem, d)[i] == Absent
    ensures SpaceOk(WithTable(mem, d, i, t), owner[t := TableOf(d, i)], mapped, e)
  {
    var m, own := WithTable(mem, d, i, t), owner[t := TableOf(d, i)];
    TableLookups(mem, owner, mapped, d, i, t, e);
    forall j | 0 <= j < NPTE ensures PdeOk(m, own, e, j) {
      assert PdeOk(mem, owner, e, j);
    }
    forall v | 0 <= v < USER ensures PteOk(m, own, mapped, e, v) {
      assert PteOk(mem, owner, mapped, e, v);
      assert Lookup(m, e, v) == Lookup(mem, e, v);
    }
  }

  lemma TableUse(mem: Mem, free: seq<nat>, owner: Owner, spaces: Spaces, d: nat, i: nat, t: nat, f: nat)
    requires Ok(mem, free, owner, spaces) && d in spaces && t in owner && owner[t] == Taken && i < NPTE &&
      At(mem, d)[i] == Absent
    requires f in owner
    ensures UseOk(WithTable(mem, d, i, t), owner[t := TableOf(d, i)], spaces, f)
  {
    hide FreeOk;
    assert UseOk(mem, owner, spaces, f);
    assert SpaceOk(mem, owner, spaces[d], d);
    if owner[f].PageOf? {
      var e := owner[f].d;
      TableLookups(mem, owner, spaces[e], d, i, t, e);
    } else if owner[f].TableOf? {
      assert SpaceOk(mem, owner, spaces[owner[f].d], owner[f].d);
    }
  }

  lemma TableOk(mem: Mem, free: seq<nat>, owner: Owner, spaces: Spaces, d: nat, i: nat, t: nat)
    requires Ok(mem, free, owner, spaces) && d in spaces && t in owner && owner[t] == Taken && i < NPTE &&
      At(mem, d)[i] == Absent
    ensures Ok(WithTable(mem, d, i, t), free, owner[t := TableOf(d, i)], spaces)
    ensures forall e :: e in spaces ==> SameLookups(mem, WithTable(mem, d, i, t), e)
  {
    hide SpaceOk, UseOk, WithTable, SameLookups;
    var m, own := WithTable(mem, d, i, t), owner[t := TableOf(d, i)];
    DirOwned(mem, owner, spaces[d], d);
    forall e | e in spaces ensures SpaceOk(m, own, spaces[e], e) && SameLookups(mem, m, e) {
      TableSpace(mem, owner, spaces[e], d, i, t, e);
      TableLookups(mem, owner, spaces[e], d, i, t, e);
    }
    forall f | f in own ensures UseOk(m, own, spaces, f) {
      TableUse(mem, free, owner, spaces, d, i, t, f);
    }
  }

  lemma DirOwned(mem: Mem, owner: Owner, mapped: set<nat>, d: nat)
    requires SpaceOk(mem, owner, mapped, d)
    ensures d in owner && owner[d] == Dir && IsTable(mem, d)
  {
  }

  /** The memory after entry x has been stored for page v, whose table is present. */
  function WithPte(mem: Mem, d: nat, v: nat, x: Pte): Mem
    requires v < NPAGES && Pde(mem, d, v).Pte?
  {
    var t := Pde(mem, d, v).frame;
    mem[t := Table(At(mem, t)[v % NPTE := x])]
  }

  /** Storing an entry changes the flat map at that page of that directory and nowhere else. */
  lemma PteLookup(mem: Mem, owner: Owner, mapped: set<nat>, d: nat, v: nat, x: Pte, mapped': set<nat>, e: nat, w: nat)
    requires SpaceOk(mem, owner, mapped, d) && SpaceOk(mem, owner, mapped', e) && v < NPAGES && w < NPAGES &&
      Pde(mem, d, v).Pte?
    ensures Lookup(WithPte(mem, d, v, x), e, w) == if e == d && w == v then x else Lookup(mem, e, w)
    ensures Pde(WithPte(mem, d, v, x), e, w) == Pde(mem, e, w)
  {
    assert PdeOk(mem, owner, d, v / NPTE) && PdeOk(mem, owner, e, w / NPTE);
    assert v == v / NPTE * NPTE + v % NPTE && w == w / NPTE * NPTE + w % NPTE;
  }

  /** The space e after the entry for (d, v) has been stored and frame f, not yet part of any space, has changed use. */
  lemma PteSpace(mem: Mem, owner: Owner, spaces: Spaces, d: nat, v: nat, x: Pte, own: Owner, mapped: set<nat>, e: nat)
    requires d in spaces && e in spaces && SpaceOk(mem, owner, spaces[d], d) && SpaceOk(mem, owner, spaces[e], e)
    requires v < NPAGES && Pde(mem, d, v).Pte?
    requires forall f :: f in owner ==>
      f in own && (own[f] == owner[f] || owner[f] == Taken || owner[f] == PageOf(d, v))
    requires mapped == if e == d && v < USER then (if x.Pte? then spaces[d] + {v} else spaces[d] - {v}) else spaces[e]
    requires v < USER && x.Pte? ==> x.frame in own && own[x.frame] == PageOf(d, v)
    ensures SpaceOk(WithPte(mem, d, v, x), own, mapped, e)
  {
    var m := WithPte(mem, d, v, x);
    assert PdeOk(mem, owner, d, v / NPTE);
    forall i | 0 <= i < NPTE ensures PdeOk(m, own, e, i) {
      assert PdeOk(mem, owner, e, i);
    }
    forall w | 0 <= w < USER ensures PteOk(m, own, mapped, e, w) {
      PteLookup(mem, owner, spaces[d], d, v, x, spaces[e], e, w);
      assert PteOk(mem, owner, spaces[e], e, w);
    }
  }

  lemma PteUse(mem: Mem, owner: Owner, spaces: Spaces, d: nat, v: nat, x: Pte, own: Owner, spaces': Spaces, f: nat)
    requires d in spaces && SpaceOk(mem, owner, spaces[d], d) && v < NPAGES && Pde(mem, d, v).Pte?
    requires forall e :: e in spaces ==> e in spaces' && SpaceOk(mem, owner, spaces[e], e)
    requires UseOk(mem, owner, spaces, f) && f in own &&
      (own[f] == owner[f] || own[f] == Free || (own[f] == PageOf(d, v) && x.Pte? && x.frame == f && v < USER))
    requires own[f] == PageOf(d, v) && v < USER ==> x.Pte? && x.frame == f
    ensures UseOk(WithPte(mem, d, v, x), own, spaces', f)
  {
    hide SpaceOk;
    PdeFacts(mem, owner, spaces[d], d, v);
    match own[f]
    case TableOf(e, i) =>
      assert i * NPTE / NPTE == i;
      PteLookup(mem, owner, spaces[d], d, v, x, spaces[e], e, i * NPTE);
    case PageOf(e, w) =>
      PteLookup(mem, owner, spaces[d], d, v, x, spaces[e], e, w);
    case _ =>
  }

  lemma PdeFacts(mem: Mem, owner: Owner, mapped: set<nat>, d: nat, v: nat)
    requires SpaceOk(mem, owner, mapped, d) && v < NPAGES && Pde(mem, d, v).Pte?
    ensures var t := Pde(mem, d, v).frame; t in owner && owner[t] == TableOf(d, v / NPTE) && IsTable(mem, t)
  {
    assert PdeOk(mem, owner, d, v / NPTE);
  }

  /** The flat maps of all address spaces agree but for page v of d. */
  ghost predicate OnlyPage(mem: Mem, mem': Mem, spaces: Spaces, d: nat, v: nat) {
    forall e, w :: e in spaces && 0 <= w < NPAGES && (e != d || w != v) ==> Lookup(mem', e, w) == Lookup(mem, e, w)
  }

  lemma OnlyPageStored(mem: Mem, free: seq<nat>, owner: Owner, spaces: Spaces, d: nat, v: nat, x: Pte)
    requires Ok(mem, free, owner, spaces) && d in spaces && v < NPAGES && Pde(mem, d, v).Pte?
    ensures OnlyPage(mem, WithPte(mem, d, v, x), spaces, d, v) && Lookup(WithPte(mem, d, v, x), d, v) == x
  {
    hide SpaceOk, UseOk, FreeOk, Lookup, WithPte;
    var m := WithPte(mem, d, v, x);
    forall e, w | e in spaces && 0 <= w < NPAGES && (e != d || w != v) ensures Lookup(m, e, w) == Lookup(mem, e, w) {
      PteLookup(mem, owner, spaces[d], d, v, x, spaces[e], e, w);
    }
    PteLookup(mem, owner, spaces[d], d, v, x, spaces[d], d, v);
  }

  /** A taken frame becomes user page v of d. */
  lemma MappedOk(mem: Mem, free: seq<nat>, owner: Owner, spaces: Spaces, d: nat, v: nat, f: nat, flags: nat)
    requires Ok(mem, free, owner, spaces) && d in spaces && v < USER && Pde(mem, d, v).Pte? &&
      Lookup(mem, d, v) == Absent
    requires f in owner && owner[f] == Taken
    ensures Ok(WithPte(mem, d, v, Pte(f, flags)), free, owner[f := PageOf(d, v)], spaces[d := spaces[d] + {v}])
  {
    hide SpaceOk, UseOk, WithPte;
    var x := Pte(f, flags);
    var m, own, sp := WithPte(mem, d, v, x), owner[f := PageOf(d, v)], spaces[d := spaces[d] + {v}];
    forall e | e in sp ensures SpaceOk(m, own, sp[e], e) {
      PteSpace(mem, owner, spaces, d, v, x, own, sp[e], e);
    }
    forall g | g in own ensures UseOk(m, own, sp, g) {
      assert UseOk(mem, owner, spaces, g);
      if g != f {
        NotYetUsed(mem, owner, spaces, d, v, g);
      }
      PteUse(mem, owner, spaces, d, v, x, own, sp, g);
    }
  }

  lemma NotYetUsed(mem: Mem, owner: Owner, spaces: Spaces, d: nat, v: nat, g: nat)
    requires UseOk(mem, owner, spaces, g) && v < NPAGES && Lookup(mem, d, v) == Absent
    ensures owner[g] != PageOf(d, v)
  {
  }

  /** Kernel entries belong to no one. */
  lemma KernelMappedOk(mem: Mem, free: seq<nat>, owner: Owner, spaces: Spaces, d: nat, v: nat, x: Pte)
    requires Ok(mem, free, owner, spaces) && d in spaces && USER <= v < NPAGES && Pde(mem, d, v).Pte?
    ensures Ok(WithPte(mem, d, v, x), free, owner, spaces)
  {
    hide SpaceOk, UseOk, WithPte;
    var m := WithPte(mem, d, v, x);
    forall e | e in spaces ensures SpaceOk(m, owner, spaces[e], e) {
      PteSpace(mem, owner, spaces, d, v, x, owner, spaces[e], e);
    }
    forall g | g in owner ensures UseOk(m, owner, spaces, g) {
      assert UseOk(mem, owner, spaces, g);
      UserOnly(mem, owner, spaces, g);
      PteUse(mem, owner, spaces, d, v, x, owner, spaces, g);
    }
  }

  lemma UserOnly(mem: Mem, owner: Owner, spaces: Spaces, g: nat)
    requires UseOk(mem, owner, spaces, g)
    ensures owner[g].PageOf? ==> owner[g].v < USER
  {
  }

  /** User page v of d leaves the space and its frame goes to the head of the free list. */
  lemma UnmappedOk(mem: Mem, free: seq<nat>, owner: Owner, spaces: Spaces, d: nat, v: nat, f: nat)
    requires Ok(mem, free, owner, spaces) && d in spaces && v < USER && Pde(mem, d, v).Pte?
    requires Lookup(mem, d, v).Pte? && Lookup(mem, d, v).frame == f
    ensures f in owner && owner[f] == PageOf(d, v)
    ensures Ok(WithPte(mem, d, v, Absent), [f] + free, owner[f := Free], spaces[d := spaces[d] - {v}])
  {
    hide SpaceOk, UseOk, WithPte;
    PteFacts(mem, owner, spaces[d], d, v);
    var m, own, sp := WithPte(mem, d, v, Absent), owner[f := Free], spaces[d := spaces[d] - {v}];
    forall e | e in sp ensures SpaceOk(m, own, sp[e], e) {
      PteSpace(mem, owner, spaces, d, v, Absent, own, sp[e], e);
    }
    forall g | g in own ensures UseOk(m, own, sp, g) {
      assert UseOk(mem, owner, spaces, g);
      if g != f {
        OneFrame(mem, owner, spaces, d, v, g);
      }
      PteUse(mem, owner, spaces, d, v, Absent, own, sp, g);
    }
  }

  lemma PteFacts(mem: Mem, owner: Owner, mapped: set<nat>, d: nat, v: nat)
    requires SpaceOk(mem, owner, mapped, d) && v < USER
    ensures PteOk(mem, owner, mapped, d, v)
  {
  }

  lemma OneFrame(mem: Mem, owner: Owner, spaces: Spaces, d: nat, v: nat, g: nat)
    requires UseOk(mem, owner, spaces, g) && v < USER && (Lookup(mem, d, v).Pte? ==> Lookup(mem, d, v).frame != g)
    ensures owner[g] != PageOf(d, v)
  {
  }

  /** Overwriting a frame that holds no table changes no mapping, whatever a taken frame is then used for. */
  lemma RewrittenSpace(mem: Mem, owner: Owner, own: Owner, mapped: set<nat>, f: nat, x: Frame, e: nat)
    requires SpaceOk(mem, owner, mapped, e) && f in owner && !owner[f].Dir? && !owner[f].TableOf?
    requires forall g :: g in owner ==> g in own && (own[g] == owner[g] || (g == f && owner[f] == Taken))
    ensures SpaceOk(mem[f := x], own, mapped, e) && SameLookups(mem, mem[f := x], e)
  {
    var m := mem[f := x];
    forall v | 0 <= v < NPAGES ensures Lookup(m, e, v) == Lookup(mem, e, v) {
      assert PdeOk(mem, owner, e, v / NPTE);
    }
    forall i | 0 <= i < NPTE ensures PdeOk(m, own, e, i) {
      assert PdeOk(mem, owner, e, i);
    }
    forall v | 0 <= v < USER ensures PteOk(m, own, mapped, e, v) {
      assert PteOk(mem, owner, mapped, e, v);
      assert Lookup(m, e, v) == Lookup(mem, e, v);
    }
  }

  lemma RewrittenUse(mem: Mem, owner: Owner, own: Owner, spaces: Spaces, sp: Spaces, f: nat, x: Frame, g: nat)
    requires UseOk(mem, owner, spaces, g) && f in owner && !owner[f].Dir? && !owner[f].TableOf?
    requires forall e :: e in spaces ==> e in sp && SpaceOk(mem, owner, spaces[e], e)
    requires g in own && own[g] == owner[g]
    ensures UseOk(mem[f := x], own, sp, g)
  {
    hide SpaceOk;
    match owner[g]
    case TableOf(e, i) =>
      DirOwned(mem, owner, spaces[e], e);
    case PageOf(e, w) =>
      RewrittenSpace(mem, owner, owner, spaces[e], f, x, e);
    case _ =>
  }

  /** Filling a frame that holds no table changes no mapping. */
  lemma FilledOk(mem: Mem, free: seq<nat>, owner: Owner, spaces: Spaces, f: nat, x: Frame)
    requires Ok(mem, free, owner, spaces) && f in owner && !owner[f].Dir? && !owner[f].TableOf?
    ensures Ok(mem[f := x], free, owner, spaces)
    ensures forall e :: e in spaces ==> SameLookups(mem, mem[f := x], e)
  {
    hide SpaceOk, UseOk, SameLookups;
    var m := mem[f := x];
    forall e | e in spaces ensures SpaceOk(m, owner, spaces[e], e) && SameLookups(mem, m, e) {
      RewrittenSpace(mem, owner, owner, spaces[e], f, x, e);
    }
    forall g | g in owner ensures UseOk(m, owner, spaces, g) {
      RewrittenUse(mem, owner, owner, spaces, spaces, f, x, g);
    }
  }

  predicate Blank(mem: Mem, d: nat) { At(mem, d) == Empty() }

  /** A taken frame, zeroed, becomes an empty directory. */
  lemma DirOk(mem: Mem, free: seq<nat>, owner: Owner, spaces: Spaces, f: nat)
    requires Ok(mem, free, owner, spaces) && f in owner && owner[f] == Taken
    ensures f !in spaces && Ok(mem[f := Table(Empty())], free, owner[f := Dir], spaces[f := {}])
    ensures forall e :: e in spaces ==> SameLookups(mem, mem[f := Table(Empty())], e)
    ensures Blank(mem[f := Table(Empty())], f)
  {
    hide SpaceOk, UseOk, SameLookups;
    var m, own, sp := mem[f := Table(Empty())], owner[f := Dir], spaces[f := {}];
    if f in spaces {
      DirOwned(mem, owner, spaces[f], f);
    }
    forall e | e in spaces ensures SpaceOk(m, own, spaces[e], e) && SameLookups(mem, m, e) {
      RewrittenSpace(mem, owner, own, spaces[e], f, Table(Empty()), e);
    }
    EmptySpace(mem, owner, f);
    forall g | g in own ensures UseOk(m, own, sp, g) {
      assert UseOk(mem, owner, spaces, g);
      if g == f {
        InMemory(mem, owner, spaces, f);
        DirUse(m, own, sp, f);
      } else {
        RewrittenUse(mem, owner, own, spaces, sp, f, Table(Empty()), g);
      }
    }
  }

  lemma DirUse(mem: Mem, owner: Owner, spaces: Spaces, f: nat)
    requires f > 0 && f in mem && f in owner && owner[f] == Dir && f in spaces
    ensures UseOk(mem, owner, spaces, f)
  {
  }

  lemma EmptySpace(mem: Mem, owner: Owner, f: nat)
    requires f in owner
    ensures SpaceOk(mem[f := Table(Empty())], owner[f := Dir], {}, f)
    ensures Blank(mem[f := Table(Empty())], f)
  {
  }

  /** A taken frame goes back to the head of the free list. */
  lemma ReturnedOk(mem: Mem, free: seq<nat>, owner: Owner, spaces: Spaces, f: nat, u: Use)
    requires Ok(mem, free, owner, spaces) && f in owner && owner[f] == Taken && (u == Free || u == Lost)
    ensures Ok(mem, if u == Free then [f] + free else free, owner[f := u], spaces)
  {
    hide SpaceOk, UseOk;
    var own := owner[f := u];
    assert mem[f := mem[f]] == mem by {
      assert UseOk(mem, owner, spaces, f);
      InMemory(mem, owner, spaces, f);
    }
    forall e | e in spaces ensures SpaceOk(mem, own, spaces[e], e) {
      RewrittenSpace(mem, owner, own, spaces[e], f, mem[f], e);
    }
    forall g | g in own ensures UseOk(mem, own, spaces, g) {
      assert UseOk(mem, owner, spaces, g);
      if g == f {
        PlainUse(mem, owner, own, spaces, f);
      } else {
        RewrittenUse(mem, owner, own, spaces, spaces, f, mem[f], g);
      }
    }
  }

  lemma InMemory(mem: Mem, owner: Owner, spaces: Spaces, f: nat)
    requires UseOk(mem, owner, spaces, f)
    ensures f in mem && f > 0
  {
  }

  lemma PlainUse(mem: Mem, owner: Owner, own: Owner, spaces: Spaces, f: nat)
    requires UseOk(mem, owner, spaces, f) && f in own && (own[f] == Free || own[f] == Lost)
    ensures UseOk(mem, own, spaces, f)
  {
  }

  /** Every frame of an address space that has lost its pages changes hands at once. */
  function Detached(owner: Owner, d: nat): Owner {
    map f | f in owner :: if f == d || (owner[f].TableOf? && owner[f].d == d) then Taken else owner[f]
  }

  lemma DetachedOk(mem: Mem, free: seq<nat>, owner: Owner, spaces: Spaces, d: nat)
    requires Ok(mem, free, owner, spaces) && d in spaces && spaces[d] == {}
    ensures Ok(mem, free, Detached(owner, d), spaces - {d})
  {
    hide SpaceOk, UseOk;
    var own, sp := Detached(owner, d), spaces - {d};
    DirOwned(mem, owner, spaces[d], d);
    forall e | e in sp ensures SpaceOk(mem, own, sp[e], e) {
      DetachedSpace(mem, owner, spaces[e], d, e);
    }
    forall f | f in own ensures UseOk(mem, own, sp, f) {
      assert UseOk(mem, owner, spaces, f);
      DetachedUse(mem, owner, spaces, d, f);
    }
  }

  lemma DetachedSpace(mem: Mem, owner: Owner, mapped: set<nat>, d: nat, e: nat)
    requires SpaceOk(mem, owner, mapped, e) && e != d && d in owner && owner[d] == Dir
    ensures SpaceOk(mem, Detached(owner, d), mapped, e)
  {
    var own := Detached(owner, d);
    forall i | 0 <= i < NPTE ensures PdeOk(mem, own, e, i) {
      assert PdeOk(mem, owner, e, i);
    }
    forall v | 0 <= v < USER ensures PteOk(mem, own, mapped, e, v) {
      assert PteOk(mem, owner, mapped, e, v);
    }
  }

  lemma DetachedUse(mem: Mem, owner: Owner, spaces: Spaces, d: nat, f: nat)
    requires UseOk(mem, owner, spaces, f) && d in spaces && spaces[d] == {} && SpaceOk(mem, owner, spaces[d], d)
    ensures UseOk(mem, Detached(owner, d), spaces - {d}, f)
  {
    hide SpaceOk;
    if owner[f].PageOf? && owner[f].d == d {
      PteFacts(mem, owner, spaces[d], d, owner[f].v);
    }
  }
}

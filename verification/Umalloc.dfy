/** The K&R allocator (userspace/libc/umalloc.c). Addresses count header-sized units. */
module Umalloc {
  import opened Ints
  import opened Options

  const BASE: nat := 1                 // the static header `base`, below every unit sbrk hands out
  const HEADER: nat := 8               // sizeof(Header)
  const NALLOC: nat := 4096

  datatype Header = Header(ptr: nat, size: nat)
  type Mem = map<nat, Header>

  function Next(list: seq<nat>, k: nat): nat
    requires k < |list|
  {
    if k + 1 < |list| then list[k + 1] else list[0]
  }

  /** Element k starts the gap that its successor ends: nothing overlaps and adjacent blocks have been merged. */
  ghost predicate LinkOk(h: Mem, list: seq<nat>, k: nat)
    requires k < |list|
  {
    && list[k] in h && h[list[k]].ptr == Next(list, k)
    && (k + 1 < |list| ==> list[k] + h[list[k]].size < list[k + 1])
    && (h[list[k]].size == 0 <==> k == 0)
  }

  /** The free list: circular, starting at base, sorted by address with one wrap point, disjoint and fully coalesced. */
  ghost predicate Chain(h: Mem, list: seq<nat>) {
    && 0 < |list| && list[0] == BASE
    && forall k :: 0 <= k < |list| ==> LinkOk(h, list, k)
  }

  /** The headers of the free blocks: base is only an anchor and holds no units. */
  function FreeBlocks(list: seq<nat>): set<nat> {
    set a | a in list && a != BASE
  }

  /** Unit u lies inside the block it is tagged with. */
  ghost predicate InBlock(h: Mem, blocks: set<nat>, tag: map<nat, nat>, u: nat)
    requires u in tag
  {
    BASE < u && tag[u] in blocks && tag[u] in h && tag[u] <= u < tag[u] + h[tag[u]].size
  }

  /** Block a consists of units tagged with it. */
  ghost predicate Covers(h: Mem, tag: map<nat, nat>, a: nat) {
    a in h && h[a].size > 0 && forall u: nat :: a <= u < a + h[a].size ==> u in tag && tag[u] == a
  }

  /** Every unit obtained from sbrk belongs to exactly one block, and every block consists of such units. */
  ghost predicate Partition(h: Mem, blocks: set<nat>, tag: map<nat, nat>) {
    && (forall a :: a in blocks ==> Covers(h, tag, a))
    && (forall u :: u in tag ==> InBlock(h, blocks, tag, u))
  }

  /** The blocks of the partition are the free ones and the live ones. */
  ghost predicate Tagged(h: Mem, free: set<nat>, live: map<nat, nat>, tag: map<nat, nat>) {
    && Partition(h, free + live.Keys, tag)
    && forall a :: a in live ==> a !in free && h[a].size == live[a]
  }

  lemma ChainSorted(h: Mem, list: seq<nat>, i: nat, j: nat)
    requires Chain(h, list) && i < j < |list|
    ensures list[i] < list[j]
  {
    assert LinkOk(h, list, j - 1);
    if i < j - 1 {
      ChainSorted(h, list, i, j - 1);
    }
  }

  lemma ChainDistinct(h: Mem, list: seq<nat>)
    requires Chain(h, list)
    ensures forall i, j :: 0 <= i < j < |list| ==> list[i] < list[j]
  {
    forall i, j | 0 <= i < j < |list| ensures list[i] < list[j] {
      ChainSorted(h, list, i, j);
    }
  }

  /** Where free's search loop stops: bp lies after element k and before its successor. */
  predicate Gap(list: seq<nat>, bp: nat, k: nat) {
    k < |list| && list[k] < bp && (k + 1 < |list| ==> bp < list[k + 1])
  }

  lemma GapExists(h: Mem, list: seq<nat>, bp: nat) returns (k: nat)
    requires Chain(h, list) && BASE < bp && bp !in list
    ensures Gap(list, bp, k)
  {
    k := 0;
    while k + 1 < |list| && list[k + 1] < bp
      invariant k < |list| && list[k] < bp
    {
      k := k + 1;
    }
    assert k + 1 < |list| ==> list[k + 1] != bp;
  }

  // ---- free ----

  /** The list after free(bp): bp goes into gap k, swallowing a successor that starts where it ends (joinNext),
      or being swallowed by a predecessor that ends where it starts (joinPrev). */
  function FreedList(list: seq<nat>, bp: nat, k: nat, joinNext: bool, joinPrev: bool): seq<nat>
    requires k < |list| && (joinNext ==> k + 1 < |list|)
  {
    list[..k + 1] + (if joinPrev then [] else [bp]) + list[if joinNext then k + 2 else k + 1..]
  }

  /** The headers after free's two if-statements. */
  function FreedMem(h: Mem, p: nat, bp: nat): Mem
    requires p in h && bp in h && h[p].ptr in h
  {
    var n := h[p].ptr;
    var b := if bp + h[bp].size == n then Header(h[n].ptr, h[bp].size + h[n].size) else Header(n, h[bp].size);
    var g := h[bp := b];
    if p + g[p].size == bp then g[p := Header(b.ptr, g[p].size + b.size)] else g[p := Header(bp, g[p].size)]
  }

  lemma GapRoom(h: Mem, list: seq<nat>, live: map<nat, nat>, tag: map<nat, nat>, bp: nat, k: nat)
    requires Chain(h, list) && Tagged(h, FreeBlocks(list), live, tag) && bp in live && Gap(list, bp, k) && BASE < bp
    ensures bp in h && list[k] in h && list[k] + h[list[k]].size <= bp
    ensures k + 1 < |list| ==> bp + h[bp].size <= list[k + 1]
  {
    var p := list[k];
    assert LinkOk(h, list, k);
    assert bp in tag && tag[bp] == bp;
    if k > 0 {
      ChainSorted(h, list, 0, k);
      assert p in FreeBlocks(list);
    }
    if k + 1 < |list| {
      var n := list[k + 1];
      assert LinkOk(h, list, k + 1);
      ChainSorted(h, list, 0, k + 1);
      assert n in FreeBlocks(list);
      assert n in tag && tag[n] == n;
    }
  }

  lemma FreedLinkFar(h: Mem, list: seq<nat>, bp: nat, k: nat, joinNext: bool, j: nat)
    requires Chain(h, list) && Gap(list, bp, k) && bp !in list && bp in h && list[k] in h && h[list[k]].ptr in h
    requires joinNext ==> k + 1 < |list|
    requires var joinPrev := list[k] + h[list[k]].size == bp;
      && (j < k || j > k + (if joinPrev then 0 else 1))
      && j < |FreedList(list, bp, k, joinNext, joinPrev)|
    ensures var joinPrev := list[k] + h[list[k]].size == bp;
      LinkOk(FreedMem(h, list[k], bp), FreedList(list, bp, k, joinNext, joinPrev), j)
  {
    ChainDistinct(h, list);
    var joinPrev := list[k] + h[list[k]].size == bp;
    var r := FreedList(list, bp, k, joinNext, joinPrev);
    if j < k {
      assert LinkOk(h, list, j);
    } else {
      var i := j - (if joinPrev then 0 else 1) + (if joinNext then 1 else 0);
      assert r[j] == list[i];
      assert LinkOk(h, list, i);
    }
  }

  lemma FreedLinkNear(h: Mem, list: seq<nat>, bp: nat, k: nat, joinNext: bool, j: nat)
    requires Chain(h, list) && Gap(list, bp, k) && bp !in list && bp in h && list[k] in h && h[list[k]].ptr in h
    requires h[bp].size > 0 && list[k] + h[list[k]].size <= bp && (k + 1 < |list| ==> bp + h[bp].size <= list[k + 1])
    requires joinNext <==> k + 1 < |list| && bp + h[bp].size == list[k + 1]
    requires var joinPrev := list[k] + h[list[k]].size == bp;
      k <= j <= k + (if joinPrev then 0 else 1)
    ensures var joinPrev := list[k] + h[list[k]].size == bp;
      LinkOk(FreedMem(h, list[k], bp), FreedList(list, bp, k, joinNext, joinPrev), j)
  {
    assert LinkOk(h, list, k);
    if k + 1 < |list| {
      assert LinkOk(h, list, k + 1);
    }
  }

  lemma FreedChain(h: Mem, list: seq<nat>, bp: nat, k: nat)
    requires Chain(h, list) && Gap(list, bp, k) && bp !in list && bp in h && h[bp].size > 0
    requires list[k] in h && list[k] + h[list[k]].size <= bp
    requires k + 1 < |list| ==> bp + h[bp].size <= list[k + 1]
    requires list[k] in h && h[list[k]].ptr in h
    ensures var joinNext := k + 1 < |list| && bp + h[bp].size == list[k + 1];
      var joinPrev := list[k] + h[list[k]].size == bp;
      Chain(FreedMem(h, list[k], bp), FreedList(list, bp, k, joinNext, joinPrev))
  {
    var p := list[k];
    var joinNext := k + 1 < |list| && bp + h[bp].size == list[k + 1];
    var joinPrev := p + h[p].size == bp;
    var g := FreedMem(h, p, bp);
    var r := FreedList(list, bp, k, joinNext, joinPrev);
    forall j | 0 <= j < |r| ensures LinkOk(g, r, j) {
      if j < k || j > k + (if joinPrev then 0 else 1) {
        FreedLinkFar(h, list, bp, k, joinNext, j);
      } else {
        FreedLinkNear(h, list, bp, k, joinNext, j);
      }
    }
  }

  function Retag(tag: map<nat, nat>, from: nat, to: nat): map<nat, nat> {
    map u | u in tag :: if tag[u] == from then to else tag[u]
  }

  /** Sizes agree on every block but the ones in `but`. */
  ghost predicate SameSizes(h: Mem, g: Mem, blocks: set<nat>, but: set<nat>) {
    forall a :: a in blocks && a in h && a !in but ==> a in g && g[a].size == h[a].size
  }

  lemma PartitionFrame(h: Mem, g: Mem, blocks: set<nat>, tag: map<nat, nat>)
    requires Partition(h, blocks, tag) && SameSizes(h, g, blocks, {})
    ensures Partition(g, blocks, tag)
  {
  }

  /** A live block handed back becomes a free block over the same units. */
  lemma Released(h: Mem, g: Mem, free: set<nat>, live: map<nat, nat>, tag: map<nat, nat>, bp: nat)
    requires Tagged(h, free, live, tag) && bp in live
    requires SameSizes(h, g, free + live.Keys, {})
    ensures Tagged(g, free + {bp}, live - {bp}, tag)
  {
    PartitionFrame(h, g, free + live.Keys, tag);
    assert (free + {bp}) + (live - {bp}).Keys == free + live.Keys;
  }

  lemma JoinedUnit(h: Mem, g: Mem, blocks: set<nat>, tag: map<nat, nat>, a: nat, b: nat, u: nat)
    requires u in tag && InBlock(h, blocks, tag, u) && a in blocks && a in h && b in h && a + h[a].size == b != a
    requires SameSizes(h, g, blocks, {a}) && a in g && g[a].size == h[a].size + h[b].size
    ensures InBlock(g, blocks - {b}, Retag(tag, b, a), u)
  {
  }

  lemma JoinedCover(h: Mem, g: Mem, blocks: set<nat>, tag: map<nat, nat>, a: nat, b: nat, c: nat)
    requires Covers(h, tag, a) && Covers(h, tag, b) && Covers(h, tag, c) && a + h[a].size == b && c != b && c in blocks
    requires SameSizes(h, g, blocks, {a}) && a in g && g[a].size == h[a].size + h[b].size
    ensures Covers(g, Retag(tag, b, a), c)
  {
  }

  /** Merging a block with the block that starts where it ends keeps the partition. */
  lemma JoinedPartition(h: Mem, g: Mem, blocks: set<nat>, tag: map<nat, nat>, a: nat, b: nat)
    requires Partition(h, blocks, tag) && a in blocks && b in blocks && a in h && b in h && a + h[a].size == b != a
    requires SameSizes(h, g, blocks, {a}) && a in g && g[a].size == h[a].size + h[b].size
    ensures Partition(g, blocks - {b}, Retag(tag, b, a))
  {
    hide Covers, InBlock, SameSizes;
    var t := Retag(tag, b, a);
    forall u | u in t ensures InBlock(g, blocks - {b}, t, u) {
      JoinedUnit(h, g, blocks, tag, a, b, u);
    }
    forall c | c in blocks - {b} ensures Covers(g, t, c) {
      JoinedCover(h, g, blocks, tag, a, b, c);
    }
  }

  lemma Joined(h: Mem, g: Mem, free: set<nat>, live: map<nat, nat>, tag: map<nat, nat>, a: nat, b: nat)
    requires Tagged(h, free, live, tag) && a in free && b in free && a in h && b in h && a + h[a].size == b != a
    requires SameSizes(h, g, free + live.Keys, {a}) && a in g && g[a].size == h[a].size + h[b].size
    ensures Tagged(g, free - {b}, live, Retag(tag, b, a))
  {
    JoinedPartition(h, g, free + live.Keys, tag, a, b);
    assert (free - {b}) + live.Keys == free + live.Keys - {b};
  }

  lemma TaggedFrame(h: Mem, g: Mem, free: set<nat>, live: map<nat, nat>, tag: map<nat, nat>)
    requires Tagged(h, free, live, tag) && SameSizes(h, g, free + live.Keys, {})
    ensures Tagged(g, free, live, tag)
  {
    PartitionFrame(h, g, free + live.Keys, tag);
  }

  lemma FreedMembers(h: Mem, list: seq<nat>, bp: nat, k: nat, joinNext: bool, joinPrev: bool)
    requires Chain(h, list) && k < |list| && (joinNext ==> k + 1 < |list|) && bp !in list && bp != BASE
    ensures var free := FreeBlocks(list) + {bp};
      var rest := if joinNext then free - {list[k + 1]} else free;
      FreeBlocks(FreedList(list, bp, k, joinNext, joinPrev)) == if joinPrev then rest - {bp} else rest
  {
    ChainDistinct(h, list);
    var rest := list[if joinNext then k + 2 else k + 1..];
    var r := FreedList(list, bp, k, joinNext, joinPrev);
    forall x | x in list && !(joinNext && x == list[k + 1]) ensures x in r {
      var j :| 0 <= j < |list| && list[j] == x;
      if j <= k {
        assert list[..k + 1][j] == x;
      } else {
        assert x in rest;
      }
    }
    assert joinNext ==> list[k + 1] !in list[..k + 1] && list[k + 1] !in rest;
  }

  /** The units of a swallowed block go to the block that now covers them. */
  function FreedTag(tag: map<nat, nat>, list: seq<nat>, bp: nat, k: nat, joinNext: bool, joinPrev: bool): map<nat, nat>
    requires k < |list| && (joinNext ==> k + 1 < |list|)
  {
    var t := if joinNext then Retag(tag, list[k + 1], bp) else tag;
    if joinPrev then Retag(t, bp, list[k]) else t
  }

  lemma FreedTagged(h: Mem, list: seq<nat>, live: map<nat, nat>, tag: map<nat, nat>, bp: nat, k: nat)
    requires Chain(h, list) && Tagged(h, FreeBlocks(list), live, tag) && bp in live && bp !in list && BASE < bp
    requires k < |list| && LinkOk(h, list, k) && bp in h && h[list[k]].ptr in h && list[k] < bp
    requires list[0] == BASE && (list[k] + h[list[k]].size == bp ==> list[k] != BASE)
    ensures var joinNext := k + 1 < |list| && bp + h[bp].size == list[k + 1];
      var joinPrev := list[k] + h[list[k]].size == bp;
      Tagged(FreedMem(h, list[k], bp), FreeBlocks(FreedList(list, bp, k, joinNext, joinPrev)), live - {bp},
             FreedTag(tag, list, bp, k, joinNext, joinPrev))
  {
    hide Chain, FreedList, Tagged, Retag;
    var p, n := list[k], h[list[k]].ptr;
    var joinNext := k + 1 < |list| && bp + h[bp].size == list[k + 1];
    var joinPrev := p + h[p].size == bp;
    FreedMembers(h, list, bp, k, joinNext, joinPrev);
    var free, rest := FreeBlocks(list) + {bp}, live - {bp};
    Released(h, h, FreeBlocks(list), live, tag, bp);
    var b := if bp + h[bp].size == n then Header(h[n].ptr, h[bp].size + h[n].size) else Header(n, h[bp].size);
    var g := h[bp := b];
    if joinNext {
      Joined(h, g, free, rest, tag, bp, n);
      free := free - {n};
    } else {
      TaggedFrame(h, g, free, rest, tag);
    }
    var t := if joinNext then Retag(tag, n, bp) else tag;
    if joinPrev {
      Joined(g, FreedMem(h, p, bp), free, rest, t, p, bp);
    } else {
      TaggedFrame(g, FreedMem(h, p, bp), free, rest, t);
    }
  }

  // ---- malloc ----

  /** The header after unlinking element k, and the list without it. */
  lemma TakenWhole(h: Mem, list: seq<nat>, live: map<nat, nat>, tag: map<nat, nat>, k: nat)
    requires Chain(h, list) && Tagged(h, FreeBlocks(list), live, tag) && 0 < k < |list| && list[k] in h &&
      list[k - 1] in h
    ensures var p := list[k - 1];
      var g := h[p := Header(h[list[k]].ptr, h[p].size)];
      var rest := list[..k] + list[k + 1..];
      Chain(g, rest) && Tagged(g, FreeBlocks(rest), live[list[k] := h[list[k]].size], tag)
  {
    hide Partition;
    ChainDistinct(h, list);
    var p := list[k - 1];
    var g := h[p := Header(h[list[k]].ptr, h[p].size)];
    var rest := list[..k] + list[k + 1..];
    assert LinkOk(h, list, k - 1) && LinkOk(h, list, k);
    forall j | 0 <= j < |rest| ensures LinkOk(g, rest, j) {
      if j < k - 1 {
        assert LinkOk(h, list, j);
      } else if j >= k {
        assert LinkOk(h, list, j + 1);
      }
    }
    assert FreeBlocks(rest) == FreeBlocks(list) - {list[k]};
    assert FreeBlocks(rest) + live[list[k] := h[list[k]].size].Keys == FreeBlocks(list) + live.Keys;
    PartitionFrame(h, g, FreeBlocks(list) + live.Keys, tag);
  }

  function TailMem(h: Mem, p: nat, n: nat): Mem
    requires p in h && n < h[p].size
  {
    h[p := Header(h[p].ptr, h[p].size - n)][p + h[p].size - n := Header(0, n)]
  }

  function TailTag(tag: map<nat, nat>, p: nat, q: nat): map<nat, nat> {
    map u | u in tag :: if tag[u] == p && q <= u then q else tag[u]
  }

  lemma SplitUnit(h: Mem, blocks: set<nat>, tag: map<nat, nat>, p: nat, n: nat, u: nat)
    requires p in h && 0 < n < h[p].size && u in tag && InBlock(h, blocks, tag, u)
    requires p + h[p].size - n !in blocks
    ensures var q := p + h[p].size - n;
      InBlock(TailMem(h, p, n), blocks + {q}, TailTag(tag, p, q), u)
  {
  }

  lemma SplitCover(h: Mem, tag: map<nat, nat>, p: nat, n: nat, c: nat)
    requires Covers(h, tag, p) && 0 < n < h[p].size && c != p + h[p].size - n && Covers(h, tag, c)
    ensures Covers(TailMem(h, p, n), TailTag(tag, p, p + h[p].size - n), c)
  {
  }

  lemma SplitPartition(h: Mem, blocks: set<nat>, tag: map<nat, nat>, p: nat, n: nat)
    requires Partition(h, blocks, tag) && p in blocks && p in h && 0 < n < h[p].size
    ensures var q := p + h[p].size - n;
      q !in blocks && Partition(TailMem(h, p, n), blocks + {q}, TailTag(tag, p, q))
  {
    var q := p + h[p].size - n;
    var g, t := TailMem(h, p, n), TailTag(tag, p, q);
    assert Covers(h, tag, p) && tag[q] == p;
    assert q !in blocks;
    assert Covers(g, t, q);
    hide Covers, InBlock, TailMem;
    forall c | c in blocks ensures Covers(g, t, c) {
      SplitCover(h, tag, p, n, c);
    }
    forall u | u in t ensures InBlock(g, blocks + {q}, t, u) {
      SplitUnit(h, blocks, tag, p, n, u);
    }
  }

  lemma TakenTail(h: Mem, list: seq<nat>, live: map<nat, nat>, tag: map<nat, nat>, k: nat, n: nat)
    requires Chain(h, list) && Tagged(h, FreeBlocks(list), live, tag) && 0 < k < |list| && list[k] in h
    requires 0 < n < h[list[k]].size
    ensures var p := list[k];
      var q := p + h[p].size - n;
      && q !in list && q !in live && BASE < q && Chain(TailMem(h, p, n), list)
      && Tagged(TailMem(h, p, n), FreeBlocks(list), live[q := n], TailTag(tag, p, q))
  {
    hide Partition, TailTag;
    var p := list[k];
    var q := p + h[p].size - n;
    ChainDistinct(h, list);
    assert p in FreeBlocks(list);
    SplitPartition(h, FreeBlocks(list) + live.Keys, tag, p, n);
    assert FreeBlocks(list) + live[q := n].Keys == FreeBlocks(list) + live.Keys + {q};
    var g := TailMem(h, p, n);
    forall j | 0 <= j < |list| ensures LinkOk(g, list, j) {
      assert LinkOk(h, list, j);
    }
  }

  function Region(a: nat, n: nat): (r: map<nat, nat>)
    ensures forall u :: u in r <==> a <= u < a + n
    ensures forall u :: u in r ==> r[u] == a
  {
    if n == 0 then map[] else Region(a, n - 1)[a + n - 1 := a]
  }

  /** A fresh region above every unit joins the partition as one block; morecore then frees it. */
  lemma Grown(h: Mem, free: set<nat>, live: map<nat, nat>, tag: map<nat, nat>, a: nat, n: nat)
    requires Tagged(h, free, live, tag) && BASE < a && n > 0 && forall u :: u in tag ==> u < a
    ensures a !in free && a !in live
    ensures Tagged(h[a := Header(0, n)], free, live[a := n], tag + Region(a, n))
  {
    var g, t, blocks := h[a := Header(0, n)], tag + Region(a, n), free + live.Keys;
    assert Covers(h, tag, a) ==> a in tag;
    assert free + live[a := n].Keys == blocks + {a};
    forall c | c in blocks + {a} ensures Covers(g, t, c) {
      if c != a {
        assert Covers(h, tag, c);
      }
    }
    forall u | u in t ensures InBlock(g, blocks + {a}, t, u) {
      if u in tag {
        assert InBlock(h, blocks, tag, u);
      }
    }
  }

  /** No store has fallen on a unit of a live block. */
  ghost predicate PayloadKept(h: Mem, g: Mem, live: map<nat, nat>, tag: map<nat, nat>) {
    forall u :: u in tag && tag[u] in live ==> (u in h <==> u in g) && (u in h ==> h[u] == g[u])
  }

  /** Two live blocks never share a unit. */
  lemma LiveDisjoint(h: Mem, free: set<nat>, live: map<nat, nat>, tag: map<nat, nat>, a: nat, b: nat, u: nat)
    requires Tagged(h, free, live, tag) && a in live && b in live && a <= u < a + live[a] && b <= u < b + live[b]
    ensures a == b
  {
    assert Covers(h, tag, a) && Covers(h, tag, b);
    assert u in tag;
  }

  /** Header units a request for nbytes takes: the sum is a 32-bit one. */
  function Units(nbytes: nat): nat {
    (nbytes + HEADER - 1) % UINT / HEADER + 1
  }

  /** The payload holds the request exactly when the rounding sum does not wrap. */
  lemma UnitsEnough(nbytes: nat)
    requires nbytes < UINT
    ensures (Units(nbytes) - 1) * HEADER >= nbytes <==> nbytes <= UINT - HEADER
    ensures nbytes <= UINT - HEADER ==> (Units(nbytes) - 1) * HEADER < nbytes + HEADER
  {
    if nbytes > UINT - HEADER {
      assert (nbytes + HEADER - 1) % UINT == nbytes + HEADER - 1 - UINT;
    }
  }

  /** The largest request of all gets a header and nothing behind it. */
  lemma WrappedRequestGetsNothing()
    ensures Units(0xffff_ffff) == 1
  {
  }

  /** nu * sizeof(Header) as the 32-bit signed argument sbrk receives. */
  function SbrkArg(nu: nat): int {
    var x := nu * HEADER % UINT;
    if x < UINT / 2 then x else x - UINT
  }

  /** sbrk is asked for exactly the units morecore then records in the header, as long as they stay below 2^31 bytes. */
  lemma SbrkArgExact(nu: nat)
    ensures SbrkArg(nu) == nu * HEADER <==> nu < 0x1000_0000
  {
    if nu < 0x1000_0000 {
      assert nu * HEADER % UINT == nu * HEADER;
    }
  }

  lemma HugeRequestShrinks()
    ensures Units(0x7fff_fff8) == 0x1000_0000 && SbrkArg(Units(0x7fff_fff8)) == -0x8000_0000
  {
  }

  // ---- conservation ----

  function FreeTotal(h: Mem, list: seq<nat>): nat {
    if list == [] then 0
    else FreeTotal(h, list[..|list| - 1]) + if list[|list| - 1] in h then h[list[|list| - 1]].size else 0
  }

  function UnitsOf(tag: map<nat, nat>, blocks: set<nat>): set<nat> {
    set u | u in tag && tag[u] in blocks
  }

  lemma BlockUnits(h: Mem, blocks: set<nat>, tag: map<nat, nat>, a: nat)
    requires Partition(h, blocks, tag) && a in blocks && a in h
    ensures |UnitsOf(tag, {a})| == h[a].size
  {
    assert Covers(h, tag, a);
    forall u | u in UnitsOf(tag, {a}) ensures a <= u < a + h[a].size {
      assert InBlock(h, blocks, tag, u);
    }
    assert UnitsOf(tag, {a}) == Region(a, h[a].size).Keys;
    RegionSize(a, h[a].size);
  }

  lemma RegionSize(a: nat, n: nat)
    ensures |Region(a, n).Keys| == n
  {
    if n > 0 {
      assert Region(a, n).Keys == Region(a, n - 1).Keys + {a + n - 1};
    }
  }

  lemma UnitsSplit(tag: map<nat, nat>, s: set<nat>, t: set<nat>)
    requires s !! t
    ensures |UnitsOf(tag, s + t)| == |UnitsOf(tag, s)| + |UnitsOf(tag, t)|
  {
    assert UnitsOf(tag, s + t) == UnitsOf(tag, s) + UnitsOf(tag, t);
    assert UnitsOf(tag, s) !! UnitsOf(tag, t);
  }

  /** Element n - 1 is a free block of its own: it is not among the first n - 1 elements. */
  lemma FreePrefix(h: Mem, list: seq<nat>, n: nat)
    requires Chain(h, list) && 1 < n <= |list|
    ensures var a, before := list[n - 1], FreeBlocks(list[..n - 1]);
      a in h && a in FreeBlocks(list) && a !in before && FreeBlocks(list[..n]) == before + {a}
  {
    ChainDistinct(h, list);
    assert LinkOk(h, list, n - 1);
  }

  lemma {:induction false} FreeUnitsCount(h: Mem, list: seq<nat>, blocks: set<nat>, tag: map<nat, nat>, n: nat)
    requires Partition(h, blocks, tag) && Chain(h, list) && FreeBlocks(list) <= blocks && 0 < n <= |list|
    ensures FreeTotal(h, list[..n]) == |UnitsOf(tag, FreeBlocks(list[..n]))|
  {
    hide Partition, FreeBlocks, UnitsOf;
    assert list[..n][..n - 1] == list[..n - 1];
    if n > 1 {
      var a, before := list[n - 1], FreeBlocks(list[..n - 1]);
      FreeUnitsCount(h, list, blocks, tag, n - 1);
      FreePrefix(h, list, n);
      BlockUnits(h, blocks, tag, a);
      UnitsSplit(tag, before, {a});
    } else {
      BaseHoldsNothing(h, list, tag);
    }
  }

  lemma BaseHoldsNothing(h: Mem, list: seq<nat>, tag: map<nat, nat>)
    requires Chain(h, list)
    ensures FreeTotal(h, list[..1]) == |UnitsOf(tag, FreeBlocks(list[..1]))|
  {
    assert LinkOk(h, list, 0);
    assert FreeBlocks(list[..1]) == {};
    assert UnitsOf(tag, {}) == {};
  }

  /** The units on the free list and the units of live blocks add up to the units ever obtained from sbrk. */
  lemma Conservation(h: Mem, list: seq<nat>, live: map<nat, nat>, tag: map<nat, nat>)
    requires Chain(h, list) && Tagged(h, FreeBlocks(list), live, tag)
    ensures FreeTotal(h, list) + |UnitsOf(tag, live.Keys)| == |tag|
  {
    hide Covers, FreeTotal, FreeBlocks;
    var blocks := FreeBlocks(list) + live.Keys;
    FreeUnitsCount(h, list, blocks, tag, |list|);
    assert list[..|list|] == list;
    UnitsSplit(tag, FreeBlocks(list), live.Keys);
    forall u | u in tag ensures u in UnitsOf(tag, blocks) {
      assert InBlock(h, blocks, tag, u);
    }
    assert UnitsOf(tag, blocks) == tag.Keys;
  }

  class Allocator {
    var hdr: Mem
    var freep: nat                      // 0 is NULL: malloc has not been called yet
    ghost var list: seq<nat>
    ghost var live: map<nat, nat>       // header address -> units
    ghost var tag: map<nat, nat>

    ghost predicate Valid()
      reads this
    {
      if freep == 0 then list == [] && live == map[] && tag == map[]
      else Chain(hdr, list) && Tagged(hdr, FreeBlocks(list), live, tag) && freep in list
    }

    constructor ()
      ensures Valid() && live == map[] && tag == map[]
    {
      hdr, freep, list, live, tag := map[], 0, [], map[], map[];
    }

    method FindGap(bp: nat) returns (p: nat, ghost k: nat)
      requires freep in list && Chain(hdr, list) && BASE < bp && bp !in list
      ensures Gap(list, bp, k) && p == list[k] && p in hdr
    {
      ChainDistinct(hdr, list);
      k := GapExists(hdr, list, bp);
      p := freep;
      ghost var i :| 0 <= i < |list| && list[i] == p;
      assert LinkOk(hdr, list, i);
      while !(bp > p && bp < hdr[p].ptr)
        invariant i < |list| && p == list[i] && LinkOk(hdr, list, i)
        decreases if i <= k then k - i else k - i + |list|
      {
        if p >= hdr[p].ptr && (bp > p || bp < hdr[p].ptr) {
          break;
        }
        p := hdr[p].ptr;
        i := if i + 1 < |list| then i + 1 else 0;
        assert LinkOk(hdr, list, i);
      }
    }

    /** free(ap): exactly the caller's block stops being live; the freed units stay in the heap and are merged. */
    method Free(ap: nat)
      requires Valid() && ap > 0 && ap - 1 in live
      modifies this
      ensures Valid() && freep != 0 && live == old(live) - {ap - 1} && tag.Keys == old(tag.Keys)
      ensures PayloadKept(old(hdr), hdr, live, tag) && HasFit(hdr, list, old(live)[ap - 1])
    {
      hide Chain, Tagged, FreedList, FreedTag, HasFit;
      var bp := ap - 1;
      BlockFacts(hdr, list, live, tag, bp);
      var p, k := FindGap(bp);
      GapFacts(hdr, list, live, tag, bp, k);
      ghost var joinNext := k + 1 < |list| && bp + hdr[bp].size == list[k + 1];
      ghost var joinPrev := p + hdr[p].size == bp;
      FreedChain(hdr, list, bp, k);
      FreedTagged(hdr, list, live, tag, bp, k);
      FreedEffect(hdr, list, live, tag, bp, k, joinNext, joinPrev);
      FreedFits(hdr, list, bp, k, joinNext);
      if bp + hdr[bp].size == hdr[p].ptr {
        hdr := hdr[bp := Header(hdr[hdr[p].ptr].ptr, hdr[bp].size + hdr[hdr[p].ptr].size)];
      } else {
        hdr := hdr[bp := Header(hdr[p].ptr, hdr[bp].size)];
      }
      if p + hdr[p].size == bp {
        hdr := hdr[p := Header(hdr[bp].ptr, hdr[p].size + hdr[bp].size)];
      } else {
        hdr := hdr[p := Header(bp, hdr[p].size)];
      }
      freep := p;
      list, live, tag := FreedList(list, bp, k, joinNext, joinPrev), live - {bp},
        FreedTag(tag, list, bp, k, joinNext, joinPrev);
    }

    /** morecore: `more` is what sbrk answers, the first unit of a fresh region or None for -1. */
    method Morecore(nunits: nat, more: Option<nat>) returns (p: nat)
      requires Valid() && freep != 0 && 0 < nunits < 0x1000_0000 && Above(more, tag)
      modifies this
      ensures Valid() && freep != 0 && live == old(live) && PayloadKept(old(hdr), hdr, live, tag)
      ensures more.None? ==> p == 0 && hdr == old(hdr) && list == old(list) && tag == old(tag) && freep == old(freep)
      ensures more.Some? ==> p == freep && HasFit(hdr, list, nunits)
      ensures more.Some? ==> tag.Keys == old(tag.Keys) + Region(more.value, Max(nunits, NALLOC)).Keys
    {
      hide Chain, Tagged, PayloadKept;
      var nu := Max(nunits, NALLOC);
      if more.None? {
        KeptRefl(hdr, live, tag);
        return 0;
      }
      var hp := more.value;
      ghost var h, l, t := hdr, live, tag;
      GrownHeap(hdr, list, live, tag, hp, nu);
      hdr := hdr[hp := Header(0, nu)];
      live, tag := live[hp := nu], tag + Region(hp, nu);
      Free(hp + 1);
      assert live == l;
      KeptGrown(h, FreeBlocks(old(list)), t, hdr, FreeBlocks(list), tag, live, hp, Header(0, nu));
      p := freep;
    }

    /** Hand out n units of block p: all of it, unlinked from prevp, or its tail end. */
    method Take(prevp: nat, p: nat, n: nat, ghost k: nat) returns (r: nat)
      requires Valid() && freep != 0 && 0 < k < |list| && prevp == list[k - 1] && p == list[k]
      requires prevp in hdr && p in hdr && hdr[p].size >= n > 0
      modifies this
      ensures Valid() && freep == prevp && r > 0 && r - 1 !in old(live) && live == old(live)[r - 1 := n]
      ensures tag.Keys == old(tag.Keys) && PayloadKept(old(hdr), hdr, old(live), tag)
    {
      hide Chain, Tagged, TailTag;
      ListFacts(hdr, list, live, tag, k);
      if hdr[p].size == n {
        TakenWhole(hdr, list, live, tag, k);
        hdr := hdr[prevp := Header(hdr[p].ptr, hdr[prevp].size)];
        list, live := list[..k] + list[k + 1..], live[p := n];
        assert list[k - 1] == prevp;
        r := p + 1;
      } else {
        TakenTail(hdr, list, live, tag, k, n);
        TailKept(hdr, FreeBlocks(list), live, tag, p, n);
        var q := p + hdr[p].size - n;
        hdr := hdr[p := Header(hdr[p].ptr, hdr[p].size - n)];
        hdr := hdr[q := Header(0, n)];
        live, tag := live[q := n], TailTag(tag, p, q);
        r := q + 1;
      }
      freep := prevp;
    }

    /** First use: the list is base alone, pointing to itself. */
    method Start()
      requires Valid()
      modifies this
      ensures Valid() && freep != 0 && live == old(live) && tag == old(tag) && PayloadKept(old(hdr), hdr, live, tag)
      ensures old(freep) != 0 ==> freep == old(freep) && hdr == old(hdr) && list == old(list)
      ensures forall n :: n > 0 ==> HasFit(hdr, list, n) == HasFit(old(hdr), old(list), n)
    {
      if freep == 0 {
        hdr := hdr[BASE := Header(BASE, 0)];
        freep := BASE;
        list := [BASE];
      }
    }

    /** malloc: next fit from freep, one extension of the heap at most. */
    method Malloc(nbytes: nat, more: Option<nat>) returns (r: nat)
      requires Valid() && nbytes < UINT && Units(nbytes) < 0x1000_0000 && Above(more, tag)
      modifies this
      ensures Valid() && PayloadKept(old(hdr), hdr, old(live), tag)
      ensures r == 0 <==> more.None? && !HasFit(old(hdr), old(list), Units(nbytes))
      ensures r == 0 ==> live == old(live)
      ensures r != 0 ==> r - 1 !in old(live) && live == old(live)[r - 1 := Units(nbytes)]
      ensures tag.Keys == old(tag.Keys) + if r == 0 || HasFit(old(hdr), old(list), Units(nbytes)) then {}
                                          else Region(more.value, Max(Units(nbytes), NALLOC)).Keys
    {
      hide Chain, Tagged, PayloadKept, HasFit, Region;
      var n := Units(nbytes);
      Start();
      ghost var fits, before := HasFit(hdr, list, n), tag.Keys;
      ghost var f: nat := Index(list, freep);
      ghost var j: nat, grown := f, false;
      NextFacts(hdr, list, j);
      var prevp := freep;
      var p := hdr[prevp].ptr;
      while hdr[p].size < n
        invariant Valid() && freep != 0 && live == old(live) && PayloadKept(old(hdr), hdr, live, tag)
        invariant f < |list| && list[f] == freep && j < |list| && list[j] == prevp && p == Next(list, j) && p in hdr
        invariant Scanned(hdr, list, f, j, n)
        invariant !grown ==> tag == old(tag) && fits == HasFit(hdr, list, n)
        invariant grown ==> more.Some? && !fits && HasFit(hdr, list, n)
        invariant tag.Keys == before + if grown then Region(more.value, Max(n, NALLOC)).Keys else {}
        decreases if grown then 0 else 1, if j < f then f - j else f - j + |list|
      {
        if p == freep {
          ScannedAll(hdr, list, f, j, n);
          ghost var h, l, t := hdr, list, tag;
          p := Morecore(n, more);
          KeptTrans(old(hdr), h, FreeBlocks(l), live, t, hdr, FreeBlocks(list), live, tag);
          if p == 0 {
            return 0;
          }
          f, grown := Index(list, freep), true;
          j := f;
        } else {
          ScannedMore(hdr, list, f, j, n);
          j := if j + 1 < |list| then j + 1 else 0;
        }
        NextFacts(hdr, list, j);
        prevp, p := p, hdr[p].ptr;
      }
      NextFacts(hdr, list, j);
      FitFound(hdr, list, j + 1, n);
      ghost var h, l, t := hdr, list, tag;
      r := Take(prevp, p, n, j + 1);
      KeptTrans(old(hdr), h, FreeBlocks(l), old(live), t, hdr, FreeBlocks(list), live, tag);
    }
  }

  function Index(list: seq<nat>, x: nat): (i: nat)
    requires x in list
    ensures i < |list| && list[i] == x
  {
    if list[0] == x then 0 else 1 + Index(list[1..], x)
  }

  /** The links the search follows, and that a block with units is never the wrap-around to base. */
  lemma NextFacts(h: Mem, list: seq<nat>, j: nat)
    requires Chain(h, list) && j < |list|
    ensures list[j] in h && h[list[j]].ptr == Next(list, j) && Next(list, j) in h
    ensures h[Next(list, j)].size > 0 ==> j + 1 < |list|
  {
    assert LinkOk(h, list, j) && LinkOk(h, list, 0);
    if j + 1 < |list| {
      assert LinkOk(h, list, j + 1);
    }
  }

  /** Every element cyclically after f up to j is too small. */
  ghost predicate Scanned(h: Mem, list: seq<nat>, f: nat, j: nat, n: nat) {
    forall i :: 0 <= i < |list| && (if f <= j then f < i <= j else i > f || i <= j) && list[i] in h ==>
      h[list[i]].size < n
  }

  lemma ScannedMore(h: Mem, list: seq<nat>, f: nat, j: nat, n: nat)
    requires Chain(h, list) && f < |list| && j < |list| && Scanned(h, list, f, j, n) && Next(list, j) != list[f]
    requires Next(list, j) in h && h[Next(list, j)].size < n
    ensures Scanned(h, list, f, if j + 1 < |list| then j + 1 else 0, n)
  {
  }

  lemma ScannedAll(h: Mem, list: seq<nat>, f: nat, j: nat, n: nat)
    requires Chain(h, list) && f < |list| && j < |list| && Scanned(h, list, f, j, n) && Next(list, j) == list[f]
    requires list[f] in h && h[list[f]].size < n
    ensures !HasFit(h, list, n)
  {
    ChainDistinct(h, list);
  }

  /** Elements k - 1 and k are free, so no live unit lies at their headers. */
  lemma ListFacts(h: Mem, list: seq<nat>, live: map<nat, nat>, tag: map<nat, nat>, k: nat)
    requires Chain(h, list) && Tagged(h, FreeBlocks(list), live, tag) && 0 < k < |list|
    ensures list[k] in FreeBlocks(list) && list[k] !in live && list[k - 1] != 0
    ensures list[k - 1] in tag ==> tag[list[k - 1]] !in live
  {
    hide Partition;
    ChainDistinct(h, list);
    var blocks := FreeBlocks(list) + live.Keys;
    assert list[k] in FreeBlocks(list);
    BaseUntagged(h, blocks, tag);
    if k > 1 {
      assert list[k - 1] in FreeBlocks(list);
      BlockTag(h, blocks, tag, list[k - 1]);
    }
  }

  lemma TailKept(h: Mem, free: set<nat>, live: map<nat, nat>, tag: map<nat, nat>, p: nat, n: nat)
    requires Tagged(h, free, live, tag) && p in free && p in h && 0 < n < h[p].size && p + h[p].size - n !in live
    ensures var q := p + h[p].size - n;
      TailTag(tag, p, q).Keys == tag.Keys && PayloadKept(h, TailMem(h, p, n), live, TailTag(tag, p, q))
  {
    hide InBlock;
    var q := p + h[p].size - n;
    assert Covers(h, tag, p);
    assert tag[p] == p && tag[q] == p && p !in live;
  }

  function Max(a: nat, b: nat): nat { if a < b then b else a }

  /** What sbrk hands out lies above everything it handed out before. */
  ghost predicate Above(more: Option<nat>, tag: map<nat, nat>) {
    more.Some? ==> BASE < more.value && forall u :: u in tag ==> u < more.value
  }

  /** Some block on the free list is large enough. */
  ghost predicate HasFit(h: Mem, list: seq<nat>, n: nat) {
    exists k :: 0 <= k < |list| && list[k] in h && h[list[k]].size >= n
  }

  lemma FreedFits(h: Mem, list: seq<nat>, bp: nat, k: nat, joinNext: bool)
    requires k < |list| && list[k] in h && bp in h && h[list[k]].ptr in h && (joinNext ==> k + 1 < |list|)
    ensures var joinPrev := list[k] + h[list[k]].size == bp;
      HasFit(FreedMem(h, list[k], bp), FreedList(list, bp, k, joinNext, joinPrev), h[bp].size)
  {
    var joinPrev := list[k] + h[list[k]].size == bp;
    var r := FreedList(list, bp, k, joinNext, joinPrev);
    assert r[k] == list[k] && (!joinPrev ==> r[k + 1] == bp);
  }

  lemma GrownHeap(h: Mem, list: seq<nat>, live: map<nat, nat>, tag: map<nat, nat>, hp: nat, nu: nat)
    requires Chain(h, list) && Tagged(h, FreeBlocks(list), live, tag) && nu > 0 && Above(Some(hp), tag)
    ensures hp !in list && hp !in live && hp !in tag && live[hp := nu] - {hp} == live
    ensures Chain(h[hp := Header(0, nu)], list)
    ensures Tagged(h[hp := Header(0, nu)], FreeBlocks(list), live[hp := nu], tag + Region(hp, nu))
  {
    hide Tagged;
    Grown(h, FreeBlocks(list), live, tag, hp, nu);
    var g := h[hp := Header(0, nu)];
    forall k | 0 <= k < |list| ensures LinkOk(g, list, k) {
      assert LinkOk(h, list, k);
    }
  }

  lemma KeptGrown(h: Mem, free: set<nat>, tag: map<nat, nat>, g: Mem, free': set<nat>, tag': map<nat, nat>,
                  live: map<nat, nat>, hp: nat, x: Header)
    requires Tagged(h, free, live, tag) && Tagged(g, free', live, tag') && hp !in tag
    requires PayloadKept(h[hp := x], g, live, tag')
    ensures PayloadKept(h, g, live, tag')
  {
    forall u | u in tag' && tag'[u] in live ensures u != hp {
      assert InBlock(g, free' + live.Keys, tag', u);
      assert Covers(h, tag, tag'[u]);
    }
  }

  lemma FitFound(h: Mem, list: seq<nat>, k: nat, n: nat)
    requires k < |list| && list[k] in h && h[list[k]].size >= n
    ensures HasFit(h, list, n)
  {
  }

  lemma KeptTrans(h: Mem, g: Mem, free: set<nat>, live: map<nat, nat>, tag: map<nat, nat>,
                  g': Mem, free': set<nat>, live': map<nat, nat>, tag': map<nat, nat>)
    requires Tagged(g, free, live, tag) && Tagged(g', free', live', tag')
    requires forall a :: a in live ==> a in live' && live'[a] == live[a]
    requires PayloadKept(h, g, live, tag) && PayloadKept(g, g', live, tag')
    ensures PayloadKept(h, g', live, tag')
  {
    forall u | u in tag' && tag'[u] in live ensures u in tag && tag[u] in live {
      assert InBlock(g', free' + live'.Keys, tag', u);
      assert Covers(g, tag, tag'[u]);
    }
  }

  lemma KeptRefl(h: Mem, live: map<nat, nat>, tag: map<nat, nat>)
    ensures PayloadKept(h, h, live, tag)
  {
  }

  lemma BlockFacts(h: Mem, list: seq<nat>, live: map<nat, nat>, tag: map<nat, nat>, bp: nat)
    requires Chain(h, list) && Tagged(h, FreeBlocks(list), live, tag) && bp in live
    ensures BASE < bp && bp !in list && bp in h && h[bp].size == live[bp] > 0
  {
    assert Covers(h, tag, bp);
    assert bp in tag && InBlock(h, FreeBlocks(list) + live.Keys, tag, bp);
  }

  lemma GapFacts(h: Mem, list: seq<nat>, live: map<nat, nat>, tag: map<nat, nat>, bp: nat, k: nat)
    requires Chain(h, list) && Tagged(h, FreeBlocks(list), live, tag) && bp in live && Gap(list, bp, k) && BASE < bp
    ensures list[k] in h && bp in h && LinkOk(h, list, k) && h[list[k]].ptr in h && list[0] == BASE <= list[k]
    ensures list[k] + h[list[k]].size <= bp && (list[k] + h[list[k]].size == bp ==> list[k] != BASE)
    ensures k + 1 < |list| ==> bp + h[bp].size <= list[k + 1]
  {
    GapRoom(h, list, live, tag, bp, k);
    ChainDistinct(h, list);
    assert LinkOk(h, list, k) && LinkOk(h, list, 0);
    if k + 1 < |list| {
      assert LinkOk(h, list, k + 1);
    }
  }

  /** Where the units of p and bp end up: in no block that stays live. */
  lemma FreedTagAt(h: Mem, list: seq<nat>, live: map<nat, nat>, tag: map<nat, nat>, bp: nat, k: nat, joinNext: bool,
      joinPrev: bool)
    requires Chain(h, list) && Tagged(h, FreeBlocks(list), live, tag) && bp in live && k < |list| &&
      (joinNext ==> k + 1 < |list|)
    ensures var t := FreedTag(tag, list, bp, k, joinNext, joinPrev);
      && t.Keys == tag.Keys
      && (list[k] in t ==> t[list[k]] !in live - {bp}) && (bp in t ==> t[bp] !in live - {bp})
  {
    hide Partition;
    ChainDistinct(h, list);
    var p := list[k];
    BlockTag(h, FreeBlocks(list) + live.Keys, tag, bp);
    if p == BASE {
      BaseUntagged(h, FreeBlocks(list) + live.Keys, tag);
    } else {
      assert p in FreeBlocks(list);
      BlockTag(h, FreeBlocks(list) + live.Keys, tag, p);
    }
  }

  lemma BlockTag(h: Mem, blocks: set<nat>, tag: map<nat, nat>, a: nat)
    requires Partition(h, blocks, tag) && a in blocks
    ensures a in tag && tag[a] == a
  {
    assert Covers(h, tag, a);
  }

  lemma BaseUntagged(h: Mem, blocks: set<nat>, tag: map<nat, nat>)
    requires Partition(h, blocks, tag)
    ensures BASE !in tag && BASE !in blocks
  {
    assert BASE in tag ==> InBlock(h, blocks, tag, BASE);
    assert Covers(h, tag, BASE) ==> BASE in tag;
  }

  lemma FreedEffect(h: Mem, list: seq<nat>, live: map<nat, nat>, tag: map<nat, nat>, bp: nat, k: nat, joinNext: bool,
      joinPrev: bool)
    requires Chain(h, list) && Tagged(h, FreeBlocks(list), live, tag) && bp in live && k < |list| && list[k] in h &&
      bp in h
    requires h[list[k]].ptr in h && (joinNext ==> k + 1 < |list|)
    ensures list[k] in FreedList(list, bp, k, joinNext, joinPrev)
    ensures FreedTag(tag, list, bp, k, joinNext, joinPrev).Keys == tag.Keys
    ensures PayloadKept(h, FreedMem(h, list[k], bp), live - {bp}, FreedTag(tag, list, bp, k, joinNext, joinPrev))
  {
    hide Chain, Tagged, FreedTag;
    FreedTagAt(h, list, live, tag, bp, k, joinNext, joinPrev);
    assert list[..k + 1][k] == list[k];
  }
}

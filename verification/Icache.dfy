/** The inode cache and the path walk (kernel/fs.c), as one process runs them between its own sleeps. */
module Icache {
  import opened Options
  import opened Path
  import opened Sets
  import Bio

  const NINODE: nat := 50
  const ROOTDEV: nat := Bio.ROOTDEV

  datatype Entry = Entry(dev: nat, inum: nat, ref: nat, busy: bool, valid: bool, typ: nat, nlink: nat)

  type Entries = seq<Entry>
  type Index = map<nat, nat>           // inode number -> the one cache entry that holds it

  /** At most one entry in use per inode: `at` finds it. */
  ghost predicate Indexed(es: Entries, at: Index) {
    && |es| == NINODE
    && (forall i :: i in at ==> at[i] < NINODE && es[at[i]].ref > 0 && es[at[i]].inum == i && es[at[i]].dev == ROOTDEV)
    && (forall k :: 0 <= k < NINODE && es[k].ref > 0 ==> es[k].inum in at && at[es[k].inum] == k)
  }

  /** What a valid entry says agrees with the disk. */
  ghost predicate Coherent(es: Entries, tree: Tree) {
    forall k :: 0 <= k < |es| && es[k].ref > 0 && es[k].valid ==>
      es[k].inum in tree && es[k].typ == tree[es[k].inum].typ && es[k].nlink == tree[es[k].inum].nlink
  }

  /** References to inode i. */
  function Ref(es: Entries, at: Index, i: nat): nat {
    if i in at && at[i] < |es| then es[at[i]].ref else 0
  }

  /** Reference counts before and after agree, but for the inodes whose counts have moved by the given amounts. */
  ghost predicate Refs(es: Entries, at: Index, es': Entries, at': Index, i: nat, d: int) {
    forall j: nat :: Ref(es', at', j) == Ref(es, at, j) + if j == i then d else 0
  }

  /** An allocated inode that outlives the loss of one more reference: linked, or referenced already. */
  ghost predicate Anchored(t: Tree, es: Entries, at: Index, i: nat) {
    i in t && t[i].typ != 0 && (t[i].nlink > 0 || Ref(es, at, i) > 0)
  }

  /** Every directory entry names such an inode. An unlinked directory still open has "." and ".." to answer for. */
  ghost predicate EntriesAnchored(t: Tree, es: Entries, at: Index) {
    forall i :: i in t ==> forall k :: 0 <= k < |t[i].dirents| && t[i].dirents[k].inum != 0 ==>
      Anchored(t, es, at, t[i].dirents[k].inum)
  }

  lemma FoundAnchored(t: Tree, es: Entries, at: Index, i: nat, name: string)
    requires EntriesAnchored(t, es, at) && i in t && Find(t[i].dirents, name).Some?
    ensures Anchored(t, es, at, Find(t[i].dirents, name).value)
  {
    var k := FindIs(t[i].dirents, name);
  }

  ghost predicate SameLocks(es: Entries, es': Entries) {
    |es'| == |es| && forall k :: 0 <= k < |es| && es[k].ref > 0 && es'[k].ref > 0 ==> es'[k].busy == es[k].busy
  }

  ghost predicate Unlocked(es: Entries) {
    forall k :: 0 <= k < |es| && es[k].ref > 0 ==> !es[k].busy
  }

  function Below(at: Index, n: nat): set<nat> { set i | i in at && at[i] < n }

  lemma {:induction false} FullUpTo(es: Entries, at: Index, n: nat)
    requires Indexed(es, at) && n <= NINODE && forall k :: 0 <= k < NINODE ==> es[k].ref > 0
    ensures |Below(at, n)| == n
  {
    if n > 0 {
      FullUpTo(es, at, n - 1);
      assert es[n - 1].ref > 0;
      assert Below(at, n) == Below(at, n - 1) + {es[n - 1].inum};
    } else {
      assert Below(at, 0) == {};
    }
  }

  lemma FullCache(es: Entries, at: Index)
    requires Indexed(es, at) && forall k :: 0 <= k < NINODE ==> es[k].ref > 0
    ensures |at| == NINODE
  {
    FullUpTo(es, at, NINODE);
    assert Below(at, NINODE) == at.Keys;
  }

  /** Entries in use stay in use, with at most their counts changed. */
  ghost predicate InUseKept(es: Entries, es': Entries) {
    |es'| == |es| && forall k :: 0 <= k < |es| && es[k].ref > 0 ==>
      es'[k].ref > 0 && es'[k] == es[k].(ref := es'[k].ref)
  }

  lemma KeptRefl(es: Entries)
    ensures InUseKept(es, es)
  {
  }

  lemma Recycled(es: Entries, at: Index, tree: Tree, k: nat, inum: nat)
    requires Indexed(es, at) && Coherent(es, tree) && k < NINODE && es[k].ref == 0 && inum !in at
    ensures var es', at' := es[k := Entry(ROOTDEV, inum, 1, false, false, 0, 0)], at[inum := k];
      Indexed(es', at') && Coherent(es', tree) && Refs(es, at, es', at', inum, 1) && SameLocks(es, es') &&
        InUseKept(es, es')
  {
  }

  /** An entry in use changes, and stays in use for the same inode. */
  lemma Updated(es: Entries, at: Index, tree: Tree, k: nat, e: Entry)
    requires Indexed(es, at) && Coherent(es, tree) && k < NINODE && es[k].ref > 0 && e.ref > 0 &&
      e.inum == es[k].inum && e.dev == es[k].dev
    requires e.valid ==> e.inum in tree && e.typ == tree[e.inum].typ && e.nlink == tree[e.inum].nlink
    ensures Indexed(es[k := e], at) && Coherent(es[k := e], tree) &&
      Refs(es, at, es[k := e], at, e.inum, e.ref - es[k].ref)
    ensures e.busy == es[k].busy ==> SameLocks(es, es[k := e])
    ensures e == es[k].(ref := e.ref) ==> InUseKept(es, es[k := e])
  {
  }

  lemma CoherentAt(es: Entries, tree: Tree, k: nat)
    requires Coherent(es, tree) && k < |es| && es[k].ref > 0
    ensures es[k].valid ==>
      es[k].inum in tree && es[k].typ == tree[es[k].inum].typ && es[k].nlink == tree[es[k].inum].nlink
  {
  }

  lemma NotCached(es: Entries, at: Index, inum: nat)
    requires Indexed(es, at) && forall k :: 0 <= k < NINODE && es[k].ref > 0 ==> es[k].inum != inum
    ensures inum !in at
  {
  }

  /** The last reference goes. */
  lemma Dropped(es: Entries, at: Index, tree: Tree, k: nat, e: Entry, tree': Tree)
    requires Indexed(es, at) && Coherent(es, tree) && k < NINODE && es[k].ref == 1 && e.ref == 0
    requires forall i :: i in tree && i != es[k].inum ==> i in tree' && tree'[i] == tree[i]
    ensures var es', at' := es[k := e], at - {es[k].inum};
      Indexed(es', at') && Coherent(es', tree') && Refs(es, at, es', at', es[k].inum, -1) && SameLocks(es, es')
  {
  }

  class InodeCache {
    var inode: Entries
    var tree: Tree                     // the inodes on disk
    ghost var at: Index

    ghost predicate Valid()
      reads this
    {
      Indexed(inode, at) && Coherent(inode, tree)
    }

    constructor (t: Tree)
      ensures Valid() && tree == t && at == map[] && Unlocked(inode)
    {
      inode := seq(NINODE, _ => Entry(0, 0, 0, false, false, 0, 0));
      tree, at := t, map[];
    }

    /** iget: one more reference to the inode, through its entry or else through the first free one. */
    method Iget(dev: nat, inum: nat) returns (r: Option<nat>)
      requires Valid() && dev == ROOTDEV
      modifies this`inode, this`at
      ensures Valid()
      ensures r.None? ==> inode == old(inode) && at == old(at) && inum !in at && |at| == NINODE
      ensures r.Some? ==> Held(old(inode), old(at), inode, at, inum, r.value)
      ensures InUseKept(old(inode), inode)
    {
      hide Coherent, Refs, SameLocks, InUseKept;
      KeptRefl(inode);
      var hit, empty := Scan(dev, inum);
      if hit.Some? {
        var ip := hit.value;
        CoherentAt(inode, tree, ip);
        Updated(inode, at, tree, ip, inode[ip].(ref := inode[ip].ref + 1));
        inode := inode[ip := inode[ip].(ref := inode[ip].ref + 1)];
        return hit;
      }
      if empty.None? {
        FullCache(inode, at);
        return None;
      }
      Recycled(inode, at, tree, empty.value, inum);
      inode := inode[empty.value := Entry(dev, inum, 1, false, false, 0, 0)];
      at := at[inum := empty.value];
      return empty;
    }

    /** iget's loop: the inode's entry, or else the first free one. */
    method Scan(dev: nat, inum: nat) returns (hit: Option<nat>, empty: Option<nat>)
      requires Valid() && dev == ROOTDEV
      ensures hit.Some? ==> hit.value < NINODE && inode[hit.value].ref > 0 && inode[hit.value].inum == inum
      ensures hit.None? ==> inum !in at
      ensures empty.Some? ==> empty.value < NINODE && inode[empty.value].ref == 0
      ensures hit.None? && empty.None? ==> forall k :: 0 <= k < NINODE ==> inode[k].ref > 0
    {
      hide Coherent;
      var ip := 0;
      hit, empty := None, None;
      while ip < NINODE
        invariant ip <= NINODE && forall k :: 0 <= k < ip && inode[k].ref > 0 ==> inode[k].inum != inum
        invariant empty.None? ==> forall k :: 0 <= k < ip ==> inode[k].ref > 0
        invariant empty.Some? ==> empty.value < ip && inode[empty.value].ref == 0
      {
        if inode[ip].ref > 0 && inode[ip].dev == dev && inode[ip].inum == inum {
          return Some(ip), empty;
        }
        if empty.None? && inode[ip].ref == 0 {
          empty := Some(ip);
        }
        ip := ip + 1;
      }
      NotCached(inode, at, inum);
    }

    method Idup(ip: nat)
      requires Valid() && ip < NINODE && inode[ip].ref > 0
      modifies this`inode
      ensures Valid() && Refs(old(inode), at, inode, at, inode[ip].inum, 1) && SameLocks(old(inode), inode)
      ensures inode == old(inode)[ip := old(inode)[ip].(ref := old(inode)[ip].ref + 1)]
    {
      inode := inode[ip := inode[ip].(ref := inode[ip].ref + 1)];
    }

    /** ilock of an inode nobody holds: the entry is read in if necessary. */
    method Ilock(ip: nat)
      requires Valid() && ip < NINODE && inode[ip].ref > 0 && !inode[ip].busy
      requires inode[ip].inum in tree && tree[inode[ip].inum].typ != 0
      modifies this`inode
      ensures Valid() && Refs(old(inode), at, inode, at, 0, 0)
      ensures inode[ip].busy && inode[ip].valid && inode[ip].typ == tree[inode[ip].inum].typ &&
        inode[ip].nlink == tree[inode[ip].inum].nlink
      ensures inode == old(inode)[ip := inode[ip]] && inode[ip].inum == old(inode)[ip].inum &&
        inode[ip].ref == old(inode)[ip].ref
      ensures inode[ip].dev == old(inode)[ip].dev
    {
      inode := inode[ip := inode[ip].(busy := true)];
      if !inode[ip].valid {
        var dip := tree[inode[ip].inum];
        inode := inode[ip := inode[ip].(typ := dip.typ, nlink := dip.nlink, valid := true)];
      }
    }

    method Iunlock(ip: nat)
      requires Valid() && ip < NINODE && inode[ip].ref > 0 && inode[ip].busy
      modifies this`inode
      ensures Valid() && Refs(old(inode), at, inode, at, 0, 0)
      ensures inode == old(inode)[ip := old(inode)[ip].(busy := false)]
    {
      inode := inode[ip := inode[ip].(busy := false)];
    }

    /** iput: one reference less; the last reference to an unlinked inode frees the inode on disk. */
    method Iput(ip: nat)
      requires Valid() && ip < NINODE && inode[ip].ref > 0
      requires inode[ip].ref == 1 && inode[ip].valid && inode[ip].nlink == 0 ==> !inode[ip].busy
      modifies this`inode, this`at, this`tree
      ensures Valid() && Refs(old(inode), old(at), inode, at, old(inode)[ip].inum, -1) && SameLocks(old(inode), inode)
      ensures tree == if old(inode)[ip].ref == 1 && old(inode)[ip].valid && old(inode)[ip].nlink == 0
                      then old(tree)[old(inode)[ip].inum := Dinode(0, 0, [])] else old(tree)
      ensures at == if old(inode)[ip].ref == 1 then old(at) - {old(inode)[ip].inum} else old(at)
      ensures |inode| == NINODE && inode == old(inode)[ip := inode[ip]]
    {
      hide Coherent, Refs, SameLocks;
      CoherentAt(inode, tree, ip);
      ghost var es, t := inode, tree;
      if inode[ip].ref == 1 && inode[ip].valid && inode[ip].nlink == 0 {
        tree := tree[inode[ip].inum := Dinode(0, 0, [])];
        inode := inode[ip := inode[ip].(typ := 0, busy := false, valid := false)];
      }
      inode := inode[ip := inode[ip].(ref := inode[ip].ref - 1)];
      assert inode == es[ip := inode[ip]];
      if es[ip].ref == 1 {
        Dropped(es, at, t, ip, inode[ip], tree);
        at := at - {es[ip].inum};
      } else {
        Updated(es, at, t, ip, inode[ip]);
      }
    }

    /** dirlookup in a locked directory. */
    method Dirlookup(dp: nat, name: string) returns (r: Lookup)
      requires Valid() && dp < NINODE && inode[dp].ref > 0 && inode[dp].busy && inode[dp].valid &&
        inode[dp].typ == T_DIR
      modifies this`inode, this`at
      ensures Valid() && InUseKept(old(inode), inode)
      ensures inode[dp].inum in tree && (r.NotFound? <==> NoEntry(tree[inode[dp].inum].dirents, name))
      ensures !r.Found? ==> inode == old(inode) && at == old(at)
      ensures r.Panic? ==> |at| == NINODE
      ensures r.Found? ==> r.ip < NINODE && Held(old(inode), old(at), inode, at, inode[r.ip].inum, r.ip)
      ensures r.Found? ==> Hop(tree, inode[dp].inum, name, inode[r.ip].inum)
    {
      hide Refs, SameLocks;
      CoherentAt(inode, tree, dp);
      KeptRefl(inode);
      var ds := tree[inode[dp].inum].dirents;
      var off := 0;
      while off < |ds|
        invariant off <= |ds| && inode == old(inode) && at == old(at)
        invariant forall j :: 0 <= j < off ==> !Fits(ds[j], name)
      {
        if ds[off].inum != 0 && ds[off].name == name {
          assert FirstEntry(ds, name, off) && Fits(ds[off], name);
          var ip := Iget(inode[dp].dev, ds[off].inum);
          return if ip.None? then Panic else Found(ip.value);
        }
        off := off + 1;
      }
      return NotFound;
    }

    method Iunlockput(ip: nat)
      requires Valid() && ip < NINODE && inode[ip].ref > 0 && inode[ip].busy && OthersUnlocked(inode, ip)
      modifies this`inode, this`at, this`tree
      ensures Valid() && Unlocked(inode) && Refs(old(inode), old(at), inode, at, old(inode)[ip].inum, -1)
      ensures tree == if old(inode)[ip].ref == 1 && old(inode)[ip].valid && old(inode)[ip].nlink == 0
                      then old(tree)[old(inode)[ip].inum := Dinode(0, 0, [])] else old(tree)
      ensures |inode| == NINODE && inode == old(inode)[ip := inode[ip]]
    {
      hide Refs;
      Iunlock(ip);
      ghost var es := inode;
      Iput(ip);
      RefsTrans(old(inode), old(at), es, old(at), inode, at, old(inode)[ip].inum, 0, -1);
    }

    /** The rest of a round of namex with ip locked: look name up in ip, let ip go, keep a reference to what is
        found. */
    method Descend(ip: nat, name: string) returns (r: Lookup)
      requires Valid() && OthersUnlocked(inode, ip) && ip < NINODE && inode[ip].ref > 0 && inode[ip].busy &&
        inode[ip].valid
      requires inode[ip].typ == T_DIR && inode[ip].inum in tree && (inode[ip].nlink > 0 || inode[ip].ref > 1)
      modifies this`inode, this`at, this`tree
      ensures tree == old(tree) && (r.Panic? ==> |old(at)| == NINODE)
      ensures !r.Panic? ==> Valid() && Unlocked(inode)
      ensures r.NotFound? ==>
        NoEntry(tree[old(inode)[ip].inum].dirents, name) &&
        Refs(old(inode), old(at), inode, at, old(inode)[ip].inum, -1)
      ensures r.Found? ==> r.ip < NINODE && inode[r.ip].ref > 0
      ensures r.Found? ==> Hop(tree, old(inode)[ip].inum, name, inode[r.ip].inum)
      ensures r.Found? ==> Moved(old(inode), old(at), inode, at, old(inode)[ip].inum, inode[r.ip].inum)
    {
      hide Refs, SameLocks, Coherent, Hop, NoEntry;
      ghost var e1, a1 := inode, at;
      r := Dirlookup(ip, name);
      ghost var e2, a2 := inode, at;
      if r.Panic? {
        return;
      }
      if r.Found? {
        StillLocked(e1, a1, e2, a2, ip, e2[r.ip].inum, r.ip);
      }
      Iunlockput(ip);
      if r.Found? {
        Traded(e1, a1, e2, a2, inode, at, e1[ip].inum, e2[r.ip].inum);
        StillThere(e1, a1, e2, a2, inode, at, ip, r.ip);
      }
    }

    /** Where namex starts: a reference to the root or to the current directory. */
    method Start(path: string, cwd: nat) returns (r: Option<nat>)
      requires Valid() && Unlocked(inode) && cwd < NINODE && inode[cwd].ref > 0
      modifies this`inode, this`at
      ensures Valid() && (r.None? ==> |old(at)| == NINODE)
      ensures r.Some? ==> Unlocked(inode) && r.value < NINODE && inode[r.value].ref > 0
      ensures r.Some? ==> inode[r.value].inum == if path != "" && path[0] == '/' then ROOTINO else old(inode)[cwd].inum
      ensures r.Some? ==> Refs(old(inode), old(at), inode, at, inode[r.value].inum, 1)
    {
      hide Refs, Coherent;
      if path != "" && path[0] == '/' {
        r := Iget(ROOTDEV, ROOTINO);
        if r.Some? {
          FreshlyHeld(old(inode), old(at), inode, at, ROOTINO, r.value);
        }
      } else {
        Idup(cwd);
        r := Some(cwd);
      }
    }

    /** One round of namex. With `stop` set, name is the last element and the directory itself is wanted. */
    method Round(ip: nat, name: string, stop: bool) returns (r: Lookup)
      requires Valid() && Unlocked(inode) && ip < NINODE && inode[ip].ref > 0 && inode[ip].inum in tree
      requires tree[inode[ip].inum].typ != 0 && (tree[inode[ip].inum].nlink > 0 || inode[ip].ref > 1)
      modifies this`inode, this`at, this`tree
      ensures tree == old(tree) && (r.Panic? ==> |old(at)| == NINODE)
      ensures !r.Panic? ==> Valid() && Unlocked(inode)
      ensures var d := tree[old(inode)[ip].inum];
        match r
        case Panic => d.typ == T_DIR
        case NotFound => (d.typ != T_DIR || (!stop && NoEntry(d.dirents, name))) &&
          Refs(old(inode), old(at), inode, at, old(inode)[ip].inum, -1)
        case Found(k) =>
          && d.typ == T_DIR && k < NINODE && inode[k].ref > 0
          && (if stop then inode[k].inum == old(inode)[ip].inum
            else Hop(tree, old(inode)[ip].inum, name, inode[k].inum))
          && Moved(old(inode), old(at), inode, at, old(inode)[ip].inum, inode[k].inum)
    {
      hide Refs, Coherent, SameLocks, NoEntry, Hop, Moved;
      ghost var e0, a0, i := inode, at, inode[ip].inum;
      Ilock(ip);
      ghost var e1 := inode;
      if inode[ip].typ != T_DIR {
        Iunlockput(ip);
        RefsTrans(e0, a0, e1, a0, inode, at, i, 0, -1);
        return NotFound;
      }
      if stop {
        Iunlock(ip);
        NothingMoved(e0, e1, inode, at, i);
        return Found(ip);
      }
      r := Descend(ip, name);
      if r.NotFound? {
        RefsTrans(e0, a0, e1, a0, inode, at, i, 0, -1);
      } else if r.Found? {
        MovedAfter(e0, a0, e1, inode, at, i, inode[r.ip].inum);
      }
    }

    /** namex: the inode the path names (or, for nameiparent, the directory of its last element, whose name is
        returned), with one reference more and everything else as it was: no inode locked, no other count changed. */
    method Namex(path: string, cwd: nat, parent: bool) returns (r: Lookup, name: string)
      requires Valid() && Unlocked(inode) && EntriesAnchored(tree, inode, at) && Anchored(tree, inode, at, ROOTINO)
      requires cwd < NINODE && inode[cwd].ref > 0 && inode[cwd].inum in tree && tree[inode[cwd].inum].typ != 0
      modifies this`inode, this`at, this`tree
      ensures tree == old(tree)
      ensures r.Panic? ==> |old(at)| >= NINODE - 1
      ensures !r.Panic? ==> Valid() && Unlocked(inode)
      ensures var start := if path != "" && path[0] == '/' then ROOTINO else old(inode)[cwd].inum;
        match r
        case Panic => true
        case NotFound => (forall j: nat :: !Names(tree, start, path, parent, j)) &&
          Refs(old(inode), old(at), inode, at, 0, 0)
        case Found(ip) =>
          && ip < NINODE && inode[ip].ref > 0 && Names(tree, start, path, parent, inode[ip].inum)
          && Refs(old(inode), old(at), inode, at, inode[ip].inum, 1)
          && (parent ==> IsLast(Elements(path), name))
    {
      hide Refs, Coherent, EntriesAnchored, SameLocks, Follow, Elements, Resolve, Names, Moved, Find, Hop, NoEntry,
        Suffix, IsLast;
      ghost var e0, a0 := inode, at;
      name := "";
      var from := Start(path, cwd);
      if from.None? {
        return Panic, name;
      }
      var ip := from.value;
      ghost var start := inode[ip].inum;
      FollowResolves(tree, start, path, parent);
      assert path[0..] == path;
      SuffixRefl(Elements(path));
      var i := 0;
      while true
        invariant i <= |path| && Valid() && Unlocked(inode) && tree == old(tree)
        invariant ip < NINODE && inode[ip].ref > 0 && Refs(e0, a0, inode, at, inode[ip].inum, 1)
        invariant Anchored(tree, e0, a0, inode[ip].inum)
        invariant Follow(tree, start, Elements(path), parent) ==
          Follow(tree, inode[ip].inum, Elements(path[i..]), parent)
        invariant Suffix(Elements(path[i..]), Elements(path))
        decreases |path| - i
      {
        var elem := Skipelem(path, i);
        if elem.None? {
          break;
        }
        name, i := elem.value.0, elem.value.1;
        ghost var e1, a1, inum, rest := inode, at, inode[ip].inum, Elements(path[i..]);
        var stop := parent && i == |path|;
        FollowStep(tree, inum, name, rest, parent);
        ghost var k := FindIs(tree[inum].dirents, name);
        CountedTwice(e0, a0, e1, a1, ip);
        r := Round(ip, name, stop);
        if r.Panic? {
          AtMostOneMore(e0, a0, e1, a1, inum);
          return;
        }
        if r.NotFound? {
          RefsUndone(e0, a0, e1, a1, inode, at, inum);
          ResolveNames(tree, start, path, parent);
          return;
        }
        ip := r.ip;
        RefsMoved(e0, a0, e1, a1, inode, at, inum, inode[ip].inum);
        if stop {
          assert [name] + rest == [name];
          LastElement(Elements(path), name);
          ResolveNames(tree, start, path, parent);
          return;
        }
        HopIs(tree, inum, name, inode[ip].inum);
        FoundAnchored(tree, e0, a0, inum, name);
        SuffixStep([name] + rest, Elements(path));
        assert ([name] + rest)[1..] == rest;
      }
      FollowEnd(tree, inode[ip].inum, parent);
      ResolveNames(tree, start, path, parent);
      if parent {
        ghost var e1, a1, inum := inode, at, inode[ip].inum;
        CoherentAt(inode, tree, ip);
        CountedTwice(e0, a0, e1, a1, ip);
        Iput(ip);
        StillUnlocked(e1, inode, ip);
        RefsUndone(e0, a0, e1, a1, inode, at, inum);
        return NotFound, name;
      }
      return Found(ip), name;
    }
  }

  lemma NothingMoved(e0: Entries, e1: Entries, e2: Entries, at: Index, i: nat)
    requires Refs(e0, at, e1, at, 0, 0) && Refs(e1, at, e2, at, 0, 0)
    ensures Moved(e0, at, e2, at, i, i)
  {
    hide Ref;
  }

  lemma MovedAfter(e0: Entries, a0: Index, e1: Entries, e2: Entries, a2: Index, i: nat, j: nat)
    requires Refs(e0, a0, e1, a0, 0, 0) && Moved(e1, a0, e2, a2, i, j)
    ensures Moved(e0, a0, e2, a2, i, j)
  {
    hide Ref;
  }

  /** With one reference of ours besides those at the start, an inode referenced at the start has two. */
  lemma CountedTwice(e0: Entries, a0: Index, es: Entries, at: Index, k: nat)
    requires Indexed(es, at) && k < NINODE && es[k].ref > 0 && Refs(e0, a0, es, at, es[k].inum, 1)
    ensures Ref(e0, a0, es[k].inum) > 0 ==> es[k].ref > 1
  {
    assert Ref(es, at, es[k].inum) == es[k].ref;
  }

  lemma SuffixRefl(t: seq<string>)
    ensures Suffix(t, t)
  {
  }

  lemma FreshlyHeld(e0: Entries, a0: Index, es: Entries, at: Index, i: nat, k: nat)
    requires Indexed(e0, a0) && Indexed(es, at) && Unlocked(e0) && InUseKept(e0, es) && Held(e0, a0, es, at, i, k)
    ensures Unlocked(es) && k < NINODE && es[k].ref > 0 && es[k].inum == i
  {
    StillLocked(e0, a0, es, at, k, i, k);
    if i in a0 {
      assert e0[a0[i]].ref > 0;
    }
  }

  lemma RefsUndone(e0: Entries, a0: Index, e1: Entries, a1: Index, e2: Entries, a2: Index, i: nat)
    requires Refs(e0, a0, e1, a1, i, 1) && Refs(e1, a1, e2, a2, i, -1)
    ensures Refs(e0, a0, e2, a2, 0, 0)
  {
    hide Ref;
  }

  lemma RefsMoved(e0: Entries, a0: Index, e1: Entries, a1: Index, e2: Entries, a2: Index, i: nat, j: nat)
    requires Refs(e0, a0, e1, a1, i, 1) && Moved(e1, a1, e2, a2, i, j)
    ensures Refs(e0, a0, e2, a2, j, 1)
  {
    hide Ref;
  }

  lemma StillUnlocked(e1: Entries, e2: Entries, ip: nat)
    requires Unlocked(e1) && SameLocks(e1, e2) && ip < |e1| && e2 == e1[ip := e2[ip]] && e1[ip].ref > 0
    ensures Unlocked(e2)
  {
  }

  /** Holding one reference more takes one entry more at most. */
  lemma AtMostOneMore(e0: Entries, a0: Index, es: Entries, at: Index, i: nat)
    requires Indexed(e0, a0) && Indexed(es, at) && Refs(e0, a0, es, at, i, 1)
    ensures |at| <= |a0| + 1
  {
    forall j | j in at && j != i ensures j in a0 {
      assert Ref(es, at, j) == Ref(e0, a0, j);
    }
    assert at.Keys <= a0.Keys + {i};
    SubsetCount(at.Keys, a0.Keys + {i});
  }

  predicate Suffix(s: seq<string>, t: seq<string>) { |s| <= |t| && t[|t| - |s|..] == s }

  lemma SuffixStep(s: seq<string>, t: seq<string>)
    requires s != [] && Suffix(s, t)
    ensures Suffix(s[1..], t)
  {
  }

  predicate IsLast(t: seq<string>, name: string) { t != [] && name == t[|t| - 1] }

  lemma LastElement(t: seq<string>, name: string)
    requires Suffix([name], t)
    ensures IsLast(t, name)
  {
  }

  lemma FollowStep(t: Tree, i: nat, name: string, rest: seq<string>, parent: bool)
    requires i in t
    ensures t[i].typ != T_DIR ==> Follow(t, i, [name] + rest, parent) == None
    ensures t[i].typ == T_DIR && parent && rest == [] ==> Follow(t, i, [name] + rest, parent) == Some(i)
    ensures t[i].typ == T_DIR && !(parent && rest == []) ==>
      Follow(t, i, [name] + rest, parent) ==
        match Find(t[i].dirents, name)
        case None => None
        case Some(j) => Follow(t, j, rest, parent)
  {
    assert ([name] + rest)[1..] == rest;
  }

  lemma FollowEnd(t: Tree, i: nat, parent: bool)
    ensures Follow(t, i, [], parent) == if parent then None else Some(i)
  {
  }

  ghost predicate OthersUnlocked(es: Entries, ip: nat) {
    forall k :: 0 <= k < |es| && es[k].ref > 0 && k != ip ==> !es[k].busy
  }

  lemma RefsTrans(e0: Entries, a0: Index, e1: Entries, a1: Index, e2: Entries, a2: Index, i: nat, d: int, d': int)
    requires Refs(e0, a0, e1, a1, i, d) || (d == 0 && Refs(e0, a0, e1, a1, 0, 0))
    requires Refs(e1, a1, e2, a2, i, d')
    ensures Refs(e0, a0, e2, a2, i, d + d')
  {
    hide Ref;
  }

  /** One reference has moved from inode i to inode j. */
  ghost predicate Moved(es: Entries, at: Index, es': Entries, at': Index, i: nat, j: nat) {
    forall k: nat :: Ref(es', at', k) == Ref(es, at, k) + (if k == j then 1 else 0) - (if k == i then 1 else 0)
  }

  lemma Traded(e1: Entries, a1: Index, e2: Entries, a2: Index, e3: Entries, a3: Index, i: nat, j: nat)
    requires Refs(e1, a1, e2, a2, j, 1) && Refs(e2, a2, e3, a3, i, -1)
    ensures Moved(e1, a1, e3, a3, i, j)
  {
    hide Ref;
  }

  lemma StillLocked(e1: Entries, a1: Index, e2: Entries, a2: Index, ip: nat, i: nat, q: nat)
    requires Indexed(e1, a1) && Indexed(e2, a2) && ip < NINODE && OthersUnlocked(e1, ip) && InUseKept(e1, e2)
    requires Held(e1, a1, e2, a2, i, q)
    ensures OthersUnlocked(e2, ip) && (e1[ip].ref > 0 ==> e2[ip].ref >= e1[ip].ref)
  {
    assert Ref(e2, a2, e1[ip].inum) >= Ref(e1, a1, e1[ip].inum);
    forall k | 0 <= k < |e2| && e2[k].ref > 0 && k != ip ensures !e2[k].busy {
      var j := e2[k].inum;
      assert Ref(e2, a2, j) == Ref(e1, a1, j) + if j == i then 1 else 0;
    }
  }

  /** The entry found is still there after the directory has been let go, even if it is the directory itself. */
  lemma StillThere(e1: Entries, a1: Index, e2: Entries, a2: Index, e3: Entries, a3: Index, ip: nat, k: nat)
    requires Indexed(e1, a1) && Indexed(e2, a2) && Indexed(e3, a3) && k < NINODE && ip < NINODE && e1[ip].ref > 0 &&
      InUseKept(e1, e2)
    requires e2[k].ref > 0 && Refs(e1, a1, e2, a2, e2[k].inum, 1)
    requires e3 == e2[ip := e3[ip]] && Refs(e2, a2, e3, a3, e2[ip].inum, -1)
    ensures e3[k].ref > 0 && e3[k].inum == e2[k].inum
  {
    var j := e2[k].inum;
    assert Ref(e2, a2, j) == Ref(e1, a1, j) + 1;
    assert Ref(e3, a3, j) == Ref(e2, a2, j) + if k == ip then -1 else 0;
  }

  datatype Lookup = Panic | NotFound | Found(ip: nat)

  /** One more reference, to inode i through entry k, which the caller has not locked. */
  ghost predicate Held(es: Entries, at: Index, es': Entries, at': Index, i: nat, k: nat) {
    && i in at' && at'[i] == k && Refs(es, at, es', at', i, 1) && SameLocks(es, es')
    && k < |es'| && (i !in at ==> !es'[k].busy)
  }
}

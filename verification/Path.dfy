/** Path names and directory trees (kernel/fs.c): what a path means, independently of how it is walked. */
module Path {
  import opened Options

  const DIRSIZ: nat := 14
  const T_DIR: nat := 1
  const ROOTINO: nat := 1

  datatype Dirent = Dirent(inum: nat, name: string)

  /** An inode on disk, a directory's contents seen as entries; typ 0 is a free inode. */
  datatype Dinode = Dinode(typ: nat, nlink: nat, dirents: seq<Dirent>)

  type Tree = map<nat, Dinode>

  function Cut(name: string): string {
    if |name| >= DIRSIZ then name[..DIRSIZ] else name
  }

  /** The length of the element at the front of p. */
  function Length(p: string): (n: nat)
    ensures n <= |p| && (n < |p| ==> p[n] == '/') && forall k :: 0 <= k < n ==> p[k] != '/'
  {
    if p == "" || p[0] == '/' then 0 else 1 + Length(p[1..])
  }

  /** The slash-separated elements of a path, each cut to DIRSIZ characters. */
  function Elements(p: string): seq<string> {
    if p == "" then []
    else if p[0] == '/' then Elements(p[1..])
    else [Cut(p[..Length(p)])] + Elements(p[Length(p)..])
  }

  /** An element as it is written: any number of characters but a slash. */
  predicate IsName(n: string) { n != "" && forall k :: 0 <= k < |n| ==> n[k] != '/' }

  function Slashes(n: nat): string {
    if n == 0 then "" else "/" + Slashes(n - 1)
  }

  /** Names with slashes before, between and after them, gaps[k] of them before the k-th. */
  function Written(names: seq<string>, gaps: seq<nat>): string
    requires |gaps| == |names| + 1
  {
    Slashes(gaps[0]) + if names == [] then "" else names[0] + Written(names[1..], gaps[1..])
  }

  /** At least one slash between any two names. */
  predicate Apart(names: seq<string>, gaps: seq<nat>) {
    |gaps| == |names| + 1 && forall k :: 0 < k < |names| ==> gaps[k] > 0
  }

  lemma LengthIs(p: string, n: nat)
    requires n <= |p| && (n < |p| ==> p[n] == '/') && forall k :: 0 <= k < n ==> p[k] != '/'
    ensures Length(p) == n
  {
  }

  lemma LeadingSlash(p: string)
    ensures Elements("/" + p) == Elements(p)
  {
    assert ("/" + p)[1..] == p;
  }

  lemma {:induction false} LeadingSlashes(n: nat, p: string)
    ensures Elements(Slashes(n) + p) == Elements(p)
  {
    if n == 0 {
      assert Slashes(n) + p == p;
    } else {
      LeadingSlashes(n - 1, p);
      assert Slashes(n) + p == "/" + (Slashes(n - 1) + p);
      LeadingSlash(Slashes(n - 1) + p);
    }
  }

  /** A path has the names it is written with as its elements, each cut to fourteen characters, whatever slashes stand
      round them. */
  lemma {:induction false} ElementsOfWritten(names: seq<string>, gaps: seq<nat>)
    requires Apart(names, gaps) && forall k :: 0 <= k < |names| ==> IsName(names[k])
    ensures var es := Elements(Written(names, gaps));
      |es| == |names| && forall k :: 0 <= k < |es| ==> es[k] == if |names[k]| > 14 then names[k][..14] else names[k]
    decreases |names|
  {
    hide Elements, IsName, Slashes;
    if names == [] {
      assert Written(names, gaps) == Slashes(gaps[0]) + "";
      LeadingSlashes(gaps[0], "");
      assert Elements("") == [] by { NoElements(""); }
    } else {
      var n, rest := names[0], Written(names[1..], gaps[1..]);
      assert IsName(n);
      LeadingSlashes(gaps[0], n + rest);
      WrittenStart(names[1..], gaps[1..]);
      FirstElement(n, rest);
      ElementsOfWritten(names[1..], gaps[1..]);
    }
  }

  lemma WrittenStart(names: seq<string>, gaps: seq<nat>)
    requires |gaps| == |names| + 1 && (names != [] ==> gaps[0] > 0)
    ensures Written(names, gaps) == "" || Written(names, gaps)[0] == '/'
  {
  }

  lemma FirstElement(n: string, rest: string)
    requires IsName(n) && (rest == "" || rest[0] == '/')
    ensures Elements(n + rest) == [if |n| > 14 then n[..14] else n] + Elements(rest)
  {
    hide Elements;
    var p := n + rest;
    ElementAt(p, 0, |n|);
    assert p[0..] == p && p[|n|..] == rest && p[0..|n|] == n;
    assert |n| >= DIRSIZ ==> p[0..DIRSIZ] == n[..DIRSIZ];
    assert |n| == 14 ==> n[..14] == n;
  }

  /** Every path is so written. */
  lemma {:induction false} EveryPath(p: string) returns (names: seq<string>, gaps: seq<nat>)
    ensures Apart(names, gaps) && (forall k :: 0 <= k < |names| ==> IsName(names[k])) && Written(names, gaps) == p
    decreases |p|
  {
    if p == "" {
      names, gaps := [], [0];
    } else if p[0] == '/' {
      names, gaps := EveryPath(p[1..]);
      OneMoreSlash(names, gaps);
      gaps := gaps[0 := gaps[0] + 1];
    } else {
      var n := Length(p);
      var ms, gs := EveryPath(p[n..]);
      names, gaps := [p[..n]] + ms, [0] + gs;
      assert names[1..] == ms && gaps[1..] == gs;
      if ms != [] {
        assert IsName(ms[0]);
        SlashFirst(ms, gs);
      }
    }
  }

  lemma SlashFirst(names: seq<string>, gaps: seq<nat>)
    requires |gaps| == |names| + 1 && names != [] && IsName(names[0])
    ensures Written(names, gaps) != "" && (Written(names, gaps)[0] == '/' ==> gaps[0] > 0)
  {
    assert gaps[0] == 0 ==> Written(names, gaps)[0] == names[0][0];
  }

  lemma OneMoreSlash(names: seq<string>, gaps: seq<nat>)
    requires |gaps| == |names| + 1
    ensures Written(names, gaps[0 := gaps[0] + 1]) == "/" + Written(names, gaps)
  {
    assert gaps[0 := gaps[0] + 1][1..] == gaps[1..];
  }

  /** The entry a lookup finds: the first one in use with that name. */
  function Find(ds: seq<Dirent>, name: string): Option<nat> {
    if ds == [] then None
    else if ds[0].inum != 0 && ds[0].name == name then Some(ds[0].inum)
    else Find(ds[1..], name)
  }

  /** The inode that a list of elements leads to. */
  function Walk(t: Tree, i: nat, names: seq<string>): Option<nat>
    decreases names
  {
    if names == [] then Some(i)
    else if i !in t || t[i].typ != T_DIR then None
    else
      match Find(t[i].dirents, names[0])
      case None => None
      case Some(j) => Walk(t, j, names[1..])
  }

  /** What namei and nameiparent are for. */
  function Resolve(t: Tree, start: nat, path: string, parent: bool): Option<nat> {
    var names := Elements(path);
    if !parent then Walk(t, start, names)
    else if names == [] then None
    else
      match Walk(t, start, names[..|names| - 1])
      case None => None
      case Some(d) => if d in t && t[d].typ == T_DIR then Some(d) else None
  }

  // ---- the same, entry by entry ----

  predicate Fits(d: Dirent, name: string) { d.inum != 0 && d.name == name }

  /** Entry k is in use, has that name, and no entry before it does. */
  predicate FirstEntry(ds: seq<Dirent>, name: string, k: nat) {
    k < |ds| && ds[k].inum != 0 && ds[k].name == name && forall j :: 0 <= j < k ==> !Fits(ds[j], name)
  }

  predicate NoEntry(ds: seq<Dirent>, name: string) { forall j :: 0 <= j < |ds| ==> !Fits(ds[j], name) }

  /** A lookup finds the first entry in use with that name, and fails only when no entry in use has it. */
  lemma {:induction false} FindIs(ds: seq<Dirent>, name: string) returns (k: nat)
    ensures Find(ds, name).None? <==> NoEntry(ds, name)
    ensures Find(ds, name).Some? ==> FirstEntry(ds, name, k) && Find(ds, name) == Some(ds[k].inum)
    decreases |ds|
  {
    k := 0;
    if ds != [] && !Fits(ds[0], name) {
      var j := FindIs(ds[1..], name);
      k := j + 1;
      assert forall i :: 0 < i < |ds| ==> ds[i] == ds[1..][i - 1];
    }
  }

  /** Directory i leads to inode j by the first entry in use with that name. */
  ghost predicate Hop(t: Tree, i: nat, name: string, j: nat) {
    && i in t && t[i].typ == T_DIR
    && exists k: nat :: FirstEntry(t[i].dirents, name, k) && t[i].dirents[k].inum == j
  }

  lemma HopIs(t: Tree, i: nat, name: string, j: nat)
    ensures Hop(t, i, name, j) <==> i in t && t[i].typ == T_DIR && Find(t[i].dirents, name) == Some(j)
  {
    if i in t {
      var k := FindIs(t[i].dirents, name);
      if l: nat :| FirstEntry(t[i].dirents, name, l) {
        assert Fits(t[i].dirents[l], name);
        assert k < l ==> Fits(t[i].dirents[k], name);
      }
    }
  }

  /** The inodes of a walk, one hop for every name. */
  ghost predicate Chain(t: Tree, names: seq<string>, chain: seq<nat>) {
    |chain| == |names| + 1 && forall k :: 0 <= k < |names| ==> Hop(t, chain[k], names[k], chain[k + 1])
  }

  /** A chain of hops leads from i to j. */
  ghost predicate Leads(t: Tree, i: nat, names: seq<string>, j: nat) {
    exists chain :: Chain(t, names, chain) && chain[0] == i && chain[|names|] == j
  }

  lemma LeadsOn(t: Tree, i: nat, names: seq<string>, j: nat)
    requires names != []
    ensures Leads(t, i, names, j) <==> exists h :: Hop(t, i, names[0], h) && Leads(t, h, names[1..], j)
  {
    hide Hop;
    if Leads(t, i, names, j) {
      var chain :| Chain(t, names, chain) && chain[0] == i && chain[|names|] == j;
      assert Hop(t, chain[0], names[0], chain[1]);
      var rest := chain[1..];
      forall k | 0 <= k < |names[1..]| ensures Hop(t, rest[k], names[1..][k], rest[k + 1]) {
        assert Hop(t, chain[k + 1], names[k + 1], chain[k + 2]);
      }
      assert Chain(t, names[1..], rest) && rest[0] == chain[1] && rest[|names[1..]|] == j;
    }
    if h :| Hop(t, i, names[0], h) && Leads(t, h, names[1..], j) {
      var rest :| Chain(t, names[1..], rest) && rest[0] == h && rest[|names[1..]|] == j;
      var chain := [i] + rest;
      forall k | 0 <= k < |names| ensures Hop(t, chain[k], names[k], chain[k + 1]) {
        if k > 0 {
          assert Hop(t, rest[k - 1], names[1..][k - 1], rest[k]);
        }
      }
      assert Chain(t, names, chain) && chain[0] == i && chain[|names|] == j;
    }
  }

  /** Walking is following the chain. */
  lemma {:induction false} WalkLeads(t: Tree, i: nat, names: seq<string>, j: nat)
    ensures Walk(t, i, names) == Some(j) <==> Leads(t, i, names, j)
    decreases names
  {
    hide Hop, Find;
    if names == [] {
      if i == j {
        assert Chain(t, names, [i]);
      }
    } else {
      LeadsOn(t, i, names, j);
      forall h: nat ensures Hop(t, i, names[0], h) <==>
          i in t && t[i].typ == T_DIR && Find(t[i].dirents, names[0]) == Some(h) {
        HopIs(t, i, names[0], h);
      }
      forall h: nat ensures Walk(t, h, names[1..]) == Some(j) <==> Leads(t, h, names[1..], j) {
        WalkLeads(t, h, names[1..], j);
      }
    }
  }

  /** What a path names, for namei and for nameiparent: a chain of entries, one for every element, or for every element
      but the last, which ends in a directory then. */
  ghost predicate Names(t: Tree, start: nat, path: string, parent: bool, j: nat) {
    var names := Elements(path);
    if parent then names != [] && Leads(t, start, names[..|names| - 1], j) && j in t && t[j].typ == T_DIR
    else Leads(t, start, names, j)
  }

  lemma ResolveNames(t: Tree, start: nat, path: string, parent: bool)
    ensures forall j: nat :: Resolve(t, start, path, parent) == Some(j) <==> Names(t, start, path, parent, j)
  {
    hide Leads, Elements, Walk;
    var names := Elements(path);
    forall j: nat ensures Resolve(t, start, path, parent) == Some(j) <==> Names(t, start, path, parent, j) {
      WalkLeads(t, start, names, j);
      if names != [] {
        WalkLeads(t, start, names[..|names| - 1], j);
      }
    }
  }

  /** skipelem from position i: None when only slashes are left; otherwise the name and the position of the next
      element. */
  method Skipelem(path: string, i: nat) returns (r: Option<(string, nat)>)
    requires i <= |path|
    ensures r.None? <==> Elements(path[i..]) == []
    ensures r.Some? ==> i < r.value.1 <= |path| && Elements(path[i..]) == [r.value.0] + Elements(path[r.value.1..])
    ensures r.Some? ==> (r.value.1 == |path| <==> Elements(path[r.value.1..]) == [])
  {
    hide Elements, Length;
    var s := SkipSlashes(path, i);
    NoElements(path);
    if s == |path| {
      return None;
    }
    var e := s;
    while e < |path| && path[e] != '/'
      invariant s <= e <= |path| && forall k :: s <= k < e ==> path[k] != '/'
    {
      e := e + 1;
    }
    ElementAt(path, s, e);
    var name := if e - s >= DIRSIZ then path[s..s + DIRSIZ] else path[s..e];
    var next := SkipSlashes(path, e);
    if next < |path| {
      MoreElements(path, next);
    }
    return Some((name, next));
  }

  lemma NoElements(path: string)
    ensures Elements(path[|path|..]) == []
  {
  }

  lemma MoreElements(path: string, i: nat)
    requires i < |path| && path[i] != '/'
    ensures Elements(path[i..]) != []
  {
  }

  lemma ElementAt(path: string, s: nat, e: nat)
    requires s < e <= |path| && (e < |path| ==> path[e] == '/') && forall k :: s <= k < e ==> path[k] != '/'
    ensures var name := if e - s >= DIRSIZ then path[s..s + DIRSIZ] else path[s..e];
      Elements(path[s..]) == [name] + Elements(path[e..])
  {
    var p := path[s..];
    LengthIs(p, e - s);
    assert p[..e - s] == path[s..e] && p[e - s..] == path[e..];
    assert e - s >= DIRSIZ ==> path[s..e][..DIRSIZ] == path[s..s + DIRSIZ];
  }

  method SkipSlashes(path: string, i: nat) returns (j: nat)
    requires i <= |path|
    ensures i <= j <= |path| && (j < |path| ==> path[j] != '/') && Elements(path[i..]) == Elements(path[j..])
  {
    j := i;
    while j < |path| && path[j] == '/'
      invariant i <= j <= |path| && Elements(path[i..]) == Elements(path[j..])
    {
      assert path[j..][1..] == path[j + 1..];
      j := j + 1;
    }
  }

  /** Resolution one element at a time, the way namex goes about it. */
  function Follow(t: Tree, i: nat, names: seq<string>, parent: bool): Option<nat>
    decreases names
  {
    if names == [] then (if parent then None else Some(i))
    else if i !in t || t[i].typ != T_DIR then None
    else if parent && |names| == 1 then Some(i)
    else
      match Find(t[i].dirents, names[0])
      case None => None
      case Some(j) => Follow(t, j, names[1..], parent)
  }

  lemma {:induction false} FollowIsWalk(t: Tree, i: nat, names: seq<string>)
    ensures Follow(t, i, names, false) == Walk(t, i, names)
    decreases names
  {
    if names != [] && i in t && Find(t[i].dirents, names[0]).Some? {
      FollowIsWalk(t, Find(t[i].dirents, names[0]).value, names[1..]);
    }
  }

  lemma {:induction false} FollowIsParent(t: Tree, i: nat, names: seq<string>)
    requires names != []
    ensures Follow(t, i, names, true) ==
      match Walk(t, i, names[..|names| - 1])
      case None => None
      case Some(d) => if d in t && t[d].typ == T_DIR then Some(d) else None
    decreases names
  {
    if |names| > 1 && i in t && Find(t[i].dirents, names[0]).Some? {
      FollowIsParent(t, Find(t[i].dirents, names[0]).value, names[1..]);
      assert names[1..][..|names| - 2] == names[..|names| - 1][1..];
    }
  }

  lemma FollowResolves(t: Tree, start: nat, path: string, parent: bool)
    ensures Follow(t, start, Elements(path), parent) == Resolve(t, start, path, parent)
  {
    if parent && Elements(path) != [] {
      FollowIsParent(t, start, Elements(path));
    } else if !parent {
      FollowIsWalk(t, start, Elements(path));
    }
  }
}

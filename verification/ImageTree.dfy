/** The image mkfs builds, looked at through the kernel's path walk (mkfs/mkfs.c, kernel/fs.c): the directory tree its
    bytes hold, and where paths lead in it. */
module ImageTree {
  import opened Ints
  import opened Mkfs
  import opened Options
  import Path

  // ---- directories as the kernel reads them ----

  /** A name ends at its first zero byte, or with the field. */
  function NameOf(bs: seq<Byte>): string {
    if bs == [] || bs[0] == 0 then "" else [bs[0] as char] + NameOf(bs[1..])
  }

  function EntryOf(de: seq<Byte>): Path.Dirent
    requires |de| == ENTRY
  {
    Path.Dirent(de[0] + 0x100 * (de[1] as int), NameOf(de[2..]))
  }

  function EntriesOf(bytes: seq<Byte>): seq<Path.Dirent> {
    if |bytes| < ENTRY then [] else [EntryOf(bytes[..ENTRY])] + EntriesOf(bytes[ENTRY..])
  }

  /** The directories of an image that holds nothing else. */
  ghost function TreeOf(files: Files): Path.Tree {
    map i | i in files :: Path.Dinode(Path.T_DIR, 1, EntriesOf(files[i]))
  }

  predicate Plain(name: string) { forall k :: 0 <= k < |name| ==> 0 < name[k] as int < 0x80 }

  lemma {:induction false} NameBack(name: string, bs: seq<Byte>)
    requires Plain(name) && |name| <= |bs| && (forall k :: 0 <= k < |name| ==> bs[k] == name[k] as int)
    requires |name| < |bs| ==> bs[|name|] == 0
    ensures NameOf(bs) == name
    decreases |name|
  {
    if name != "" {
      NameBack(name[1..], bs[1..]);
    }
  }

  /** An entry reads back as it was written. */
  lemma DirentRead(inum: nat, name: string)
    requires inum < 0x1_0000 && |name| <= 14 && Plain(name)
    ensures EntryOf(Dirent(inum, name)) == Path.Dirent(inum, name)
  {
    NameBack(name, Dirent(inum, name)[2..]);
  }

  lemma {:induction false} EntriesMore(a: seq<Byte>, b: seq<Byte>)
    requires |a| % ENTRY == 0
    ensures EntriesOf(a + b) == EntriesOf(a) + EntriesOf(b)
    decreases |a|
  {
    if a == [] {
      assert a + b == b;
    } else {
      assert (a + b)[..ENTRY] == a[..ENTRY] && (a + b)[ENTRY..] == a[ENTRY..] + b;
      EntriesMore(a[ENTRY..], b);
    }
  }

  lemma OneEntry(inum: nat, name: string)
    requires inum < 0x1_0000 && |name| <= 14 && Plain(name)
    ensures EntriesOf(Dirent(inum, name)) == [Path.Dirent(inum, name)]
  {
    hide Dirent, EntryOf;
    var de := Dirent(inum, name);
    DirentRead(inum, name);
    assert de[..ENTRY] == de && de[ENTRY..] == [];
  }

  lemma {:induction false} NoEntries(bytes: seq<Byte>, k: nat)
    requires (forall j :: 0 <= j < |bytes| ==> bytes[j] == 0) && k < |EntriesOf(bytes)|
    ensures EntriesOf(bytes)[k].inum == 0
    decreases |bytes|
  {
    if k > 0 {
      NoEntries(bytes[ENTRY..], k - 1);
    }
  }

  // ---- the directories main makes ----

  /** What the first k calls of adddir enter in directory i. */
  function Children(k: nat, i: nat): seq<Path.Dirent>
    requires k <= DIRS
  {
    if k == 0 then [] else
      Children(k - 1, i) + if Parent(k - 1) == i then [Path.Dirent(k + 1, Name(k - 1))] else []
  }

  function Up(i: nat): nat
    requires ROOT <= i < DIRS + 2
  {
    if i == ROOT then ROOT else Parent(i - 2)
  }

  lemma PlainNames(k: nat)
    requires k < DIRS
    ensures Plain(Name(k)) && Path.IsName(Name(k)) && |Name(k)| <= 14 && Name(k)[0] != '.'
  {
  }

  ghost predicate Lists(bytes: seq<Byte>, i: nat, k: nat)
    requires ROOT <= i < DIRS + 2 && k <= DIRS
  {
    |bytes| % ENTRY == 0 && EntriesOf(bytes) == [Path.Dirent(i, "."), Path.Dirent(Up(i), "..")] + Children(k, i)
  }

  lemma Begun(i: nat, k: nat)
    requires ROOT <= i < DIRS + 2 && k <= DIRS && Children(k, i) == []
    ensures Lists(Dirent(i, ".") + Dirent(Up(i), ".."), i, k)
  {
    hide Dirent;
    EntriesMore(Dirent(i, "."), Dirent(Up(i), ".."));
    OneEntry(i, ".");
    OneEntry(Up(i), "..");
  }

  lemma {:induction false} NoneYet(k: nat, i: nat)
    requires k <= DIRS && k + 1 < i
    ensures Children(k, i) == []
  {
    hide Name;
    if k > 0 {
      NoneYet(k - 1, i);
    }
  }

  /** Every directory holds itself, its parent and its children, in the order they were made. */
  lemma {:induction false} Listed(k: nat, i: nat)
    requires k <= DIRS && ROOT <= i < k + 2
    ensures i in Planting(k) && Lists(Planting(k)[i], i, k)
  {
    hide Dirent, Name, Parent, EntriesOf, Planting;
    if k == 0 {
      PlantingStart();
      Begun(i, 0);
    } else {
      var par, inum := Parent(k - 1), k + 1;
      Listed(k - 1, par);
      PlantingStep(k);
      if i == inum {
        NoneYet(k - 1, i);
        Begun(i, k);
      } else {
        Listed(k - 1, i);
        if i == par {
          var was := Planting(k - 1)[i];
          PlainNames(k - 1);
          EntriesMore(was, Dirent(inum, Name(k - 1)));
          OneEntry(inum, Name(k - 1));
        }
      }
    }
  }

  // ---- where names lead ----

  lemma {:induction false} FindMore(a: seq<Path.Dirent>, b: seq<Path.Dirent>, name: string)
    ensures Path.Find(a + b, name) == if Path.Find(a, name).Some? then Path.Find(a, name) else Path.Find(b, name)
    decreases |a|
  {
    if a == [] {
      assert a + b == b;
    } else {
      assert (a + b)[1..] == a[1..] + b;
      FindMore(a[1..], b, name);
    }
  }

  lemma {:induction false} FindUnused(ds: seq<Path.Dirent>, name: string)
    requires forall k :: 0 <= k < |ds| ==> ds[k].inum == 0
    ensures Path.Find(ds, name) == None
    decreases |ds|
  {
    if ds != [] {
      FindUnused(ds[1..], name);
    }
  }

  lemma DistinctNames(j: nat, k: nat)
    requires j < k < DIRS && Parent(j) == Parent(k)
    ensures Name(j) != Name(k)
  {
    assert |Name(j)| != |Name(k)| || Name(j)[0] != Name(k)[0];
  }

  lemma {:induction false} NotAmong(m: nat, i: nat, name: string)
    requires m <= DIRS && forall j :: 0 <= j < m && Parent(j) == i ==> Name(j) != name
    ensures Path.Find(Children(m, i), name) == None
  {
    hide Name, Parent;
    if m > 0 {
      NotAmong(m - 1, i, name);
      FindMore(Children(m - 1, i), if Parent(m - 1) == i then [Path.Dirent(m + 1, Name(m - 1))] else [], name);
    }
  }

  lemma {:induction false} FoundChild(m: nat, k: nat)
    requires k < m <= DIRS
    ensures Path.Find(Children(m, Parent(k)), Name(k)) == Some(k + 2)
    decreases m
  {
    hide Name, Parent;
    var i := Parent(k);
    if m == k + 1 {
      forall j | 0 <= j < k && Parent(j) == i ensures Name(j) != Name(k) {
        DistinctNames(j, k);
      }
      NotAmong(k, i, Name(k));
    } else {
      FoundChild(m - 1, k);
    }
    FindMore(Children(m - 1, i), if Parent(m - 1) == i then [Path.Dirent(m + 1, Name(m - 1))] else [], Name(k));
  }

  /** The files of the finished image. */
  ghost function ImageFiles(): Files {
    Planting(DIRS)[ROOT := (if ROOT in Planting(DIRS) then Planting(DIRS)[ROOT] else []) + Padding(9 * ENTRY)]
  }

  predicate IsChild(i: nat, name: string, j: nat) {
    2 <= j < DIRS + 2 && Parent(j - 2) == i && Name(j - 2) == name
  }

  /** What a directory of the image has under each name. */
  predicate Has(i: nat, name: string, j: nat)
    requires ROOT <= i < DIRS + 2
  {
    (name == "." && j == i) || (name == ".." && j == Up(i)) || IsChild(i, name, j)
  }

  lemma FindChild(i: nat, name: string, j: nat)
    ensures Path.Find(Children(DIRS, i), name) == Some(j) <==> IsChild(i, name, j)
  {
    hide Name, Parent, Children;
    if k :| 0 <= k < DIRS && Parent(k) == i && Name(k) == name {
      FoundChild(DIRS, k);
      if IsChild(i, name, j) {
        FoundChild(DIRS, j - 2);
      }
    } else {
      NotAmong(DIRS, i, name);
    }
  }

  lemma FindTwo(i: nat, up: nat, name: string)
    requires i > 0 && up > 0
    ensures Path.Find([Path.Dirent(i, "."), Path.Dirent(up, "..")], name) ==
      if name == "." then Some(i) else if name == ".." then Some(up) else None
  {
    var one := [Path.Dirent(up, "..")];
    assert [Path.Dirent(i, "."), Path.Dirent(up, "..")][1..] == one && one[1..] == [];
    assert Path.Find(one, name) == if name == ".." then Some(up) else None;
    assert "." != "..";
  }

  lemma FindListed(i: nat, name: string, zeros: seq<Path.Dirent>, j: nat)
    requires ROOT <= i < DIRS + 2 && forall k :: 0 <= k < |zeros| ==> zeros[k].inum == 0
    ensures
      var ds := [Path.Dirent(i, "."), Path.Dirent(Up(i), "..")] + Children(DIRS, i) + zeros;
      Path.Find(ds, name) == Some(j) <==> Has(i, name, j)
  {
    hide Children, Name, Parent;
    var two := [Path.Dirent(i, "."), Path.Dirent(Up(i), "..")];
    FindMore(two + Children(DIRS, i), zeros, name);
    FindMore(two, Children(DIRS, i), name);
    FindUnused(zeros, name);
    FindChild(i, name, j);
    FindTwo(i, Up(i), name);
    if j >= 2 && j - 2 < DIRS {
      PlainNames(j - 2);
    }
  }

  /** The tree of the finished image is exactly the one main builds: every name in every directory leads where it
      should, and no other name leads anywhere. */
  lemma ImageHops(i: nat, name: string, j: nat)
    ensures Path.Hop(TreeOf(ImageFiles()), i, name, j) <==> ROOT <= i < DIRS + 2 && Has(i, name, j)
  {
    hide Planting, EntriesOf, Children, Path.Find, Path.Hop, Has, Padding;
    Path.HopIs(TreeOf(ImageFiles()), i, name, j);
    PlantingSizes(DIRS);
    if ROOT <= i < DIRS + 2 {
      Listed(DIRS, i);
      var was := Planting(DIRS)[i];
      if i == ROOT {
        var pad := Padding(9 * ENTRY);
        EntriesMore(was, pad);
        forall k | 0 <= k < |EntriesOf(pad)| ensures EntriesOf(pad)[k].inum == 0 {
          PaddingIsZero(9 * ENTRY);
          NoEntries(pad, k);
        }
        FindListed(i, name, EntriesOf(pad), j);
      } else {
        FindListed(i, name, [], j);
        assert EntriesOf(was) + [] == EntriesOf(was);
      }
    }
  }

  lemma PaddingIsZero(n: nat)
    ensures forall k :: 0 <= k < |Padding(n)| ==> Padding(n)[k] == 0
  {
  }

  // ---- where paths lead ----

  /** The names from the root to the k-th directory. */
  function Route(k: nat): seq<string>
    requires k < DIRS
  {
    if Parent(k) == ROOT then [Name(k)] else Route(Parent(k) - 2) + [Name(k)]
  }

  lemma {:induction false} LeadsMore(t: Path.Tree, i: nat, names: seq<string>, m: nat, name: string, j: nat)
    requires Path.Leads(t, i, names, m) && Path.Hop(t, m, name, j)
    ensures Path.Leads(t, i, names + [name], j)
  {
    hide Path.Hop;
    var chain :| Path.Chain(t, names, chain) && chain[0] == i && chain[|names|] == m;
    assert Path.Chain(t, names + [name], chain + [j]);
  }

  lemma {:induction false} RouteLeads(k: nat)
    requires k < DIRS
    ensures Path.Leads(TreeOf(ImageFiles()), ROOT, Route(k), k + 2)
    ensures forall n :: 0 <= n < |Route(k)| ==> Path.IsName(Route(k)[n]) && |Route(k)[n]| <= 14
    decreases k
  {
    hide Name, Parent, Path.Hop, ImageFiles;
    var t := TreeOf(ImageFiles());
    PlainNames(k);
    ImageHops(Parent(k), Name(k), k + 2);
    if Parent(k) == ROOT {
      assert Path.Chain(t, [], [ROOT]);
      LeadsMore(t, ROOT, [], ROOT, Name(k), k + 2);
      assert [] + [Name(k)] == [Name(k)];
    } else {
      RouteLeads(Parent(k) - 2);
      LeadsMore(t, ROOT, Route(Parent(k) - 2), Parent(k), Name(k), k + 2);
    }
  }

  lemma RouteUp(k: nat)
    requires k < DIRS
    ensures var t, names := TreeOf(ImageFiles()), Route(k);
      && names != [] && Path.Leads(t, ROOT, names[..|names| - 1], Parent(k))
      && Parent(k) in t && t[Parent(k)].typ == Path.T_DIR
  {
    hide Name, Parent, ImageFiles;
    ImageHops(Parent(k), Name(k), k + 2);
    if Parent(k) == ROOT {
      assert Path.Chain(TreeOf(ImageFiles()), [], [ROOT]);
      assert Route(k)[..0] == [];
    } else {
      RouteLeads(Parent(k) - 2);
      assert Route(k)[..|Route(k)| - 1] == Route(Parent(k) - 2);
    }
  }

  /** On the finished image the path to a directory, with any slashes round its names, names the directory for namei and
      its parent for nameiparent. */
  lemma ImagePath(k: nat, gaps: seq<nat>)
    requires k < DIRS && Path.Apart(Route(k), gaps)
    ensures var path := Path.Written(Route(k), gaps);
      && Path.Names(TreeOf(ImageFiles()), ROOT, path, false, k + 2)
      && Path.Names(TreeOf(ImageFiles()), ROOT, path, true, Parent(k))
  {
    hide Path.Leads, Route, ImageFiles, Path.Elements;
    RouteLeads(k);
    RouteUp(k);
    Path.ElementsOfWritten(Route(k), gaps);
    assert Path.Elements(Path.Written(Route(k), gaps)) == Route(k);
  }
}

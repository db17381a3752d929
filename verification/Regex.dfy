/** The regular expression matcher of grep (userspace/grep.c) against what a pattern means and how it is written. */
module Regex {
  /** A pattern is a list of items, each one character or any number of them; '.' stands for any character. */
  datatype Item = One(c: char) | Star(c: char)

  datatype Pattern = Pattern(items: seq<Item>, end: bool)

  // ---- how a pattern is written ----

  /** A starred character is followed by *, the anchor is a final $, anything else stands for itself. */
  function Write(p: Pattern): string
    decreases |p.items|
  {
    if p.items == [] then (if p.end then "$" else "")
    else
      (match p.items[0] case One(c) => [c] case Star(c) => [c, '*']) + Write(Pattern(p.items[1..], p.end))
  }

  /** No item would be read as something else: a single character before a *, or a last $ that is no anchor. */
  predicate Clear(p: Pattern) {
    && (forall k :: 0 <= k < |p.items| - 1 && p.items[k].One? ==> p.items[k + 1].c != '*')
    && (p.items != [] && !p.end ==> p.items[|p.items| - 1] != One('$'))
  }

  function Read(re: string): Pattern {
    if re == "" then Pattern([], false)
    else if |re| > 1 && re[1] == '*' then
      var p := Read(re[2..]);
      Pattern([Star(re[0])] + p.items, p.end)
    else if re == "$" then Pattern([], true)
    else
      var p := Read(re[1..]);
      Pattern([One(re[0])] + p.items, p.end)
  }

  lemma WriteMore(it: Item, p: Pattern)
    ensures Write(Pattern([it] + p.items, p.end)) == (if it.One? then [it.c] else [it.c, '*']) + Write(p)
  {
    assert ([it] + p.items)[1..] == p.items;
  }

  /** Every string is the written form of what is read from it, and nothing in it is read otherwise. */
  lemma {:induction false} WriteRead(re: string)
    ensures Write(Read(re)) == re && Clear(Read(re))
  {
    if |re| > 1 && re[1] == '*' {
      WriteRead(re[2..]);
      WriteMore(Star(re[0]), Read(re[2..]));
      ClearMore(Star(re[0]), Read(re[2..]));
    } else if re != "" && re != "$" {
      WriteRead(re[1..]);
      WriteMore(One(re[0]), Read(re[1..]));
      ClearMore(One(re[0]), Read(re[1..]));
    }
  }

  lemma ClearMore(it: Item, p: Pattern)
    requires Clear(p) && (it.One? ==> p.items == [] || p.items[0].c != '*') &&
      (it == One('$') ==> p.items != [] || p.end)
    ensures Clear(Pattern([it] + p.items, p.end))
  {
  }

  lemma ClearLess(p: Pattern)
    requires Clear(p) && p.items != []
    ensures Clear(Pattern(p.items[1..], p.end))
  {
  }

  lemma {:induction false} ReadClear(p: Pattern)
    requires Clear(p)
    ensures Read(Write(p)) == p
    decreases |p.items|
  {
    if p.items != [] {
      var rest := Pattern(p.items[1..], p.end);
      ClearLess(p);
      ReadClear(rest);
      assert p.items == [p.items[0]] + rest.items;
      assert p.items[0].One? && rest.items != [] ==> Write(rest)[0] == rest.items[0].c != '*';
      if p.items[0].Star? {
        assert Write(p)[2..] == Write(rest);
      } else {
        assert Write(p)[1..] == Write(rest);
      }
    }
  }

  /** A pattern is read back from its written form exactly when no item is read as something else. */
  lemma ReadWrite(p: Pattern)
    ensures Read(Write(p)) == p <==> Clear(p)
  {
    WriteRead(Write(p));
    if Clear(p) {
      ReadClear(p);
    }
  }

  // ---- what a pattern means ----

  /** The characters of text from a to b are all c, or any at all when c is a dot. */
  predicate Run(c: char, text: string, a: nat, b: nat) {
    a <= b <= |text| && forall k :: a <= k < b ==> c == '.' || text[k] == c
  }

  /** The stretches of text the items stand for, one after another from position a. */
  ghost predicate Cuts(p: Pattern, text: string, a: nat, cuts: seq<nat>) {
    && |cuts| == |p.items| + 1 && cuts[0] == a && cuts[|p.items|] <= |text| && (p.end ==> cuts[|p.items|] == |text|)
    && (forall j :: 0 <= j < |p.items| ==> Run(p.items[j].c, text, cuts[j], cuts[j + 1]))
    && (forall j :: 0 <= j < |p.items| && p.items[j].One? ==> cuts[j + 1] == cuts[j] + 1)
  }

  /** The pattern fits at position a. */
  ghost predicate Begins(p: Pattern, text: string, a: nat) { exists cuts :: Cuts(p, text, a, cuts) }

  lemma NoItems(p: Pattern, text: string, a: nat)
    requires p.items == [] && a <= |text|
    ensures Begins(p, text, a) <==> (p.end ==> a == |text|)
  {
    if p.end ==> a == |text| {
      assert Cuts(p, text, a, [a]);
    }
  }

  /** The first item takes a stretch and the others go on from its end. */
  lemma CutsMore(p: Pattern, it: Item, rest: Pattern, text: string, a: nat, cuts: seq<nat>)
    requires p.items == [it] + rest.items && p.end == rest.end && cuts != []
    ensures Cuts(p, text, a, [a] + cuts) <==>
      Run(it.c, text, a, cuts[0]) && (it.One? ==> cuts[0] == a + 1) && Cuts(rest, text, cuts[0], cuts)
  {
    hide Run;
    var more := [a] + cuts;
    if Cuts(p, text, a, more) {
      assert Run(p.items[0].c, text, more[0], more[1]);
      forall j | 0 <= j < |rest.items|
        ensures Run(rest.items[j].c, text, cuts[j], cuts[j + 1]) && (rest.items[j].One? ==> cuts[j + 1] == cuts[j] + 1)
      {
        assert p.items[j + 1] == rest.items[j] && more[j + 1] == cuts[j] && more[j + 2] == cuts[j + 1];
      }
    }
  }

  lemma FirstItem(p: Pattern, it: Item, rest: Pattern, text: string, a: nat)
    requires p.items == [it] + rest.items && p.end == rest.end
    ensures Begins(p, text, a) <==>
      exists b :: Run(it.c, text, a, b) && (it.One? ==> b == a + 1) && Begins(rest, text, b)
  {
    hide Run, Cuts;
    if Begins(p, text, a) {
      var cuts :| Cuts(p, text, a, cuts);
      CutsSize(p, text, a, cuts);
      assert cuts == [a] + cuts[1..];
      CutsMore(p, it, rest, text, a, cuts[1..]);
    }
    if b :| Run(it.c, text, a, b) && (it.One? ==> b == a + 1) && Begins(rest, text, b) {
      var cuts :| Cuts(rest, text, b, cuts);
      CutsSize(rest, text, b, cuts);
      CutsMore(p, it, rest, text, a, cuts);
    }
  }

  lemma CutsSize(p: Pattern, text: string, a: nat, cuts: seq<nat>)
    requires Cuts(p, text, a, cuts)
    ensures |cuts| == |p.items| + 1 && cuts[0] == a
  {
  }

  // ---- the matcher ----

  /** matchhere: does the pattern fit at position i of text? */
  method Matchhere(re: string, text: string, i: nat) returns (b: bool)
    requires i <= |text|
    ensures b <==> Begins(Read(re), text, i)
    ensures forall p :: Clear(p) && Write(p) == re ==> (b <==> exists cuts :: Cuts(p, text, i, cuts))
    decreases |re|, |text| - i, 0
  {
    hide Begins;
    OnlyRead(re, text, i);
    if re == "" {
      NoItems(Read(re), text, i);
      return true;
    }
    if |re| > 1 && re[1] == '*' {
      FirstItem(Read(re), Star(re[0]), Read(re[2..]), text, i);
      b := Matchstar(re[0], re[2..], text, i);
      return;
    }
    if re == "$" {
      NoItems(Read(re), text, i);
      return i == |text|;
    }
    FirstItem(Read(re), One(re[0]), Read(re[1..]), text, i);
    if i < |text| && (re[0] == '.' || re[0] == text[i]) {
      assert Run(re[0], text, i, i + 1);
      b := Matchhere(re[1..], text, i + 1);
      return;
    }
    assert !Run(re[0], text, i, i + 1);
    return false;
  }

  /** Only what is read from re is written re. */
  lemma OnlyRead(re: string, text: string, i: nat)
    ensures forall p :: Clear(p) && Write(p) == re ==> p == Read(re)
    ensures Begins(Read(re), text, i) <==> exists cuts :: Cuts(Read(re), text, i, cuts)
  {
    hide Write, Clear, Read, Cuts;
    forall p | Clear(p) && Write(p) == re ensures p == Read(re) {
      ReadWrite(p);
    }
  }

  /** matchstar: is there a run of c, perhaps empty, with the pattern after it? */
  method Matchstar(c: char, re: string, text: string, i: nat) returns (b: bool)
    requires i <= |text|
    ensures b <==> exists n :: Run(c, text, i, n) && Begins(Read(re), text, n)
    decreases |re| + 1, |text| - i, 1
  {
    hide Begins;
    var j := i;
    while true
      invariant i <= j <= |text| && Run(c, text, i, j)
      invariant forall n :: i <= n < j ==> !Begins(Read(re), text, n)
      decreases |text| - j
    {
      b := Matchhere(re, text, j);
      if b {
        return;
      }
      if j == |text| || !(text[j] == c || c == '.') {
        assert forall n: nat :: Run(c, text, i, n) ==> n <= j;
        return;
      }
      j := j + 1;
    }
  }

  /** match: ^ anchors the start, otherwise any position will do. */
  method Match(re: string, text: string) returns (b: bool)
    ensures re != "" && re[0] == '^' ==>
      forall p :: Clear(p) && Write(p) == re[1..] ==> (b <==> exists cuts :: Cuts(p, text, 0, cuts))
    ensures !(re != "" && re[0] == '^') ==>
      forall p :: Clear(p) && Write(p) == re ==> (b <==> exists i, cuts :: Cuts(p, text, i, cuts))
  {
    hide Begins, Clear, Cuts, Read;
    if re != "" && re[0] == '^' {
      b := Matchhere(re[1..], text, 0);
      return;
    }
    var i := 0;
    while true
      invariant i <= |text| && forall n :: 0 <= n < i ==> !Begins(Read(re), text, n)
      decreases |text| - i
    {
      b := Matchhere(re, text, i);
      if b || i == |text| {
        assert b <==> exists n: nat :: n <= |text| && Begins(Read(re), text, n);
        Anywhere(re, text);
        return;
      }
      i := i + 1;
    }
  }

  lemma Anywhere(re: string, text: string)
    ensures forall p :: Clear(p) && Write(p) == re ==>
      ((exists i: nat :: i <= |text| && Begins(Read(re), text, i)) <==> exists i, cuts :: Cuts(p, text, i, cuts))
  {
    hide Clear, Read;
    OnlyRead(re, text, 0);
    forall p | Clear(p) && Write(p) == re
      ensures (exists i: nat :: i <= |text| && Begins(Read(re), text, i)) <==> exists i, cuts :: Cuts(p, text, i, cuts)
    {
      if i, cuts :| Cuts(p, text, i, cuts) {
        CutsInside(p, text, i, cuts);
        assert Begins(p, text, i);
      }
    }
  }

  /** A pattern that fits, fits inside the text. */
  lemma {:induction false} CutsInside(p: Pattern, text: string, a: nat, cuts: seq<nat>)
    requires Cuts(p, text, a, cuts)
    ensures a <= |text|
  {
    if p.items != [] {
      assert Run(p.items[0].c, text, cuts[0], cuts[1]);
    }
  }
}

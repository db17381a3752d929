/** Command lines as they are typed (userspace/sh.c): the written form of a line, its meaning as a tree, and the proof
    that the shell's parser accepts exactly the lines so written and gives each its meaning. */
module ShellLines {
  import opened ShellSyntax

  /** A word of a command, or a redirection `<`, `>` or `>>` with its file. */
  datatype Part = Arg(word: string) | Red(op: string, file: string)

  /** Words and redirections in any order, or a line in parentheses followed by redirections. */
  datatype Command = Simple(parts: seq<Part>) | Block(line: Line, redirs: seq<Part>)

  datatype Pipeline = Last(cmd: Command) | Piped(cmd: Command, rest: Pipeline)

  /** A pipeline, any number of `&`, and perhaps `;` and another line. */
  datatype Line = Line(pipe: Pipeline, amps: nat, more: More)

  datatype More = NoMore | Then(line: Line)

  predicate GoodPart(p: Part) {
    match p
    case Arg(w) => IsWord(w)
    case Red(op, f) => op in {"<", ">", ">>"} && IsWord(f)
  }

  predicate GoodParts(ps: seq<Part>) { forall k :: 0 <= k < |ps| ==> GoodPart(ps[k]) }

  predicate AllRed(ps: seq<Part>) { forall k :: 0 <= k < |ps| ==> ps[k].Red? }

  /** The words among the parts, in order. */
  function Words(ps: seq<Part>): seq<string> {
    if ps == [] then [] else (if ps[0].Arg? then [ps[0].word] else []) + Words(ps[1..])
  }

  /** At most nine words to a command. */
  predicate GoodCommand(c: Command) {
    match c
    case Simple(ps) => GoodParts(ps) && |Words(ps)| <= 9
    case Block(l, rs) => GoodLine(l) && GoodParts(rs) && AllRed(rs)
  }

  predicate GoodPipeline(p: Pipeline) {
    GoodCommand(p.cmd) && (p.Piped? ==> GoodPipeline(p.rest))
  }

  predicate GoodLine(l: Line) {
    GoodPipeline(l.pipe) && (l.more.Then? ==> GoodLine(l.more.line))
  }

  // ---- what a line is written with: its tokens ----

  function PartToks(p: Part): seq<string> {
    match p
    case Arg(w) => [w]
    case Red(op, f) => [op, f]
  }

  function PartsToks(ps: seq<Part>): seq<string> {
    if ps == [] then [] else PartToks(ps[0]) + PartsToks(ps[1..])
  }

  function CommandToks(c: Command): seq<string> {
    match c
    case Simple(ps) => PartsToks(ps)
    case Block(l, rs) => ["("] + (LineToks(l) + ([")"] + PartsToks(rs)))
  }

  function PipelineToks(p: Pipeline): seq<string> {
    match p
    case Last(c) => CommandToks(c)
    case Piped(c, q) => CommandToks(c) + (["|"] + PipelineToks(q))
  }

  function Amps(n: nat): seq<string> {
    if n == 0 then [] else ["&"] + Amps(n - 1)
  }

  function MoreToks(m: More): seq<string> {
    match m
    case NoMore => []
    case Then(l) => [";"] + LineToks(l)
  }

  function LineToks(l: Line): seq<string> {
    PipelineToks(l.pipe) + (Amps(l.amps) + MoreToks(l.more))
  }

  // ---- what a line means ----

  /** The redirections wrapped round a command, the first of them innermost. */
  function Wrap(c: Cmd<string>, ps: seq<Part>): Cmd<string> {
    if ps == [] then c
    else
      var d, p := Wrap(c, ps[..|ps| - 1]), ps[|ps| - 1];
      if p.Red? then Redir(d, p.file, p.op != "<") else d
  }

  function CommandMeaning(c: Command): Cmd<string> {
    match c
    case Simple(ps) => Wrap(Exec(Words(ps)), ps)
    case Block(l, rs) => Wrap(LineMeaning(l), rs)
  }

  function PipelineMeaning(p: Pipeline): Cmd<string> {
    match p
    case Last(c) => CommandMeaning(c)
    case Piped(c, q) => Pipe(CommandMeaning(c), PipelineMeaning(q))
  }

  function Backed(c: Cmd<string>, n: nat): Cmd<string>
    decreases n
  {
    if n == 0 then c else Backed(Back(c), n - 1)
  }

  function LineMeaning(l: Line): Cmd<string> {
    var c := Backed(PipelineMeaning(l.pipe), l.amps);
    match l.more
    case NoMore => c
    case Then(m) => List(c, LineMeaning(m))
  }

  // ---- tokens and the white space between them ----

  predicate IsTok(t: string) { IsWord(t) || t == ">>" || (|t| == 1 && t[0] in SYMBOLS) }

  predicate Blank(g: string) { forall k :: 0 <= k < |g| ==> g[k] in WHITE }

  /** Two tokens that would run into one another if nothing stood between them. */
  predicate Sticks(t: string, u: string) { (IsWord(t) && IsWord(u)) || (t == ">" && u != "" && u[0] == '>') }

  /** White space before, between and after the tokens, and some wherever it is needed to keep two apart. */
  predicate Spaced(toks: seq<string>, gaps: seq<string>) {
    && |gaps| == |toks| + 1
    && (forall k :: 0 <= k < |gaps| ==> Blank(gaps[k]))
    && (forall k :: 0 < k < |toks| && Sticks(toks[k - 1], toks[k]) ==> gaps[k] != "")
  }

  function Spell(toks: seq<string>, gaps: seq<string>): string
    requires |gaps| == |toks| + 1
  {
    if toks == [] then gaps[0] else gaps[0] + (toks[0] + Spell(toks[1..], gaps[1..]))
  }

  function KindOf(t: string): Kind {
    if t == ">>" then Append else if |t| == 1 && Symbol(t[0]) then Sym(t[0]) else Word
  }

  /** The tokens the scanner finds from i on, up to j. */
  ghost predicate Lexes(s: string, i: nat, toks: seq<string>, j: nat)
    requires i <= |s|
    decreases |toks|
  {
    if toks == [] then j == Skip(s, i)
    else
      && IsTok(toks[0]) && Token(s, i).0 == KindOf(toks[0]) && TextOf(s, Token(s, i).1) == toks[0]
      && Lexes(s, Token(s, i).2, toks[1..], j)
  }

  lemma SkipTwice(s: string, i: nat)
    requires i <= |s|
    ensures Skip(s, Skip(s, i)) == Skip(s, i) && Token(s, Skip(s, i)) == Token(s, i)
    ensures Skip(s, Token(s, i).2) == Token(s, i).2
  {
  }

  lemma LexSkip(s: string, i: nat, toks: seq<string>, j: nat)
    requires i <= |s|
    ensures Lexes(s, i, toks, j) == Lexes(s, Skip(s, i), toks, j)
  {
    hide Skip, Token;
    SkipTwice(s, i);
  }

  lemma {:induction false} LexEnd(s: string, i: nat, toks: seq<string>, j: nat)
    requires i <= |s| && Lexes(s, i, toks, j)
    ensures i <= j <= |s| && Skip(s, j) == j
    decreases |toks|
  {
    hide Skip, Token, IsTok, TextOf;
    SkipTwice(s, i);
    if toks != [] {
      LexEnd(s, Token(s, i).2, toks[1..], j);
    }
  }

  lemma {:induction false} LexSplit(s: string, i: nat, a: seq<string>, b: seq<string>, j: nat) returns (m: nat)
    requires i <= |s| && Lexes(s, i, a + b, j)
    ensures m <= |s| && Lexes(s, i, a, m) && Lexes(s, m, b, j)
    decreases |a|
  {
    hide Skip, Token, IsTok, TextOf;
    if a == [] {
      assert a + b == b;
      LexSkip(s, i, b, j);
      m := Skip(s, i);
    } else {
      assert (a + b)[1..] == a[1..] + b;
      m := LexSplit(s, Token(s, i).2, a[1..], b, j);
    }
  }

  lemma {:induction false} LexJoin(s: string, i: nat, a: seq<string>, m: nat, b: seq<string>, j: nat)
    requires i <= |s| && m <= |s| && Lexes(s, i, a, m) && Lexes(s, m, b, j)
    ensures Lexes(s, i, a + b, j)
    decreases |a|
  {
    hide Skip, Token, IsTok, TextOf;
    if a == [] {
      assert a + b == b;
      LexSkip(s, i, b, j);
    } else {
      assert (a + b)[1..] == a[1..] + b;
      LexJoin(s, Token(s, i).2, a[1..], m, b, j);
    }
  }

  // ---- scanning what was spelled ----

  lemma SkipIs(s: string, i: nat, e: nat)
    requires i <= e <= |s| && (forall k :: i <= k < e ==> Space(s[k])) && (e < |s| ==> !Space(s[e]))
    ensures Skip(s, i) == e
  {
  }

  /** Nothing that follows position n sticks to the token t that ends there. */
  predicate Loose(s: string, t: string, n: nat) {
    n < |s| ==> (IsWord(t) ==> !Letter(s[n])) && (t == ">" ==> s[n] != '>')
  }

  /** The scanner on a token that stands at e, with nothing sticking to it. */
  lemma TokenAt(s: string, i: nat, t: string)
    requires i <= |s| && IsTok(t) && Stands(s, Skip(s, i), t)
    requires Loose(s, t, Skip(s, i) + |t|)
    ensures var e := Skip(s, i); Token(s, i) == (KindOf(t), Span(e, e + |t|), Skip(s, e + |t|))
    ensures TextOf(s, Token(s, i).1) == t
  {
    hide Skip, WordEnd;
    var e := Skip(s, i);
    StandsAt(s, e, t, 0);
    if IsWord(t) {
      assert Letter(t[0]);
      WordToken(s, e, t);
      SkipTwice(s, i);
    } else if t == ">>" {
      StandsAt(s, e, t, 1);
    }
  }

  /** The scanner returns a token and nothing sticks to it. */
  lemma TokenIs(s: string, i: nat) returns (t: string)
    requires i <= |s| && Token(s, i).0 != End
    ensures var e := Skip(s, i);
      && IsTok(t) && Stands(s, e, t) && Token(s, i) == (KindOf(t), Span(e, e + |t|), Skip(s, e + |t|))
      && TextOf(s, Span(e, e + |t|)) == t && Loose(s, t, e + |t|)
  {
    hide Skip, IsTok, Stands, Loose, KindOf, TextOf, WordEnd, IsWord;
    var e := Skip(s, i);
    if Symbol(s[e]) {
      t := SymIs(s, e);
    } else {
      t := WordIs(s, e);
    }
    StandsText(s, e, t);
  }

  lemma StandsText(s: string, e: nat, t: string)
    requires Stands(s, e, t)
    ensures TextOf(s, Span(e, e + |t|)) == t
  {
  }

  lemma SymIs(s: string, e: nat) returns (t: string)
    requires e < |s| && Symbol(s[e])
    ensures IsTok(t) && Stands(s, e, t) && Loose(s, t, e + |t|)
    ensures s[e] == '>' && e + 1 < |s| && s[e + 1] == '>' ==> |t| == 2 && KindOf(t) == Append
    ensures !(s[e] == '>' && e + 1 < |s| && s[e + 1] == '>') ==> |t| == 1 && KindOf(t) == Sym(s[e])
  {
    if s[e] == '>' && e + 1 < |s| && s[e + 1] == '>' {
      t := s[e..e + 2];
      assert t == [s[e], s[e + 1]] == ">>";
    } else {
      t := s[e..e + 1];
      assert t == [s[e]];
    }
    NoWord(t);
  }

  lemma NoWord(t: string)
    requires t != "" && Symbol(t[0])
    ensures !IsWord(t)
  {
  }

  lemma WordIs(s: string, e: nat) returns (t: string)
    requires e < |s| && Letter(s[e])
    ensures IsTok(t) && IsWord(t) && KindOf(t) == Word && e + |t| == WordEnd(s, e)
    ensures Stands(s, e, t) && Loose(s, t, e + |t|)
  {
    t := s[e..WordEnd(s, e)];
    assert t[0] == s[e];
    assert forall k :: 0 <= k < |t| ==> t[k] == s[e + k];
  }

  /** White space, a token, and what does not stick to it. */
  lemma OneSpelled(s: string, i: nat, g: string, t: string, rest: string) returns (n: nat)
    requires i <= |s| && s[i..] == g + (t + rest) && Blank(g) && IsTok(t) && t != "" && !Space(t[0])
    requires Loose(rest, t, 0)
    ensures n <= |s| && s[n..] == rest && Token(s, i).2 == Skip(s, n)
    ensures Token(s, i).0 == KindOf(t) && TextOf(s, Token(s, i).1) == t
  {
    hide Skip, Token, TextOf, Stands, IsTok, Blank, KindOf, Loose;
    assert (t + rest)[0] == t[0];
    GapSkipped(s, i, g, t + rest);
    RestStands(s, i + |g|, t, rest);
    n := i + |g| + |t|;
    LooseAt(s, n, t, rest);
    TokenAt(s, i, t);
  }

  lemma {:induction false} LexSpelled(s: string, i: nat, toks: seq<string>, gaps: seq<string>)
    requires Spaced(toks, gaps) && i <= |s| && s[i..] == Spell(toks, gaps) && AllToks(toks)
    ensures Lexes(s, i, toks, |s|)
    decreases |toks|
  {
    hide Skip, Token, IsTok, TextOf, Spaced, Blank, KindOf, Loose, Lexes, Spell, AllToks;
    SpacedHead(toks, gaps);
    SpellHead(toks, gaps);
    if toks == [] {
      GapSkipped(s, i, gaps[0], "");
      LexNone(s, i);
    } else {
      NotStuck(toks, gaps);
      var n := OneSpelled(s, i, gaps[0], toks[0], Spell(toks[1..], gaps[1..]));
      SpacedTail(toks, gaps);
      ToksTail(toks);
      LexSpelled(s, n, toks[1..], gaps[1..]);
      LexSkip(s, n, toks[1..], |s|);
      LexMore(s, i, toks, |s|);
    }
  }

  predicate AllToks(toks: seq<string>) { forall k :: 0 <= k < |toks| ==> IsTok(toks[k]) }

  lemma ToksTail(toks: seq<string>)
    requires AllToks(toks) && toks != []
    ensures AllToks(toks[1..])
  {
  }

  lemma SpellHead(toks: seq<string>, gaps: seq<string>)
    requires |gaps| == |toks| + 1
    ensures Spell(toks, gaps) == gaps[0] + if toks == [] then "" else toks[0] + Spell(toks[1..], gaps[1..])
  {
    assert gaps[0] + "" == gaps[0];
  }

  lemma LexMore(s: string, i: nat, toks: seq<string>, j: nat)
    requires i <= |s| && toks != [] && IsTok(toks[0]) && Token(s, i).0 == KindOf(toks[0])
    requires TextOf(s, Token(s, i).1) == toks[0] && Lexes(s, Token(s, i).2, toks[1..], j)
    ensures Lexes(s, i, toks, j)
  {
    hide Token, IsTok, TextOf, KindOf;
  }

  lemma SpacedHead(toks: seq<string>, gaps: seq<string>)
    requires Spaced(toks, gaps)
    ensures |gaps| == |toks| + 1 && Blank(gaps[0])
  {
  }

  lemma SpacedTail(toks: seq<string>, gaps: seq<string>)
    requires toks != [] && Spaced(toks, gaps)
    ensures Spaced(toks[1..], gaps[1..])
  {
    hide Sticks, Blank;
  }

  lemma LooseAt(s: string, n: nat, t: string, rest: string)
    requires n <= |s| && s[n..] == rest && Loose(rest, t, 0)
    ensures Loose(s, t, n)
  {
  }

  lemma GapSkipped(s: string, i: nat, g: string, rest: string)
    requires i <= |s| && s[i..] == g + rest && Blank(g) && (rest != "" ==> !Space(rest[0]))
    ensures i + |g| <= |s| && Skip(s, i) == i + |g| && s[i + |g|..] == rest
  {
    hide Skip;
    assert s[i + |g|..] == s[i..][|g|..];
    forall k | i <= k < i + |g| ensures Space(s[k]) {
      assert s[k] == s[i..][k - i] == g[k - i];
    }
    if rest != "" {
      assert s[i + |g|] == s[i..][|g|];
    }
    SkipIs(s, i, i + |g|);
  }

  lemma RestStands(s: string, e: nat, t: string, rest: string)
    requires e <= |s| && s[e..] == t + rest
    ensures e + |t| <= |s| && Stands(s, e, t) && s[e + |t|..] == rest
  {
    assert s[e..e + |t|] == s[e..][..|t|];
    assert s[e + |t|..] == s[e..][|t|..];
  }

  /** What follows the first token does not stick to it. */
  lemma NotStuck(toks: seq<string>, gaps: seq<string>)
    requires toks != [] && Spaced(toks, gaps) && AllToks(toks)
    ensures IsTok(toks[0]) && toks[0] != "" && !Space(toks[0][0])
    ensures Loose(Spell(toks[1..], gaps[1..]), toks[0], 0)
  {
    assert IsTok(toks[0]) && Blank(gaps[1]);
    if |toks| > 1 {
      assert IsTok(toks[1]) && Sticks(toks[0], toks[1]) ==> gaps[1] != "";
    }
  }

  /** Whatever was scanned to the end was spelled with its tokens. */
  lemma {:induction false} LexUnspelled(s: string, i: nat, toks: seq<string>) returns (gaps: seq<string>)
    requires i <= |s| && Lexes(s, i, toks, |s|)
    ensures Spaced(toks, gaps) && s[i..] == Spell(toks, gaps)
    decreases |toks|
  {
    hide Skip, Token, IsTok, TextOf, Stands, IsWord, Spaced, Blank, Loose, Lexes, Spell, KindOf, Sticks;
    var e := Skip(s, i);
    SkippedBlank(s, i);
    LexFirst(s, i, toks, |s|);
    if toks == [] {
      gaps := [s[i..]];
      OneGap(s[i..]);
      SpellHead(toks, gaps);
    } else {
      var t := TokenIs(s, i);
      assert t == toks[0];
      StandsRest(s, e, t);
      LexSkip(s, e + |t|, toks[1..], |s|);
      var rest := LexUnspelled(s, e + |t|, toks[1..]);
      SpacedHead(toks[1..], rest);
      gaps := [s[i..e]] + rest;
      Sticking(s, e + |t|, toks, rest);
      SpacedMore(toks, s[i..e], rest);
      assert gaps[1..] == rest;
      SpellHead(toks, gaps);
      assert s[i..] == s[i..e] + s[e..];
    }
  }

  lemma LexFirst(s: string, i: nat, toks: seq<string>, j: nat)
    requires i <= |s| && Lexes(s, i, toks, j)
    ensures toks == [] ==> j == Skip(s, i)
    ensures toks != [] ==>
      Token(s, i).0 != End && TextOf(s, Token(s, i).1) == toks[0] && Lexes(s, Token(s, i).2, toks[1..], j)
  {
    hide Skip, Token, TextOf, IsTok;
  }

  lemma SkippedBlank(s: string, i: nat)
    requires i <= |s|
    ensures Blank(s[i..Skip(s, i)])
  {
  }

  lemma OneGap(g: string)
    requires Blank(g)
    ensures Spaced([], [g])
  {
  }

  lemma StandsRest(s: string, e: nat, t: string)
    requires Stands(s, e, t)
    ensures e + |t| <= |s| && s[e..] == t + s[e + |t|..]
  {
  }

  lemma Sticking(s: string, n: nat, toks: seq<string>, gaps: seq<string>)
    requires toks != [] && n <= |s| && Loose(s, toks[0], n) && |gaps| == |toks| && s[n..] == Spell(toks[1..], gaps)
    ensures |toks| > 1 && Sticks(toks[0], toks[1]) ==> gaps[0] != ""
  {
    if |toks| > 1 && gaps[0] == "" && toks[1] != "" {
      assert s[n] == s[n..][0] == toks[1][0];
    }
  }

  lemma SpacedMore(toks: seq<string>, g: string, gaps: seq<string>)
    requires toks != [] && Blank(g) && Spaced(toks[1..], gaps) &&
      (|toks| > 1 && Sticks(toks[0], toks[1]) ==> gaps[0] != "")
    ensures Spaced(toks, [g] + gaps)
  {
    hide Sticks, Blank;
    forall k | 0 < k < |toks| && Sticks(toks[k - 1], toks[k]) ensures ([g] + gaps)[k] != "" {
      if k > 1 {
        assert toks[1..][k - 2] == toks[k - 1] && toks[1..][k - 1] == toks[k];
      }
    }
  }

  // ---- reading the parts of a command ----

  /** One part more: a word goes to the node at the core, a redirection wraps what there is. */
  function Step(c: Cmd<string>, p: Part): Cmd<string> {
    match p
    case Arg(w) => AddArg(c, w)
    case Red(op, f) => Redir(c, f, op != "<")
  }

  function Fold(c: Cmd<string>, ps: seq<Part>): Cmd<string>
    decreases |ps|
  {
    if ps == [] then c else Fold(Step(c, ps[0]), ps[1..])
  }

  /** Words end up together at the core, redirections outside in order. */
  lemma {:induction false} FoldSimple(ws: seq<string>, qs: seq<Part>, ps: seq<Part>)
    ensures Fold(Wrap(Exec(ws), qs), ps) == Wrap(Exec(ws + Words(ps)), qs + ps)
    decreases |ps|
  {
    if ps == [] {
      assert ws + Words(ps) == ws && qs + ps == qs;
    } else {
      assert qs + ps == (qs + [ps[0]]) + ps[1..];
      assert (qs + [ps[0]])[..|qs|] == qs;
      match ps[0]
      case Arg(w) =>
        AddWrapped(ws, qs, w);
        FoldSimple(ws + [w], qs + [ps[0]], ps[1..]);
        assert ws + [w] + Words(ps[1..]) == ws + Words(ps);
      case Red(_, _) =>
        FoldSimple(ws, qs + [ps[0]], ps[1..]);
        assert Words(ps[1..]) == Words(ps);
    }
  }

  lemma {:induction false} AddWrapped(ws: seq<string>, qs: seq<Part>, w: string)
    ensures AddArg(Wrap(Exec(ws), qs), w) == Wrap(Exec(ws + [w]), qs)
    decreases |qs|
  {
    if qs != [] {
      AddWrapped(ws, qs[..|qs| - 1], w);
    }
  }

  lemma {:induction false} FoldRedirs(c: Cmd<string>, qs: seq<Part>, ps: seq<Part>)
    requires AllRed(ps)
    ensures Fold(Wrap(c, qs), ps) == Wrap(c, qs + ps)
    decreases |ps|
  {
    if ps == [] {
      assert qs + ps == qs;
    } else {
      assert qs + ps == (qs + [ps[0]]) + ps[1..];
      assert (qs + [ps[0]])[..|qs|] == qs;
      FoldRedirs(c, qs + [ps[0]], ps[1..]);
    }
  }

  lemma {:induction false} FoldMore(c: Cmd<string>, ps: seq<Part>, qs: seq<Part>)
    ensures Fold(c, ps + qs) == Fold(Fold(c, ps), qs)
    decreases |ps|
  {
    if ps == [] {
      assert ps + qs == qs;
    } else {
      assert (ps + qs)[1..] == ps[1..] + qs;
      FoldMore(Step(c, ps[0]), ps[1..], qs);
    }
  }

  lemma {:induction false} TextAdd(s: string, c: Cmd<Span>, w: Span)
    ensures Text(s, AddArg(c, w)) == AddArg(Text(s, c), TextOf(s, w))
  {
    match c
    case Exec(args) => assert (args + [w])[..|args|] == args;
    case Redir(d, f, o) => TextAdd(s, d, w);
    case _ =>
  }

  /** What may come after a command: the end of the line, or one of these symbols. */
  predicate Follows(s: string, j: nat, cs: set<char>) {
    j <= |s| && Skip(s, j) == j && (j < |s| ==> s[j] in cs)
  }

  /** The character the next token starts with. */
  lemma TokenChar(s: string, i: nat, t: string)
    requires i <= |s| && IsTok(t) && Token(s, i).0 == KindOf(t) && TextOf(s, Token(s, i).1) == t
    ensures Skip(s, i) < |s| && t != "" && s[Skip(s, i)] == t[0]
    ensures t in {"<", ">", ">>"} ==> Next(s, i, {'<', '>'}) && (Token(s, i).0 == Sym('<') <==> t == "<")
    ensures IsWord(t) ==> Token(s, i).0 == Word && Letter(t[0])
  {
    hide Skip;
    var u := TokenIs(s, i);
    StandsAt(s, Skip(s, i), u, 0);
  }

  lemma RedirsStop(s: string, i: nat, c: Cmd<Span>)
    requires i <= |s| && !Next(s, i, {'<', '>'})
    ensures Redirs(s, i, c) == Ok(c, Skip(s, i))
  {
  }

  lemma RedirsStep(s: string, i: nat, c: Cmd<Span>, op: string, f: string, toks: seq<string>, j: nat)
      returns (d: Cmd<Span>, k: nat)
    requires i <= |s| && GoodPart(Red(op, f)) && Lexes(s, i, [op, f] + toks, j)
    ensures k <= |s| && Lexes(s, k, toks, j) && Redirs(s, i, c) == Redirs(s, k, d)
    ensures Text(s, d) == Step(Text(s, c), Red(op, f))
  {
    hide Skip, Token, IsTok, TextOf, IsWord, KindOf, Next;
    var (tok, w, n) := Token(s, i);
    TokenChar(s, i, op);
    assert ([op, f] + toks)[1..] == [f] + toks;
    assert ([f] + toks)[1..] == toks;
    TokenChar(s, n, f);
    var (word, file, m) := Token(s, n);
    d, k := Redir(c, file, tok != Sym('<')), m;
  }

  lemma {:induction false} RedirsRead(s: string, i: nat, c: Cmd<Span>, ps: seq<Part>, j: nat)
      returns (d: Cmd<Span>, m: nat, rest: seq<Part>)
    requires i <= |s| && GoodParts(ps) && Lexes(s, i, PartsToks(ps), j) && Follows(s, j, {'|', ')', '&', ';'})
    ensures Redirs(s, i, c) == Ok(d, m) && m <= |s| && Skip(s, m) == m && Lexes(s, m, PartsToks(rest), j)
    ensures GoodParts(rest) && Words(rest) == Words(ps) && Fold(Text(s, c), ps) == Fold(Text(s, d), rest)
    ensures |rest| <= |ps| && (rest == [] || rest[0].Arg?) && (AllRed(ps) ==> rest == [])
    decreases |ps|
  {
    hide Redirs, Token, IsTok, TextOf, IsWord, KindOf, Text, Skip, Lexes;
    if ps == [] {
      d, m, rest := c, j, ps;
      NoneLeft(s, i, j);
      RedirsStop(s, i, c);
    } else {
      assert GoodPart(ps[0]);
      match ps[0]
      case Arg(w) =>
        FirstTok(s, i, w, PartsToks(ps[1..]), j);
        RedirsStop(s, i, c);
        LexSkip(s, i, PartsToks(ps), j);
        SkipTwice(s, i);
        d, m, rest := c, Skip(s, i), ps;
      case Red(op, f) =>
        var e, k := RedirsStep(s, i, c, op, f, PartsToks(ps[1..]), j);
        d, m, rest := RedirsRead(s, k, e, ps[1..], j);
        assert Words(ps) == Words(ps[1..]);
    }
  }

  lemma NoneLeft(s: string, i: nat, j: nat)
    requires i <= |s| && Lexes(s, i, [], j) && Follows(s, j, {'|', ')', '&', ';'})
    ensures Skip(s, i) == Skip(s, j) == j && Lexes(s, j, [], j) && !Next(s, i, {'<', '>'}) && !Next(s, i, {'('})
  {
    hide Skip;
  }

  /** A word comes next. */
  lemma FirstTok(s: string, i: nat, w: string, toks: seq<string>, j: nat)
    requires i <= |s| && IsWord(w) && Lexes(s, i, [w] + toks, j)
    ensures !Next(s, i, {'<', '>'}) && !Next(s, i, {'|', ')', '&', ';'}) && !Next(s, i, {'('})
    ensures Token(s, i).0 == Word && TextOf(s, Token(s, i).1) == w && Lexes(s, Token(s, i).2, toks, j)
  {
    hide Skip, Token, TextOf, IsWord, KindOf;
    TokenChar(s, i, w);
    assert ([w] + toks)[1..] == toks;
  }

  lemma ArgsStop(s: string, i: nat, c: Cmd<Span>, argc: nat)
    requires i <= |s| && Follows(s, Skip(s, i), {'|', ')', '&', ';'})
    ensures Args(s, i, c, argc) == Ok(c, Skip(s, i))
  {
    hide Skip;
  }

  lemma ArgsStep(s: string, i: nat, c: Cmd<Span>, argc: nat, d: Cmd<Span>, k: nat)
    requires i <= |s| && k <= |s| && !Next(s, i, {'|', ')', '&', ';'}) && Token(s, i).0 == Word && argc + 1 < MAXARGS
    requires Redirs(s, Token(s, i).2, AddArg(c, Token(s, i).1)) == Ok(d, k)
    ensures Args(s, i, c, argc) == Args(s, k, d, argc + 1)
  {
    hide Skip, Token, Redirs, Next;
  }

  lemma {:induction false} ArgsRead(s: string, i: nat, c: Cmd<Span>, argc: nat, ps: seq<Part>, j: nat)
      returns (d: Cmd<Span>)
    requires i <= |s| && GoodParts(ps) && Lexes(s, i, PartsToks(ps), j) && Follows(s, j, {'|', ')', '&', ';'})
    requires (ps == [] || ps[0].Arg?) && argc + |Words(ps)| < MAXARGS
    ensures Args(s, i, c, argc) == Ok(d, j) && Text(s, d) == Fold(Text(s, c), ps)
    decreases |ps|
  {
    hide Skip, Token, TextOf, IsWord, KindOf, IsTok, Text, Args, Redirs, AddArg, Next, Lexes, Follows;
    if ps == [] {
      d := c;
      NoneLeft(s, i, j);
      ArgsStop(s, i, c, argc);
    } else {
      assert GoodPart(ps[0]);
      FirstTok(s, i, ps[0].word, PartsToks(ps[1..]), j);
      var w, n := Token(s, i).1, Token(s, i).2;
      var e, m, rest := RedirsRead(s, n, AddArg(c, w), ps[1..], j);
      TextAdd(s, c, w);
      assert |Words(ps)| == 1 + |Words(ps[1..])|;
      ArgsStep(s, i, c, argc, e, m);
      d := ArgsRead(s, m, e, argc + 1, rest, j);
    }
  }

  // ---- reading commands, pipelines and lines ----

  /** A symbol comes next. */
  lemma SymTok(s: string, i: nat, c: char, toks: seq<string>, j: nat)
    requires i <= |s| && Symbol(c) && Lexes(s, i, [[c]] + toks, j)
    ensures Skip(s, i) < |s| && s[Skip(s, i)] == c && After(s, i) <= |s| && Lexes(s, After(s, i), toks, j)
  {
    hide Skip, Token, TextOf;
    TokenChar(s, i, [c]);
    assert ([[c]] + toks)[1..] == toks;
  }

  /** Tokens up to a symbol, that symbol, and the rest. */
  lemma SplitAt(s: string, i: nat, a: seq<string>, c: char, b: seq<string>, j: nat) returns (m: nat)
    requires i <= |s| && Symbol(c) && Lexes(s, i, a + ([[c]] + b), j)
    ensures m < |s| && Skip(s, m) == m && s[m] == c && Lexes(s, i, a, m)
    ensures After(s, m) <= |s| && Lexes(s, After(s, m), b, j)
  {
    hide Skip, Token, TextOf, Lexes;
    m := LexSplit(s, i, a, [[c]] + b, j);
    LexEnd(s, i, a, m);
    SymTok(s, m, c, b, j);
  }

  lemma SimpleRead(s: string, i: nat, ps: seq<Part>, j: nat) returns (d: Cmd<Span>)
    requires i <= |s| && GoodCommand(Simple(ps)) && Lexes(s, i, PartsToks(ps), j) && Follows(s, j, {'|', ')', '&', ';'})
    ensures ParseExec(s, i) == Ok(d, j) && Text(s, d) == CommandMeaning(Simple(ps))
  {
    hide Skip, Token, TextOf, Redirs, Args, Lexes, Follows, Next, IsWord, IsTok, Fold, Words;
    if ps == [] {
      NoneLeft(s, i, j);
    } else {
      assert GoodPart(ps[0]);
      match ps[0]
      case Arg(w) => FirstTok(s, i, w, PartsToks(ps[1..]), j);
      case Red(op, f) =>
        assert PartsToks(ps) == [op] + ([f] + PartsToks(ps[1..]));
        NotBlock(s, i, op, [f] + PartsToks(ps[1..]), j);
    }
    var e, m, rest := RedirsRead(s, i, Exec([]), ps, j);
    d := ArgsRead(s, m, e, 0, rest, j);
    FoldSimple([], [], ps);
    assert [] + Words(ps) == Words(ps) && [] + ps == ps;
  }

  lemma NotBlock(s: string, i: nat, op: string, toks: seq<string>, j: nat)
    requires i <= |s| && op in {"<", ">", ">>"} && Lexes(s, i, [op] + toks, j)
    ensures !Next(s, i, {'('})
  {
    hide Skip, Token, TextOf;
    TokenChar(s, i, op);
  }

  lemma BlockRead(s: string, i: nat, l: Line, rs: seq<Part>, m: nat, b: Cmd<Span>, j: nat) returns (d: Cmd<Span>)
    requires i <= |s| && GoodParts(rs) && AllRed(rs) && Follows(s, j, {'|', ')', '&', ';'}) && Next(s, i, {'('})
    requires m < |s| && Skip(s, m) == m && s[m] == ')' && Lexes(s, After(s, m), PartsToks(rs), j)
    requires ParseLine(s, After(s, i)) == Ok(b, m) && Text(s, b) == LineMeaning(l)
    ensures ParseExec(s, i) == Ok(d, j) && Text(s, d) == CommandMeaning(Block(l, rs))
  {
    hide Skip, Token, TextOf, Redirs, Args, Lexes, ParseLine, Text;
    var e, k, rest := RedirsRead(s, After(s, m), b, rs, j);
    NoneLeft(s, k, j);
    FoldRedirs(LineMeaning(l), [], rs);
    assert [] + rs == rs;
    d := e;
  }

  lemma CommandRead(s: string, i: nat, c: Command, j: nat) returns (d: Cmd<Span>)
    requires i <= |s| && GoodCommand(c) && Lexes(s, i, CommandToks(c), j) && Follows(s, j, {'|', ')', '&', ';'})
    ensures ParseExec(s, i) == Ok(d, j) && Text(s, d) == CommandMeaning(c)
    decreases c
  {
    hide Skip, Token, Lexes, ParseExec, ParseLine, Text, CommandMeaning, LineMeaning;
    match c
    case Simple(ps) => d := SimpleRead(s, i, ps, j);
    case Block(l, rs) =>
      SymTok(s, i, '(', LineToks(l) + ([")"] + PartsToks(rs)), j);
      var m := SplitAt(s, After(s, i), LineToks(l), ')', PartsToks(rs), j);
      var b := LineRead(s, After(s, i), l, m);
      d := BlockRead(s, i, l, rs, m, b, j);
  }

  lemma PipelineRead(s: string, i: nat, p: Pipeline, j: nat) returns (d: Cmd<Span>)
    requires i <= |s| && GoodPipeline(p) && Lexes(s, i, PipelineToks(p), j) && Follows(s, j, {')', '&', ';'})
    ensures ParsePipe(s, i) == Ok(d, j) && Text(s, d) == PipelineMeaning(p)
    decreases p
  {
    hide Skip, Token, Lexes, ParseExec, ParseLine;
    match p
    case Last(c) => d := CommandRead(s, i, c, j);
    case Piped(c, q) =>
      var m := SplitAt(s, i, CommandToks(c), '|', PipelineToks(q), j);
      var l := CommandRead(s, i, c, m);
      var r := PipelineRead(s, After(s, m), q, j);
      d := Pipe(l, r);
  }

  lemma {:induction false} BacksRead(s: string, i: nat, c: Cmd<Span>, n: nat, more: seq<string>, j: nat)
      returns (d: Cmd<Span>, m: nat)
    requires i <= |s| && Lexes(s, i, Amps(n) + more, j) && Follows(s, j, {')'}) && (more == [] || more[0] == ";")
    ensures Backs(s, i, c) == (d, m) && m <= |s| && Lexes(s, m, more, j) && Skip(s, m) == m
    ensures Text(s, d) == Backed(Text(s, c), n)
    decreases n
  {
    hide Skip, Token, Lexes;
    if n == 0 {
      assert Amps(n) + more == more;
      if more == [] {
        NoneLeft(s, i, j);
      } else {
        assert more == [[';']] + more[1..];
        SymTok(s, i, ';', more[1..], j);
      }
      LexSkip(s, i, more, j);
      SkipTwice(s, i);
      d, m := c, Skip(s, i);
    } else {
      assert Amps(n) + more == [['&']] + (Amps(n - 1) + more);
      SymTok(s, i, '&', Amps(n - 1) + more, j);
      d, m := BacksRead(s, After(s, i), Back(c), n - 1, more, j);
    }
  }

  /** Where the pipeline of a line ends. */
  lemma PipelineEnds(s: string, i: nat, n: nat, more: seq<string>, j: nat)
    requires i <= |s| && Skip(s, i) == i && Lexes(s, i, Amps(n) + more, j) && Follows(s, j, {')'})
    requires more == [] || more[0] == ";"
    ensures Follows(s, i, {')', '&', ';'})
  {
    hide Skip, Token, Lexes;
    if n > 0 {
      assert Amps(n) + more == [['&']] + (Amps(n - 1) + more);
      SymTok(s, i, '&', Amps(n - 1) + more, j);
    } else if more != [] {
      assert Amps(n) + more == [[';']] + more[1..];
      SymTok(s, i, ';', more[1..], j);
    } else {
      assert Amps(n) + more == [];
      NoneLeft(s, i, j);
    }
  }

  lemma LineRead(s: string, i: nat, l: Line, j: nat) returns (d: Cmd<Span>)
    requires i <= |s| && GoodLine(l) && Lexes(s, i, LineToks(l), j) && Follows(s, j, {')'})
    ensures ParseLine(s, i) == Ok(d, j) && Text(s, d) == LineMeaning(l)
    decreases l
  {
    hide Skip, Token, Lexes, ParsePipe, Backs, PipelineToks, PipelineMeaning, Amps, Backed;
    var tail := Amps(l.amps) + MoreToks(l.more);
    var m := LexSplit(s, i, PipelineToks(l.pipe), tail, j);
    LexEnd(s, i, PipelineToks(l.pipe), m);
    PipelineEnds(s, m, l.amps, MoreToks(l.more), j);
    var c := PipelineRead(s, i, l.pipe, m);
    var e, k := BacksRead(s, m, c, l.amps, MoreToks(l.more), j);
    match l.more
    case NoMore =>
      NoneLeft(s, k, j);
      d := e;
    case Then(r) =>
      SymTok(s, k, ';', LineToks(r), j);
      var f := LineRead(s, After(s, k), r, j);
      d := List(e, f);
  }

  // ---- every line that is accepted was so written ----

  lemma {:induction false} PartsMore(ps: seq<Part>, qs: seq<Part>)
    ensures PartsToks(ps + qs) == PartsToks(ps) + PartsToks(qs) && Words(ps + qs) == Words(ps) + Words(qs)
    decreases |ps|
  {
    if ps == [] {
      assert ps + qs == qs;
    } else {
      assert (ps + qs)[1..] == ps[1..] + qs && (ps + qs)[0] == ps[0];
      PartsMore(ps[1..], qs);
      var p, rest := PartToks(ps[0]), PartsToks(ps[1..]);
      assert p + (rest + PartsToks(qs)) == (p + rest) + PartsToks(qs);
      var w, ws := if ps[0].Arg? then [ps[0].word] else [], Words(ps[1..]);
      assert w + (ws + Words(qs)) == (w + ws) + Words(qs);
    }
  }

  lemma {:induction false} NoWords(ps: seq<Part>)
    requires AllRed(ps)
    ensures Words(ps) == []
    decreases |ps|
  {
    if ps != [] {
      NoWords(ps[1..]);
    }
  }

  lemma LexOne(s: string, i: nat, t: string)
    requires i <= |s| && IsTok(t) && Token(s, i).0 == KindOf(t) && TextOf(s, Token(s, i).1) == t
    ensures Lexes(s, i, [t], Token(s, i).2)
  {
    hide Skip, Token, TextOf, IsTok, KindOf;
    SkipTwice(s, i);
  }

  lemma SymWritten(s: string, i: nat, c: char)
    requires i <= |s| && Symbol(c) && c != '>' && Next(s, i, {c})
    ensures Token(s, i).0 == Sym(c) && After(s, i) <= |s| && Lexes(s, i, [[c]], After(s, i))
  {
    hide Skip;
    var t := TokenIs(s, i);
    StandsAt(s, Skip(s, i), t, 0);
    assert t == [c];
    LexOne(s, i, t);
  }

  lemma RedWritten(s: string, i: nat) returns (op: string)
    requires i <= |s| && Next(s, i, {'<', '>'})
    ensures op in {"<", ">", ">>"} && Lexes(s, i, [op], After(s, i)) && (Token(s, i).0 == Sym('<') <==> op == "<")
  {
    hide Skip;
    op := TokenIs(s, i);
    StandsAt(s, Skip(s, i), op, 0);
    assert op == ">>" || op == "<" || op == ">";
    LexOne(s, i, op);
  }

  lemma WordWritten(s: string, i: nat)
    requires i <= |s| && Token(s, i).0 == Word
    ensures var w := TextOf(s, Token(s, i).1); IsWord(w) && Lexes(s, i, [w], After(s, i))
  {
    hide Skip;
    var w := TokenIs(s, i);
    LexOne(s, i, w);
  }

  lemma {:induction false} RedirsWritten(s: string, i: nat, c: Cmd<Span>) returns (ps: seq<Part>)
    requires i <= |s| && Redirs(s, i, c).Ok?
    ensures var r := Redirs(s, i, c);
      GoodParts(ps) && AllRed(ps) && Lexes(s, i, PartsToks(ps), r.pos) && Text(s, r.value) == Fold(Text(s, c), ps)
    decreases |s| - i
  {
    hide Skip, Token, Lexes, TextOf, IsWord;
    if !Next(s, i, {'<', '>'}) {
      ps := [];
      LexNone(s, i);
    } else {
      var (tok, _, j) := Token(s, i);
      var (_, file, k) := Token(s, j);
      var op := RedWritten(s, i);
      WordWritten(s, j);
      var d, f := Redir(c, file, tok != Sym('<')), TextOf(s, file);
      var rest := RedirsWritten(s, k, d);
      ps := [Red(op, f)] + rest;
      LexJoin(s, j, [f], k, PartsToks(rest), Redirs(s, i, c).pos);
      LexJoin(s, i, [op], j, [f] + PartsToks(rest), Redirs(s, i, c).pos);
      assert ps[1..] == rest;
      assert PartsToks(ps) == [op] + ([f] + PartsToks(rest));
    }
  }

  lemma LexNone(s: string, i: nat)
    requires i <= |s|
    ensures Lexes(s, i, [], Skip(s, i))
  {
  }

  lemma {:induction false} ArgsWritten(s: string, i: nat, c: Cmd<Span>, argc: nat) returns (ps: seq<Part>)
    requires i <= |s| && argc < MAXARGS && Args(s, i, c, argc).Ok?
    ensures var r := Args(s, i, c, argc);
      && GoodParts(ps) && Lexes(s, i, PartsToks(ps), r.pos) && Text(s, r.value) == Fold(Text(s, c), ps)
      && argc + |Words(ps)| < MAXARGS
    decreases |s| - i
  {
    hide Skip, Token, Lexes, TextOf, IsWord, Redirs, Next, Text;
    var (tok, w, j) := Token(s, i);
    if Next(s, i, {'|', ')', '&', ';'}) || tok == End {
      ps := [];
      LexNone(s, i);
      EndAt(s, i);
    } else {
      WordWritten(s, i);
      TextAdd(s, c, w);
      var d := Redirs(s, j, AddArg(c, w));
      var ds := RedirsWritten(s, j, AddArg(c, w));
      var rest := ArgsWritten(s, d.pos, d.value, argc + 1);
      var word, pos := Arg(TextOf(s, w)), Args(s, i, c, argc).pos;
      LexJoin(s, j, PartsToks(ds), d.pos, PartsToks(rest), pos);
      LexJoin(s, i, [word.word], j, PartsToks(ds) + PartsToks(rest), pos);
      ps := OnePart(word, ds, rest);
      FoldMore(Step(Text(s, c), word), ds, rest);
    }
  }

  lemma EndAt(s: string, i: nat)
    requires i <= |s|
    ensures Token(s, i).0 == End ==> Token(s, i).2 == Skip(s, i)
  {
  }

  /** A word, the redirections after it, and the rest. */
  lemma OnePart(w: Part, ds: seq<Part>, rest: seq<Part>) returns (ps: seq<Part>)
    requires w.Arg? && GoodPart(w) && GoodParts(ds) && AllRed(ds) && GoodParts(rest)
    ensures ps == [w] + (ds + rest) && ps != [] && ps[0] == w && ps[1..] == ds + rest && GoodParts(ps)
    ensures PartsToks(ps) == [w.word] + (PartsToks(ds) + PartsToks(rest)) && Words(ps) == [w.word] + Words(rest)
  {
    hide GoodPart;
    ps := [w] + (ds + rest);
    PartsMore(ds, rest);
    NoWords(ds);
    assert ps[1..] == ds + rest;
  }

  lemma SimpleWritten(s: string, i: nat) returns (c: Command)
    requires i <= |s| && !Next(s, i, {'('}) && ParseExec(s, i).Ok?
    ensures var r := ParseExec(s, i);
      GoodCommand(c) && Lexes(s, i, CommandToks(c), r.pos) && Text(s, r.value) == CommandMeaning(c)
  {
    hide Skip, Token, Lexes, Redirs, Args, Next, Fold, Words, PartsToks;
    var d := Redirs(s, i, Exec([]));
    var ds := RedirsWritten(s, i, Exec([]));
    var ps := ArgsWritten(s, d.pos, d.value, 0);
    LexJoin(s, i, PartsToks(ds), d.pos, PartsToks(ps), ParseExec(s, i).pos);
    PartsMore(ds, ps);
    NoWords(ds);
    FoldMore(Exec([]), ds, ps);
    FoldSimple([], [], ds + ps);
    assert [] + Words(ds + ps) == Words(ds + ps) && [] + (ds + ps) == ds + ps && [] + Words(ps) == Words(ps);
    c := Simple(ds + ps);
  }

  lemma CommandWritten(s: string, i: nat) returns (c: Command)
    requires i <= |s| && ParseExec(s, i).Ok?
    ensures var r := ParseExec(s, i);
      GoodCommand(c) && Lexes(s, i, CommandToks(c), r.pos) && Text(s, r.value) == CommandMeaning(c)
    decreases |s| - i, 1
  {
    hide Skip, Token, Lexes, Redirs, Args, Next, Text, ParseLine, Fold, GoodParts, PartsToks, LineToks, GoodLine,
      LineMeaning;
    if !Next(s, i, {'('}) {
      c := SimpleWritten(s, i);
    } else {
      var a := After(s, i);
      SymWritten(s, i, '(');
      TokenMoves(s, i);
      var b := ParseLine(s, a);
      var l := LineWritten(s, a);
      SymWritten(s, b.pos, ')');
      var e := After(s, b.pos);
      var rs := RedirsWritten(s, e, b.value);
      var pos := ParseExec(s, i).pos;
      LexJoin(s, b.pos, [")"], e, PartsToks(rs), pos);
      LexJoin(s, a, LineToks(l), b.pos, [")"] + PartsToks(rs), pos);
      LexJoin(s, i, ["("], a, LineToks(l) + ([")"] + PartsToks(rs)), pos);
      FoldRedirs(LineMeaning(l), [], rs);
      assert [] + rs == rs;
      c := Block(l, rs);
    }
  }

  lemma TokenMoves(s: string, i: nat)
    requires i <= |s| && Token(s, i).0 != End
    ensures i < After(s, i) <= |s|
  {
  }

  lemma PipelineWritten(s: string, i: nat) returns (p: Pipeline)
    requires i <= |s| && ParsePipe(s, i).Ok?
    ensures var r := ParsePipe(s, i);
      GoodPipeline(p) && Lexes(s, i, PipelineToks(p), r.pos) && Text(s, r.value) == PipelineMeaning(p)
    decreases |s| - i, 2
  {
    hide Skip, Token, Lexes, Next, ParseExec, GoodCommand, CommandToks, CommandMeaning;
    var c := CommandWritten(s, i);
    var j := ParseExec(s, i).pos;
    LexEnd(s, i, CommandToks(c), j);
    if Next(s, j, {'|'}) {
      SymWritten(s, j, '|');
      TokenMoves(s, j);
      var q := PipelineWritten(s, After(s, j));
      var pos := ParsePipe(s, i).pos;
      LexJoin(s, j, ["|"], After(s, j), PipelineToks(q), pos);
      LexJoin(s, i, CommandToks(c), j, ["|"] + PipelineToks(q), pos);
      p := Piped(c, q);
    } else {
      p := Last(c);
    }
  }

  lemma {:induction false} BacksWritten(s: string, i: nat, c: Cmd<Span>) returns (n: nat)
    requires i <= |s|
    ensures var (d, m) := Backs(s, i, c); Lexes(s, i, Amps(n), m) && Text(s, d) == Backed(Text(s, c), n)
    decreases |s| - i
  {
    hide Skip, Token, Lexes, Next;
    if Next(s, i, {'&'}) {
      SymWritten(s, i, '&');
      TokenMoves(s, i);
      var k := BacksWritten(s, After(s, i), Back(c));
      LexJoin(s, i, ["&"], After(s, i), Amps(k), Backs(s, i, c).1);
      n := k + 1;
    } else {
      LexNone(s, i);
      n := 0;
    }
  }

  lemma LineWritten(s: string, i: nat) returns (l: Line)
    requires i <= |s| && ParseLine(s, i).Ok?
    ensures var r := ParseLine(s, i);
      GoodLine(l) && Lexes(s, i, LineToks(l), r.pos) && Text(s, r.value) == LineMeaning(l)
    decreases |s| - i, 3
  {
    hide Skip, Token, Lexes, Next, ParsePipe, Backs, Amps, Backed, PipelineToks, PipelineMeaning, GoodPipeline;
    var p := PipelineWritten(s, i);
    var c := ParsePipe(s, i);
    var n := BacksWritten(s, c.pos, c.value);
    var k, pos := Backs(s, c.pos, c.value).1, ParseLine(s, i).pos;
    LexEnd(s, c.pos, Amps(n), k);
    if Next(s, k, {';'}) {
      SymWritten(s, k, ';');
      TokenMoves(s, k);
      var m := LineWritten(s, After(s, k));
      LexJoin(s, k, [";"], After(s, k), LineToks(m), pos);
      l := Line(p, n, Then(m));
    } else {
      LexNone(s, k);
      l := Line(p, n, NoMore);
    }
    LexJoin(s, c.pos, Amps(n), k, MoreToks(l.more), pos);
    LexJoin(s, i, PipelineToks(p), c.pos, Amps(n) + MoreToks(l.more), pos);
  }

  // ---- the lines the shell accepts, and what it makes of them ----

  /** s is the line l as typed, with white space wherever it is wanted. */
  ghost predicate Typed(l: Line, s: string) {
    GoodLine(l) && exists gaps :: Spaced(LineToks(l), gaps) && s == Spell(LineToks(l), gaps)
  }

  lemma {:induction false} PartsGood(ps: seq<Part>)
    requires GoodParts(ps)
    ensures AllToks(PartsToks(ps))
    decreases |ps|
  {
    if ps != [] {
      assert GoodPart(ps[0]);
      PartsGood(ps[1..]);
    }
  }

  lemma CommandGood(c: Command)
    requires GoodCommand(c)
    ensures AllToks(CommandToks(c))
  {
    match c
    case Simple(ps) => PartsGood(ps);
    case Block(l, rs) =>
      LineGood(l);
      PartsGood(rs);
  }

  lemma PipelineGood(p: Pipeline)
    requires GoodPipeline(p)
    ensures AllToks(PipelineToks(p))
  {
    CommandGood(p.cmd);
    if p.Piped? {
      PipelineGood(p.rest);
    }
  }

  lemma AmpsGood(n: nat)
    ensures AllToks(Amps(n))
  {
  }

  lemma LineGood(l: Line)
    requires GoodLine(l)
    ensures AllToks(LineToks(l))
  {
    PipelineGood(l.pipe);
    AmpsGood(l.amps);
    if l.more.Then? {
      LineGood(l.more.line);
    }
  }

  /** A line as typed is accepted, and the tree says what the line means. */
  lemma TypedAccepted(l: Line, s: string)
    requires Typed(l, s)
    ensures ParseCmd(s).Ok? && Text(s, ParseCmd(s).value) == LineMeaning(l)
  {
    hide Lexes, ParseLine, GoodLine, LineToks, Spell, Text, LineMeaning, Skip;
    var gaps :| Spaced(LineToks(l), gaps) && s == Spell(LineToks(l), gaps);
    LineGood(l);
    assert s[0..] == s;
    LexSpelled(s, 0, LineToks(l), gaps);
    LexEnd(s, 0, LineToks(l), |s|);
    var d := LineRead(s, 0, l, |s|);
  }

  /** Whatever is accepted is some line as typed. */
  lemma AcceptedTyped(s: string) returns (l: Line)
    requires ParseCmd(s).Ok?
    ensures Typed(l, s)
  {
    hide Lexes, ParseLine, GoodLine, LineToks, Spaced, Spell, Text, LineMeaning;
    l := LineWritten(s, 0);
    LexEnd(s, 0, LineToks(l), ParseLine(s, 0).pos);
    var gaps := LexUnspelled(s, 0, LineToks(l));
    assert s[0..] == s;
  }

  /** The parser accepts exactly the lines as typed. */
  lemma AcceptsExactly(s: string)
    ensures ParseCmd(s).Ok? <==> exists l :: Typed(l, s)
    ensures forall l :: Typed(l, s) ==> ParseCmd(s).Ok? && Text(s, ParseCmd(s).value) == LineMeaning(l)
  {
    hide Typed, ParseCmd;
    if ParseCmd(s).Ok? {
      var l := AcceptedTyped(s);
    }
    forall l | Typed(l, s) ensures ParseCmd(s).Ok? && Text(s, ParseCmd(s).value) == LineMeaning(l) {
      TypedAccepted(l, s);
    }
  }

  // ---- every tree can be typed ----

  function AsParts(ws: seq<string>): seq<Part> {
    if ws == [] then [] else [Arg(ws[0])] + AsParts(ws[1..])
  }

  function Single(c: Command): Line { Line(Last(c), 0, NoMore) }

  /** The tree as a line, with every inner tree in parentheses. */
  function AsLine(c: Cmd<string>): Line {
    match c
    case Exec(ws) => Single(Simple(AsParts(ws)))
    case Redir(d, f, out) => Single(Block(AsLine(d), [Red(if out then ">" else "<", f)]))
    case Pipe(l, r) => Line(Piped(Block(AsLine(l), []), Last(Block(AsLine(r), []))), 0, NoMore)
    case List(l, r) => Line(Last(Block(AsLine(l), [])), 0, Then(Single(Block(AsLine(r), []))))
    case Back(d) => Line(Last(Block(AsLine(d), [])), 1, NoMore)
  }

  lemma {:induction false} PartsOf(ws: seq<string>)
    requires forall k :: 0 <= k < |ws| ==> IsWord(ws[k])
    ensures var ps := AsParts(ws); GoodParts(ps) && Words(ps) == ws && forall k :: 0 <= k < |ps| ==> ps[k].Arg?
    decreases |ws|
  {
    if ws != [] {
      assert IsWord(ws[0]);
      PartsOf(ws[1..]);
      assert AsParts(ws)[1..] == AsParts(ws[1..]);
    }
  }

  lemma {:induction false} NotWrapped(c: Cmd<string>, ps: seq<Part>)
    requires forall k :: 0 <= k < |ps| ==> ps[k].Arg?
    ensures Wrap(c, ps) == c
    decreases |ps|
  {
    if ps != [] {
      NotWrapped(c, ps[..|ps| - 1]);
    }
  }

  lemma SimpleMeans(ws: seq<string>)
    requires |ws| <= 9 && forall k :: 0 <= k < |ws| ==> IsWord(ws[k])
    ensures GoodCommand(Simple(AsParts(ws))) && CommandMeaning(Simple(AsParts(ws))) == Exec(ws)
  {
    PartsOf(ws);
    NotWrapped(Exec(ws), AsParts(ws));
  }

  lemma BlockMeans(l: Line, c: Cmd<string>)
    requires GoodLine(l) && LineMeaning(l) == c
    ensures GoodCommand(Block(l, [])) && CommandMeaning(Block(l, [])) == c
    ensures GoodLine(Single(Block(l, []))) && LineMeaning(Single(Block(l, []))) == c
  {
    assert GoodPipeline(Last(Block(l, [])));
  }

  lemma RedMeans(l: Line, c: Cmd<string>, op: string, f: string)
    requires GoodLine(l) && LineMeaning(l) == c && GoodPart(Red(op, f))
    ensures var b := Block(l, [Red(op, f)]); GoodCommand(b) && CommandMeaning(b) == Redir(c, f, op != "<")
  {
    var rs := [Red(op, f)];
    assert rs[..|rs| - 1] == [] && Wrap(c, []) == c;
    assert Wrap(c, rs) == Redir(c, f, op != "<");
  }

  lemma {:induction false} AsLineMeans(c: Cmd<string>)
    requires Printable(c)
    ensures GoodLine(AsLine(c)) && LineMeaning(AsLine(c)) == c
  {
    hide Wrap, CommandMeaning, GoodCommand;
    match c
    case Exec(ws) => SimpleMeans(ws);
    case Redir(d, f, out) =>
      AsLineMeans(d);
      RedMeans(AsLine(d), d, if out then ">" else "<", f);
    case Pipe(l, r) =>
      AsLineMeans(l);
      AsLineMeans(r);
      BlockMeans(AsLine(l), l);
      BlockMeans(AsLine(r), r);
      assert GoodPipeline(Last(Block(AsLine(r), [])));
    case List(l, r) =>
      AsLineMeans(l);
      AsLineMeans(r);
      BlockMeans(AsLine(l), l);
      BlockMeans(AsLine(r), r);
    case Back(d) =>
      AsLineMeans(d);
      BlockMeans(AsLine(d), d);
  }

  function Blanks(n: nat): (gaps: seq<string>)
    ensures |gaps| == n && forall k :: 0 <= k < n ==> gaps[k] == " "
  {
    if n == 0 then [] else [" "] + Blanks(n - 1)
  }

  /** A tree printed as a line with a blank round every token. */
  function Print(c: Cmd<string>): string {
    Spell(LineToks(AsLine(c)), Blanks(|LineToks(AsLine(c))| + 1))
  }

  /** Every tree with at most nine words to a command can be typed, and is read back as it was. */
  lemma RoundTrip(c: Cmd<string>)
    requires Printable(c)
    ensures ParseCmd(Print(c)).Ok? && Text(Print(c), ParseCmd(Print(c)).value) == c
  {
    hide ParseCmd, Text, LineToks, Spell;
    AsLineMeans(c);
    assert Spaced(LineToks(AsLine(c)), Blanks(|LineToks(AsLine(c))| + 1));
    TypedAccepted(AsLine(c), Print(c));
  }
}

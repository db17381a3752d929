/** The shell's parser as it runs (userspace/sh.c): a cursor moved by loops, and NUL bytes written into the line. */
module Shell {
  import opened ShellLines
  import opened ShellSyntax

  method SkipSpace(s: string, i: nat) returns (j: nat)
    requires i <= |s|
    ensures j == Skip(s, i)
  {
    j := i;
    while j < |s| && Space(s[j])
      invariant i <= j <= |s| && Skip(s, i) == Skip(s, j)
    {
      j := j + 1;
    }
  }

  method Gettoken(s: string, i: nat) returns (kind: Kind, w: Span, j: nat)
    requires i <= |s|
    ensures (kind, w, j) == Token(s, i)
  {
    hide Skip;
    var q := SkipSpace(s, i);
    if q == |s| {
      return End, Span(q, q), q;
    }
    var p := q + 1;
    if s[q] == '>' {
      kind := Sym('>');
      if p < |s| && s[p] == '>' {
        kind := Append;
        p := p + 1;
      }
    } else if Symbol(s[q]) {
      kind := Sym(s[q]);
    } else {
      kind := Word;
      while p < |s| && !Space(s[p]) && !Symbol(s[p])
        invariant q < p <= |s| && WordEnd(s, q) == WordEnd(s, p)
      {
        p := p + 1;
      }
    }
    w := Span(q, p);
    j := SkipSpace(s, p);
  }

  method Peek(s: string, i: nat, toks: set<char>) returns (yes: bool, j: nat)
    requires i <= |s|
    ensures yes == Next(s, i, toks) && j == Skip(s, i)
  {
    j := SkipSpace(s, i);
    yes := j < |s| && s[j] in toks;
  }

  /** White space that peek has skipped makes no difference to what follows. */
  lemma Skipped(s: string, i: nat)
    requires i <= |s|
    ensures Skip(s, Skip(s, i)) == Skip(s, i) && Token(s, Skip(s, i)) == Token(s, i)
    ensures forall toks :: Next(s, Skip(s, i), toks) == Next(s, i, toks)
  {
    NoSkip(s, Skip(s, i));
  }

  method Parseredirs(s: string, i: nat, cmd: Cmd<Span>) returns (r: Parse<Cmd<Span>>)
    requires i <= |s|
    ensures r == Redirs(s, i, cmd)
  {
    hide Token, Skip;
    var c := cmd;
    var more, j := Peek(s, i, {'<', '>'});
    Skipped(s, i);
    while more
      invariant j <= |s| && j == Skip(s, j) && more == Next(s, j, {'<', '>'}) && Redirs(s, i, cmd) == Redirs(s, j, c)
      decreases |s| - j
    {
      var tok, op, k := Gettoken(s, j);
      var word, file, l := Gettoken(s, k);
      if word != Word {
        return Panic;
      }
      c := Redir(c, file, tok != Sym('<'));
      more, j := Peek(s, l, {'<', '>'});
      Skipped(s, l);
      RedirsSkip(s, l, c);
    }
    return Ok(c, j);
  }

  lemma RedirsSkip(s: string, i: nat, c: Cmd<Span>)
    requires i <= |s|
    ensures Redirs(s, Skip(s, i), c) == Redirs(s, i, c)
  {
    hide Token, Skip;
    Skipped(s, i);
  }

  lemma ArgsSkip(s: string, i: nat, c: Cmd<Span>, argc: nat)
    requires i <= |s|
    ensures Args(s, Skip(s, i), c, argc) == Args(s, i, c, argc)
  {
    hide Token, Skip;
    Skipped(s, i);
  }

  /** A command as typed, up to position j, and what the parser makes of it. */
  ghost predicate ReadsCommand(s: string, i: nat, c: Command, j: nat)
    requires i <= |s|
  {
    GoodCommand(c) && Lexes(s, i, CommandToks(c), j) && Follows(s, j, {'|', ')', '&', ';'})
  }

  lemma ExecReads(s: string, i: nat)
    requires i <= |s|
    ensures forall c, j :: ReadsCommand(s, i, c, j) ==>
      var r := ParseExec(s, i); r.Ok? && r.pos == j && Text(s, r.value) == CommandMeaning(c)
  {
    hide ParseExec, CommandMeaning, GoodCommand, Lexes, Follows, Text;
    forall c, j | ReadsCommand(s, i, c, j)
      ensures var r := ParseExec(s, i); r.Ok? && r.pos == j && Text(s, r.value) == CommandMeaning(c)
    {
      var d := CommandRead(s, i, c, j);
    }
  }

  method Parseexec(s: string, i: nat) returns (r: Parse<Cmd<Span>>)
    requires i <= |s|
    ensures r == ParseExec(s, i)
    ensures forall c, j :: ReadsCommand(s, i, c, j) ==> r.Ok? && r.pos == j && Text(s, r.value) == CommandMeaning(c)
    decreases |s| - i, 1
  {
    hide Token, Skip, Redirs, Next, ReadsCommand;
    ExecReads(s, i);
    var block, j := Peek(s, i, {'('});
    if block {
      r := Parseblock(s, i);
      return;
    }
    Skipped(s, i);
    RedirsSkip(s, i, Exec([]));
    r := Parseredirs(s, j, Exec([]));
    if r.Panic? {
      return;
    }
    var cmd, argc := r.value, 0;
    var stop, k := Peek(s, r.pos, {'|', ')', '&', ';'});
    Skipped(s, r.pos);
    ArgsSkip(s, r.pos, cmd, 0);
    while !stop
      invariant i <= k <= |s| && k == Skip(s, k) && stop == Next(s, k, {'|', ')', '&', ';'})
      invariant ParseExec(s, i) == Args(s, k, cmd, argc)
      decreases |s| - k
    {
      var tok, w, l := Gettoken(s, k);
      if tok == End {
        return Ok(cmd, l);
      }
      if tok != Word {
        return Panic;
      }
      argc := argc + 1;
      if argc >= MAXARGS {
        return Panic;
      }
      r := Parseredirs(s, l, AddArg(cmd, w));
      if r.Panic? {
        return;
      }
      cmd := r.value;
      ArgsSkip(s, r.pos, cmd, argc);
      Skipped(s, r.pos);
      stop, k := Peek(s, r.pos, {'|', ')', '&', ';'});
    }
    return Ok(cmd, k);
  }

  method Parseblock(s: string, i: nat) returns (r: Parse<Cmd<Span>>)
    requires i <= |s|
    ensures r == ParseBlock(s, i)
    decreases |s| - i, 0
  {
    hide Token, Skip, Redirs, ParseLine;
    var open, j := Peek(s, i, {'('});
    if !open {
      return Panic;
    }
    Skipped(s, i);
    OpenToken(s, i);
    var tok, w, k := Gettoken(s, j);
    r := Parseline(s, k);
    if r.Panic? {
      return;
    }
    var close, l := Peek(s, r.pos, {')'});
    Skipped(s, r.pos);
    if !close {
      return Panic;
    }
    tok, w, k := Gettoken(s, l);
    r := Parseredirs(s, k, r.value);
  }

  lemma OpenToken(s: string, i: nat)
    requires i <= |s| && Skip(s, i) < |s|
    ensures i < After(s, i) <= |s|
  {
  }

  method Parsepipe(s: string, i: nat) returns (r: Parse<Cmd<Span>>)
    requires i <= |s|
    ensures r == ParsePipe(s, i)
    decreases |s| - i, 2
  {
    hide Token, Skip, ParseExec;
    r := Parseexec(s, i);
    if r.Panic? {
      return;
    }
    var cmd := r.value;
    var bar, j := Peek(s, r.pos, {'|'});
    Skipped(s, r.pos);
    if !bar {
      return Ok(cmd, j);
    }
    OpenToken(s, r.pos);
    var tok, w, k := Gettoken(s, j);
    r := Parsepipe(s, k);
    if r.Ok? {
      r := Ok(Pipe(cmd, r.value), r.pos);
    }
  }

  method Parseline(s: string, i: nat) returns (r: Parse<Cmd<Span>>)
    requires i <= |s|
    ensures r == ParseLine(s, i)
    decreases |s| - i, 3
  {
    hide Token, Skip, ParsePipe;
    r := Parsepipe(s, i);
    if r.Panic? {
      return;
    }
    var cmd := r.value;
    var amp, j := Peek(s, r.pos, {'&'});
    Skipped(s, r.pos);
    BacksSkip(s, r.pos, cmd);
    while amp
      invariant i <= j <= |s| && j == Skip(s, j) && amp == Next(s, j, {'&'}) &&
        Backs(s, r.pos, r.value) == Backs(s, j, cmd)
      decreases |s| - j
    {
      OpenToken(s, j);
      var tok, w, k := Gettoken(s, j);
      cmd := Back(cmd);
      BacksSkip(s, k, cmd);
      Skipped(s, k);
      amp, j := Peek(s, k, {'&'});
    }
    var semi, k := Peek(s, j, {';'});
    Skipped(s, j);
    if !semi {
      return Ok(cmd, k);
    }
    OpenToken(s, j);
    var tok, w, l := Gettoken(s, k);
    r := Parseline(s, l);
    if r.Ok? {
      r := Ok(List(cmd, r.value), r.pos);
    }
  }

  lemma BacksSkip(s: string, i: nat, c: Cmd<Span>)
    requires i <= |s|
    ensures Backs(s, Skip(s, i), c) == Backs(s, i, c)
  {
    hide Token, Skip;
    Skipped(s, i);
  }

  /** parsecmd up to nulterminate; the leftover check fails on anything after the line that is not white space. */
  method Parsecmd(s: string) returns (r: Parse<Cmd<Span>>)
    ensures r == ParseCmd(s)
    ensures r.Ok? <==> exists l :: Typed(l, s)
    ensures forall l :: Typed(l, s) ==> r.Ok? && Text(s, r.value) == LineMeaning(l)
  {
    hide Typed;
    AcceptsExactly(s);
    r := Parseline(s, 0);
    if r.Ok? {
      var none, i := Peek(s, r.pos, {});
      r := if i == |s| then Ok(r.value, |s|) else Panic;
    }
  }

  // ---- nulterminate ----

  /** A maximal run of letters: the character after it belongs to no token. */
  predicate IsToken(s: string, w: Span) {
    w.q < w.eq <= |s| && (forall k :: w.q <= k < w.eq ==> Letter(s[k])) && (w.eq < |s| ==> !Letter(s[w.eq]))
  }

  function Spans(c: Cmd<Span>): set<Span> {
    match c
    case Exec(args) => set w | w in args
    case Redir(d, f, _) => Spans(d) + {f}
    case Pipe(l, r) => Spans(l) + Spans(r)
    case List(l, r) => Spans(l) + Spans(r)
    case Back(d) => Spans(d)
  }

  ghost predicate Tokens(s: string, c: Cmd<Span>) {
    forall w :: w in Spans(c) ==> IsToken(s, w)
  }

  lemma WordIsToken(s: string, i: nat)
    requires i <= |s| && Token(s, i).0 == Word
    ensures IsToken(s, Token(s, i).1)
  {
  }

  lemma AddArgSpans(c: Cmd<Span>, w: Span)
    ensures Spans(AddArg(c, w)) <= Spans(c) + {w}
  {
  }

  lemma {:induction false} RedirsTokens(s: string, i: nat, c: Cmd<Span>)
    requires i <= |s| && Tokens(s, c)
    ensures var r := Redirs(s, i, c); r.Ok? ==> Tokens(s, r.value)
    decreases |s| - i
  {
    hide Skip, Token, IsToken;
    if Next(s, i, {'<', '>'}) {
      OpenToken(s, i);
      var (tok, op, j) := Token(s, i);
      var (word, file, k) := Token(s, j);
      if word == Word {
        WordIsToken(s, j);
        RedirsTokens(s, k, Redir(c, file, tok != Sym('<')));
      }
    }
  }

  lemma {:induction false} ArgsTokens(s: string, i: nat, c: Cmd<Span>, argc: nat)
    requires i <= |s| && Tokens(s, c)
    ensures var r := Args(s, i, c, argc); r.Ok? ==> Tokens(s, r.value)
    decreases |s| - i
  {
    hide Skip, Token, IsToken, Redirs;
    var (tok, w, j) := Token(s, i);
    if !Next(s, i, {'|', ')', '&', ';'}) && tok == Word && argc + 1 < MAXARGS {
      WordIsToken(s, i);
      AddArgSpans(c, w);
      RedirsTokens(s, j, AddArg(c, w));
      var r := Redirs(s, j, AddArg(c, w));
      if r.Ok? {
        ArgsTokens(s, r.pos, r.value, argc + 1);
      }
    }
  }

  lemma {:induction false} BacksTokens(s: string, i: nat, c: Cmd<Span>)
    requires i <= |s| && Tokens(s, c)
    ensures Tokens(s, Backs(s, i, c).0)
    decreases |s| - i
  {
    hide Skip, Token, IsToken;
    if Next(s, i, {'&'}) {
      OpenToken(s, i);
      BacksTokens(s, After(s, i), Back(c));
    }
  }

  lemma {:induction false} ExecTokens(s: string, i: nat)
    requires i <= |s|
    ensures var r := ParseExec(s, i); r.Ok? ==> Tokens(s, r.value)
    decreases |s| - i, 1
  {
    hide Skip, Token, IsToken, Redirs, Args, ParseLine;
    if Next(s, i, {'('}) {
      OpenToken(s, i);
      LineTokens(s, After(s, i));
      var r := ParseLine(s, After(s, i));
      if r.Ok? && Next(s, r.pos, {')'}) {
        RedirsTokens(s, After(s, r.pos), r.value);
      }
    } else {
      RedirsTokens(s, i, Exec([]));
      var r := Redirs(s, i, Exec([]));
      if r.Ok? {
        ArgsTokens(s, r.pos, r.value, 0);
      }
    }
  }

  lemma {:induction false} PipeTokens(s: string, i: nat)
    requires i <= |s|
    ensures var r := ParsePipe(s, i); r.Ok? ==> Tokens(s, r.value)
    decreases |s| - i, 2
  {
    hide Skip, Token, IsToken, ParseExec;
    ExecTokens(s, i);
    var r := ParseExec(s, i);
    if r.Ok? && Next(s, r.pos, {'|'}) {
      OpenToken(s, r.pos);
      PipeTokens(s, After(s, r.pos));
    }
  }

  lemma {:induction false} LineTokens(s: string, i: nat)
    requires i <= |s|
    ensures var r := ParseLine(s, i); r.Ok? ==> Tokens(s, r.value)
    decreases |s| - i, 3
  {
    hide Skip, Token, IsToken, ParsePipe, Backs;
    PipeTokens(s, i);
    var r := ParsePipe(s, i);
    if r.Ok? {
      BacksTokens(s, r.pos, r.value);
      var (d, k) := Backs(s, r.pos, r.value);
      if Next(s, k, {';'}) {
        OpenToken(s, k);
        LineTokens(s, After(s, k));
      }
    }
  }

  /** nulterminate: a NUL at the end of every token of the tree, and no other change. */
  method Nulterminate(buf: array<char>, c: Cmd<Span>)
    requires forall w :: w in Spans(c) ==> w.eq < buf.Length
    modifies buf
    ensures forall k :: 0 <= k < buf.Length ==> buf[k] == if EndsAt(c, k) then '\0' else old(buf[k])
    decreases c
  {
    match c
    case Exec(args) =>
      var i := 0;
      while i < |args|
        invariant i <= |args|
        invariant forall k :: 0 <= k < buf.Length ==>
          buf[k] == if exists j :: 0 <= j < i && args[j].eq == k then '\0' else old(buf[k])
      {
        assert args[i] in Spans(c);
        buf[args[i].eq] := '\0';
        i := i + 1;
      }
    case Redir(d, f, _) =>
      Nulterminate(buf, d);
      buf[f.eq] := '\0';
    case Pipe(l, r) =>
      Nulterminate(buf, l);
      Nulterminate(buf, r);
    case List(l, r) =>
      Nulterminate(buf, l);
      Nulterminate(buf, r);
    case Back(d) =>
      Nulterminate(buf, d);
  }

  ghost predicate EndsAt(c: Cmd<Span>, k: nat) {
    exists w :: w in Spans(c) && w.eq == k
  }

  /** The C string at position i. */
  function CString(b: seq<char>, i: nat): string
    decreases |b| - i
  {
    if i < |b| && b[i] != '\0' then [b[i]] + CString(b, i + 1) else ""
  }

  lemma {:induction false} CStringIs(b: seq<char>, i: nat, e: nat)
    requires i <= e < |b| && b[e] == '\0' && forall k :: i <= k < e ==> b[k] != '\0'
    ensures CString(b, i) == b[i..e]
    decreases e - i
  {
    if i < e {
      CStringIs(b, i + 1, e);
    }
  }

  /** Every word and file name of a parsed line reads as exactly its token once the line has been NUL-terminated. */
  lemma TokensReadBack(s: string, c: Cmd<Span>, b: seq<char>, w: Span)
    requires (forall k :: 0 <= k < |s| ==> s[k] != '\0') && Tokens(s, c) && w in Spans(c) && |b| > |s|
    requires forall k :: 0 <= k < |s| ==> b[k] == if EndsAt(c, k) then '\0' else s[k]
    requires b[|s|] == '\0'
    ensures w.q < w.eq <= |s| && CString(b, w.q) == s[w.q..w.eq]
  {
    assert IsToken(s, w);
    forall k | w.q <= k < w.eq ensures !EndsAt(c, k) {
      assert forall v :: v in Spans(c) && v.eq == k ==> IsToken(s, v);
    }
    assert w.eq < |s| ==> EndsAt(c, w.eq);
    CStringIs(b, w.q, w.eq);
  }

  /** The tree with every span replaced by the C string that starts there. */
  function Strings(b: seq<char>, c: Cmd<Span>): Cmd<string> {
    match c
    case Exec(args) => Exec(seq(|args|, k requires 0 <= k < |args| => CString(b, args[k].q)))
    case Redir(d, f, out) => Redir(Strings(b, d), CString(b, f.q), out)
    case Pipe(l, r) => Pipe(Strings(b, l), Strings(b, r))
    case List(l, r) => List(Strings(b, l), Strings(b, r))
    case Back(d) => Back(Strings(b, d))
  }

  lemma {:induction false} StringsAreText(s: string, b: seq<char>, c: Cmd<Span>)
    requires forall w :: w in Spans(c) ==> CString(b, w.q) == TextOf(s, w)
    ensures Strings(b, c) == Text(s, c)
  {
    hide CString, TextOf;
    match c
    case Exec(args) =>
      forall k | 0 <= k < |args| ensures CString(b, args[k].q) == Texts(s, args)[k] {
        assert args[k] in Spans(c);
        TextsAt(s, args, k);
      }
    case Redir(d, f, _) => StringsAreText(s, b, d);
    case Pipe(l, r) =>
      StringsAreText(s, b, l);
      StringsAreText(s, b, r);
    case List(l, r) =>
      StringsAreText(s, b, l);
      StringsAreText(s, b, r);
    case Back(d) => StringsAreText(s, b, d);
  }

  lemma {:induction false} TextsAt(s: string, ws: seq<Span>, k: nat)
    requires k < |ws|
    ensures Texts(s, ws)[k] == TextOf(s, ws[k])
    decreases |ws|
  {
    if k < |ws| - 1 {
      TextsAt(s, ws[..|ws| - 1], k);
    }
  }

  /** parsecmd on the line buffer: s is the line, the byte after it is NUL. */
  method ParseAndTerminate(buf: array<char>, s: string) returns (r: Parse<Cmd<Span>>)
    requires buf.Length > |s| && buf[..|s|] == s && buf[|s|] == '\0' && forall k :: 0 <= k < |s| ==> s[k] != '\0'
    modifies buf
    ensures r.Ok? <==> exists l :: Typed(l, s)
    ensures forall l :: Typed(l, s) ==> r.Ok? && Strings(buf[..], r.value) == LineMeaning(l)
    ensures r.Ok? ==> forall w :: w in Spans(r.value) ==> w.q < w.eq <= |s| && CString(buf[..], w.q) == s[w.q..w.eq]
  {
    hide Typed, LineMeaning;
    r := Parsecmd(s);
    if r.Ok? {
      LineTokens(s, 0);
      ghost var c := r.value;
      assert forall w :: w in Spans(c) ==> IsToken(s, w);
      Nulterminate(buf, r.value);
      assert forall k :: 0 <= k < |s| ==> old(buf[k]) == s[k];
      forall w | w in Spans(c) ensures w.q < w.eq <= |s| && CString(buf[..], w.q) == s[w.q..w.eq] {
        TokensReadBack(s, c, buf[..], w);
      }
      StringsAreText(s, buf[..], c);
    }
  }
}

/** The grammar the shell's parser implements (userspace/sh.c): tokens as spans of the line, parse functions over
    positions. */
module ShellSyntax {
  const MAXARGS: nat := 10

  /** A token is the stretch [q, eq) of the line. */
  datatype Span = Span(q: nat, eq: nat)

  datatype Cmd<T> =
    | Exec(args: seq<T>)
    | Redir(cmd: Cmd<T>, file: T, out: bool)
    | Pipe(left: Cmd<T>, right: Cmd<T>)
    | List(left: Cmd<T>, right: Cmd<T>)
    | Back(cmd: Cmd<T>)

  datatype Parse<T> = Ok(value: T, pos: nat) | Panic

  predicate Space(c: char) { c == ' ' || c == '\t' || c == '\r' || c == '\n' || c == 11 as char }

  predicate Symbol(c: char) { c == '<' || c == '|' || c == '>' || c == '&' || c == ';' || c == '(' || c == ')' }

  predicate Letter(c: char) { !Space(c) && !Symbol(c) }

  /** The first position from i on that is not white space. */
  function Skip(s: string, i: nat): (r: nat)
    requires i <= |s|
    ensures i <= r <= |s| && (r < |s| ==> !Space(s[r])) && forall k :: i <= k < r ==> Space(s[k])
    decreases |s| - i
  {
    if i < |s| && Space(s[i]) then Skip(s, i + 1) else i
  }

  /** The end of the word that starts at i. */
  function WordEnd(s: string, i: nat): (r: nat)
    requires i <= |s|
    ensures i <= r <= |s| && (r < |s| ==> !Letter(s[r])) && forall k :: i <= k < r ==> Letter(s[k])
    decreases |s| - i
  {
    if i < |s| && Letter(s[i]) then WordEnd(s, i + 1) else i
  }

  datatype Kind = End | Sym(c: char) | Append | Word

  /** gettoken: the kind of the next token, its span, and where scanning goes on. */
  function Token(s: string, i: nat): (r: (Kind, Span, nat))
    requires i <= |s|
    ensures i <= r.1.q <= r.1.eq <= r.2 <= |s| && (r.0 != End ==> r.1.q < r.1.eq)
  {
    var q := Skip(s, i);
    if q == |s| then (End, Span(q, q), q)
    else if s[q] == '>' && q + 1 < |s| && s[q + 1] == '>' then (Append, Span(q, q + 2), Skip(s, q + 2))
    else if Symbol(s[q]) then (Sym(s[q]), Span(q, q + 1), Skip(s, q + 1))
    else (Word, Span(q, WordEnd(s, q)), Skip(s, WordEnd(s, q)))
  }

  /** peek: is the next character one of toks? */
  predicate Next(s: string, i: nat, toks: set<char>)
    requires i <= |s|
  {
    Skip(s, i) < |s| && s[Skip(s, i)] in toks
  }

  function After(s: string, i: nat): nat
    requires i <= |s|
  {
    Token(s, i).2
  }

  /** parseredirs */
  function Redirs(s: string, i: nat, c: Cmd<Span>): (r: Parse<Cmd<Span>>)
    requires i <= |s|
    ensures r.Ok? ==> i <= r.pos <= |s|
    decreases |s| - i
  {
    if !Next(s, i, {'<', '>'}) then Ok(c, Skip(s, i))
    else
      var (tok, op, j) := Token(s, i);
      var (word, file, k) := Token(s, j);
      if word != Word then Panic else Redirs(s, k, Redir(c, file, tok != Sym('<')))
  }

  // parseexec collects words into one node while redirections wrap it, so the words and the wrapping are kept apart:
  // `args` are the words so far and c is the command with those words.

  /** The node at the core of a chain of redirections gets another word. */
  function AddArg<T>(c: Cmd<T>, w: T): Cmd<T>
  {
    match c
    case Exec(args) => Exec(args + [w])
    case Redir(d, f, o) => Redir(AddArg(d, w), f, o)
    case _ => c
  }

  /** The loop of parseexec. */
  function Args(s: string, i: nat, c: Cmd<Span>, argc: nat): (r: Parse<Cmd<Span>>)
    requires i <= |s|
    ensures r.Ok? ==> i <= r.pos <= |s|
    decreases |s| - i
  {
    if Next(s, i, {'|', ')', '&', ';'}) then Ok(c, Skip(s, i))
    else
      var (tok, w, j) := Token(s, i);
      if tok == End then Ok(c, j)
      else if tok != Word || argc + 1 >= MAXARGS then Panic
      else
        match Redirs(s, j, AddArg(c, w))
        case Panic => Panic
        case Ok(d, k) => Args(s, k, d, argc + 1)
  }

  function ParseExec(s: string, i: nat): (r: Parse<Cmd<Span>>)
    requires i <= |s|
    ensures r.Ok? ==> i <= r.pos <= |s|
    decreases |s| - i, 1
  {
    if Next(s, i, {'('}) then ParseBlock(s, i)
    else
      match Redirs(s, i, Exec([]))
      case Panic => Panic
      case Ok(c, j) => Args(s, j, c, 0)
  }

  function ParseBlock(s: string, i: nat): (r: Parse<Cmd<Span>>)
    requires i <= |s|
    ensures r.Ok? ==> i <= r.pos <= |s|
    decreases |s| - i, 0
  {
    if !Next(s, i, {'('}) then Panic
    else
      match ParseLine(s, After(s, i))
      case Panic => Panic
      case Ok(c, j) => if Next(s, j, {')'}) then Redirs(s, After(s, j), c) else Panic
  }

  function ParsePipe(s: string, i: nat): (r: Parse<Cmd<Span>>)
    requires i <= |s|
    ensures r.Ok? ==> i <= r.pos <= |s|
    decreases |s| - i, 2
  {
    match ParseExec(s, i)
    case Panic => Panic
    case Ok(c, j) =>
      if Next(s, j, {'|'}) then
        match ParsePipe(s, After(s, j))
        case Panic => Panic
        case Ok(d, k) => Ok(Pipe(c, d), k)
      else Ok(c, Skip(s, j))
  }

  /** The loop of parseline. */
  function Backs(s: string, i: nat, c: Cmd<Span>): (r: (Cmd<Span>, nat))
    requires i <= |s|
    ensures i <= r.1 <= |s|
    decreases |s| - i
  {
    if Next(s, i, {'&'}) then Backs(s, After(s, i), Back(c)) else (c, Skip(s, i))
  }

  function ParseLine(s: string, i: nat): (r: Parse<Cmd<Span>>)
    requires i <= |s|
    ensures r.Ok? ==> i <= r.pos <= |s|
    decreases |s| - i, 3
  {
    match ParsePipe(s, i)
    case Panic => Panic
    case Ok(c, j) =>
      var (d, k) := Backs(s, j, c);
      if Next(s, k, {';'}) then
        match ParseLine(s, After(s, k))
        case Panic => Panic
        case Ok(e, l) => Ok(List(d, e), l)
      else Ok(d, Skip(s, k))
  }

  /** parsecmd, up to nulterminate */
  function ParseCmd(s: string): Parse<Cmd<Span>> {
    match ParseLine(s, 0)
    case Panic => Panic
    case Ok(c, i) => if Skip(s, i) == |s| then Ok(c, |s|) else Panic
  }

  // ---- the text of a tree ----

  const WHITE: string := " \t\r\n\U{000B}"
  const SYMBOLS: string := "<|>&;()"

  /** A word: neither white space nor a symbol in it. */
  predicate IsWord(w: string) { w != "" && forall k :: 0 <= k < |w| ==> w[k] !in WHITE && w[k] !in SYMBOLS }

  /** Trees the parser can produce: words are words and no command has more than nine. */
  predicate Printable(c: Cmd<string>) {
    match c
    case Exec(args) => |args| < MAXARGS && forall k :: 0 <= k < |args| ==> IsWord(args[k])
    case Redir(d, f, _) => Printable(d) && IsWord(f)
    case Pipe(l, r) => Printable(l) && Printable(r)
    case List(l, r) => Printable(l) && Printable(r)
    case Back(d) => Printable(d)
  }

  /** The tree with every span replaced by the text it delimits. */
  function Text(s: string, c: Cmd<Span>): Cmd<string> {
    match c
    case Exec(args) => Exec(Texts(s, args))
    case Redir(d, f, out) => Redir(Text(s, d), TextOf(s, f), out)
    case Pipe(l, r) => Pipe(Text(s, l), Text(s, r))
    case List(l, r) => List(Text(s, l), Text(s, r))
    case Back(d) => Back(Text(s, d))
  }

  function TextOf(s: string, w: Span): string {
    if w.q <= w.eq <= |s| then s[w.q..w.eq] else ""
  }

  function Texts(s: string, ws: seq<Span>): (r: seq<string>)
    ensures |r| == |ws|
  {
    if ws == [] then [] else Texts(s, ws[..|ws| - 1]) + [TextOf(s, ws[|ws| - 1])]
  }

  /** t stands at position i of s. */
  predicate Stands(s: string, i: nat, t: string) {
    i + |t| <= |s| && s[i..i + |t|] == t
  }

  lemma StandsAt(s: string, i: nat, t: string, k: nat)
    requires Stands(s, i, t) && k < |t|
    ensures s[i + k] == t[k]
  {
  }

  /** Scanning stops at once at anything but white space. */
  lemma NoSkip(s: string, i: nat)
    requires i <= |s| && (i < |s| ==> !Space(s[i]))
    ensures Skip(s, i) == i
  {
  }

  lemma WordToken(s: string, i: nat, w: string)
    requires Stands(s, i, w) && IsWord(w) && (i + |w| < |s| ==> !Letter(s[i + |w|]))
    ensures Token(s, i) == (Word, Span(i, i + |w|), Skip(s, i + |w|)) && TextOf(s, Span(i, i + |w|)) == w
  {
    StandsAt(s, i, w, 0);
    NoSkip(s, i);
    forall k | i <= k < i + |w| ensures Letter(s[k]) {
      StandsAt(s, i, w, k - i);
    }
    WordEndIs(s, i, i + |w|);
  }

  lemma WordEndIs(s: string, i: nat, e: nat)
    requires i <= e <= |s| && (e < |s| ==> !Letter(s[e])) && forall k :: i <= k < e ==> Letter(s[k])
    ensures WordEnd(s, i) == e
  {
  }
}

/**
 The shell's grammar as the recursive-descent parser reads it, on a line that
 holds no NUL; reading at its end sees the terminating NUL. Commands hold the
 places of their words in the line, as the parser's pointers do.
 */
module Shell {

  const MAXARGS: nat := 32

  predicate IsSpace(c: char)
  {
    c == ' ' || c == '\t' || c == '\r' || c == '\n' || c == '\U{0B}'
  }

  predicate IsSymbol(c: char)
  {
    c == '<' || c == '|' || c == '>' || c == '&' || c == ';' || c == '(' || c == ')'
  }

  predicate IsWordChar(c: char)
  {
    c != '\0' && !IsSpace(c) && !IsSymbol(c)
  }

  predicate IsLine(buf: string)
  {
    forall i :: 0 <= i < |buf| ==> buf[i] != '\0'
  }

  /** A word of the line, from `q` up to `eq`. */
  datatype Span = Span(q: nat, eq: nat)

  /** A redirection: standard input from a file, or standard output to one. `>`
      and `>>` open the file in the same way. */
  datatype Redirection = Redirection(file: Span, output: bool)

  datatype Cmd =
    | Exec(args: seq<Span>)
    | Redir(cmd: Cmd, redirection: Redirection)
    | Pipe(left: Cmd, right: Cmd)
    | List(left: Cmd, right: Cmd)
    | Back(cmd: Cmd)

  // ---- Tokens ----

  function CharAt(buf: string, s: nat): (c: char)
  {
    if s < |buf| then buf[s] else '\0'
  }

  function Skip(buf: string, s: nat): (r: nat)
    requires s <= |buf|
    ensures s <= r <= |buf|
    ensures r < |buf| ==> !IsSpace(buf[r])
    ensures forall i :: s <= i < r ==> IsSpace(buf[i])
    decreases |buf| - s
  {
    if s < |buf| && IsSpace(buf[s]) then Skip(buf, s + 1) else s
  }

  function WordEnd(buf: string, s: nat): (r: nat)
    requires s <= |buf|
    ensures s <= r <= |buf|
    ensures r < |buf| ==> IsSpace(buf[r]) || IsSymbol(buf[r])
    ensures forall i :: s <= i < r ==> !IsSpace(buf[i]) && !IsSymbol(buf[i])
    decreases |buf| - s
  {
    if s < |buf| && !IsSpace(buf[s]) && !IsSymbol(buf[s]) then WordEnd(buf, s + 1) else s
  }

  /** What `gettoken` finds: the kind of token (`a` for a word, `+` for `>>`,
      NUL at the end), its place, and where the next one begins. */
  datatype Token = Token(kind: char, q: nat, eq: nat, next: nat)

  function GetToken(buf: string, s: nat): (t: Token)
    requires s <= |buf|
    ensures s <= t.q <= t.eq <= t.next <= |buf|
    ensures t.kind != '\0' && IsLine(buf) ==> t.q < t.eq
  {
    var q := Skip(buf, s);
    var c := CharAt(buf, q);
    if c == '\0' then Token('\0', q, q, Skip(buf, q))
    else if c == '>' then
      if CharAt(buf, q + 1) == '>' then Token('+', q, q + 2, Skip(buf, q + 2))
      else Token('>', q, q + 1, Skip(buf, q + 1))
    else if IsSymbol(c) then Token(c, q, q + 1, Skip(buf, q + 1))
    else Token('a', q, WordEnd(buf, q), Skip(buf, WordEnd(buf, q)))
  }

  const WHITESPACE: string := " \t\r\n\U{0B}"
  const SYMBOLS: string := "<|>&;()"

  ghost predicate Blank(buf: string, a: nat, b: nat)
  {
    a <= b <= |buf| && forall i :: a <= i < b ==> buf[i] in WHITESPACE
  }

  /** The token of kind `kind` stands from `q` to `eq`: the end of the line, `>>`, a
      single symbol, where `>` has no other one behind it, or a word that goes on
      as long as it can. */
  ghost predicate Stands(buf: string, kind: char, q: nat, eq: nat)
  {
    && q <= eq <= |buf|
    && if kind == '\0' then q == eq == |buf|
       else if kind == '+' then buf[q..eq] == ">>"
       else if kind == '>' then buf[q..eq] == ">" && (eq < |buf| ==> buf[eq] != '>')
       else if kind == 'a' then
         && q < eq && (forall i :: q <= i < eq ==> buf[i] !in WHITESPACE && buf[i] !in SYMBOLS)
         && (eq < |buf| ==> buf[eq] in WHITESPACE || buf[eq] in SYMBOLS)
       else kind in SYMBOLS && buf[q..eq] == [kind]
  }

  /** The token is the first one from `s` on: blanks, the token, and all blanks
      behind it. */
  ghost predicate Lexes(buf: string, s: nat, t: Token)
  {
    && Blank(buf, s, t.q) && Stands(buf, t.kind, t.q, t.eq) && Blank(buf, t.eq, t.next)
    && (t.next < |buf| ==> buf[t.next] !in WHITESPACE)
  }

  /** `gettoken` finds the first token, on every line and from every place. */
  lemma TokenLexes(buf: string, s: nat)
    requires s <= |buf| && IsLine(buf)
    ensures Lexes(buf, s, GetToken(buf, s))
  {
    var t := GetToken(buf, s);
    SpacesAre();
    TokenStands(buf, s);
    hide Skip, WordEnd, Stands, IsSpace;
  }

  lemma SpacesAre()
    ensures forall c :: IsSpace(c) <==> c in WHITESPACE
    ensures forall c :: IsSymbol(c) <==> c in SYMBOLS
  {
  }

  lemma TokenStands(buf: string, s: nat)
    requires s <= |buf| && IsLine(buf)
    ensures var t := GetToken(buf, s); Stands(buf, t.kind, t.q, t.eq)
  {
    SpacesAre();
    hide Skip, WordEnd, IsSpace;
    var t := GetToken(buf, s);
    if t.kind == '+' {
      assert buf[t.q..t.eq] == [buf[t.q], buf[t.q + 1]];
    } else if t.kind != '\0' && t.kind != 'a' {
      assert buf[t.q..t.eq] == [buf[t.q]];
    }
  }

  /** And there is no other. */
  lemma LexesOnce(buf: string, s: nat, t: Token, u: Token)
    requires Lexes(buf, s, t) && Lexes(buf, s, u)
    ensures t == u
  {
    StandsFirst(buf, t.kind, t.q, t.eq);
    StandsFirst(buf, u.kind, u.q, u.eq);
    assert t.q == u.q;
    StandsOnce(buf, t.q, t.kind, t.eq, u.kind, u.eq);
    assert t.next == u.next;
  }

  lemma StandsFirst(buf: string, kind: char, q: nat, eq: nat)
    requires Stands(buf, kind, q, eq)
    ensures kind == '\0' ==> q == eq == |buf|
    ensures kind != '\0' ==> q < eq && buf[q] !in WHITESPACE
    ensures kind == 'a' <==> q < eq && buf[q] !in SYMBOLS
    ensures kind == '+' || kind == '>' <==> q < eq && buf[q] == '>'
    ensures kind != '\0' && kind != '+' && kind != 'a' ==> eq == q + 1 && buf[q] == kind
    ensures kind == '+' ==> eq == q + 2 && buf[q + 1] == '>'
  {
    if kind == '+' {
      assert buf[q..eq][0] == '>' && buf[q..eq][1] == '>';
    } else if kind != '\0' && kind != 'a' {
      assert |buf[q..eq]| == 1 && buf[q..eq][0] == kind;
    }
  }

  lemma StandsOnce(buf: string, q: nat, k: char, e: nat, k': char, e': nat)
    requires Stands(buf, k, q, e) && Stands(buf, k', q, e')
    ensures k == k' && e == e'
  {
    StandsFirst(buf, k, q, e);
    StandsFirst(buf, k', q, e');
  }

  /** `peek`: is the next character one of `toks`? */
  predicate Peek(buf: string, s: nat, toks: string)
    requires s <= |buf|
  {
    Skip(buf, s) < |buf| && CharAt(buf, Skip(buf, s)) in toks
  }

  lemma PeekToken(buf: string, s: nat)
    requires s <= |buf| && IsLine(buf)
    ensures GetToken(buf, s).kind == '\0' <==> Skip(buf, s) == |buf|
    ensures GetToken(buf, s).q == Skip(buf, s)
  {
  }

  // ---- The grammar ----

  datatype Error = MissingFile | NotABlock | MissingParen | Syntax | TooManyArgs | Leftovers

  datatype Parsed<T> = Ok(value: T, pos: nat) | Panic(error: Error)

  /** A parser never goes back. */
  predicate Forward<T>(r: Parsed<T>, buf: string, s: nat)
  {
    r.Ok? ==> s <= r.pos <= |buf|
  }

  /** `parseredirs`, apart from building the commands. */
  function Redirs(buf: string, s: nat): (r: Parsed<seq<Redirection>>)
    requires s <= |buf| && IsLine(buf)
    ensures Forward(r, buf, s)
    decreases |buf| - s
  {
    if Peek(buf, s, "<>") then
      PeekToken(buf, s);
      var tok := GetToken(buf, s);
      var file := GetToken(buf, tok.next);
      if file.kind != 'a' then Panic(MissingFile)
      else
        match Redirs(buf, file.next)
        case Panic(e) => Panic(e)
        case Ok(rest, pos) => Ok([Redirection(Span(file.q, file.eq), tok.kind != '<')] + rest, pos)
    else Ok([], Skip(buf, s))
  }

  /** The commands that `parseredirs` builds around a command. */
  function Wrap(c: Cmd, rs: seq<Redirection>): (r: Cmd)
  {
    if rs == [] then c else Redir(Wrap(c, rs[..|rs| - 1]), rs[|rs| - 1])
  }

  /** The loop of `parseexec`: words and redirections in any order. */
  function Args(buf: string, s: nat, args: seq<Span>, rs: seq<Redirection>): (r: Parsed<Cmd>)
    requires s <= |buf| && IsLine(buf)
    ensures Forward(r, buf, s)
    decreases |buf| - s
  {
    if Peek(buf, s, "|)&;") then Ok(Wrap(Exec(args), rs), Skip(buf, s))
    else
      var tok := GetToken(buf, s);
      if tok.kind == '\0' then Ok(Wrap(Exec(args), rs), tok.next)
      else if tok.kind != 'a' then Panic(Syntax)
      else if |args| + 1 >= MAXARGS then Panic(TooManyArgs)
      else
        match Redirs(buf, tok.next)
        case Panic(e) => Panic(e)
        case Ok(more, pos) => Args(buf, pos, args + [Span(tok.q, tok.eq)], rs + more)
  }

  function ParseExec(buf: string, s: nat): (r: Parsed<Cmd>)
    requires s <= |buf| && IsLine(buf)
    ensures Forward(r, buf, s)
    decreases |buf| - s, 1
  {
    if Peek(buf, s, "(") then ParseBlock(buf, s)
    else
      match Redirs(buf, s)
      case Panic(e) => Panic(e)
      case Ok(rs, pos) => Args(buf, pos, [], rs)
  }

  function ParseBlock(buf: string, s: nat): (r: Parsed<Cmd>)
    requires s <= |buf| && IsLine(buf)
    ensures Forward(r, buf, s)
    decreases |buf| - s, 0
  {
    if !Peek(buf, s, "(") then Panic(NotABlock)
    else
      PeekToken(buf, s);
      match ParseLine(buf, GetToken(buf, s).next)
      case Panic(e) => Panic(e)
      case Ok(c, p) =>
        if !Peek(buf, p, ")") then Panic(MissingParen)
        else
          match Redirs(buf, GetToken(buf, p).next)
          case Panic(e) => Panic(e)
          case Ok(rs, pos) => Ok(Wrap(c, rs), pos)
  }

  function ParsePipe(buf: string, s: nat): (r: Parsed<Cmd>)
    requires s <= |buf| && IsLine(buf)
    ensures Forward(r, buf, s)
    decreases |buf| - s, 2
  {
    match ParseExec(buf, s)
    case Panic(e) => Panic(e)
    case Ok(c, p) =>
      if Peek(buf, p, "|") then
        PeekToken(buf, p);
        match ParsePipe(buf, GetToken(buf, p).next)
        case Panic(e) => Panic(e)
        case Ok(d, pos) => Ok(Pipe(c, d), pos)
      else Ok(c, Skip(buf, p))
  }

  /** The loop of `parseline` over `&`. */
  function Backs(buf: string, s: nat, c: Cmd): (r: Parsed<Cmd>)
    requires s <= |buf| && IsLine(buf)
    ensures Forward(r, buf, s) && r.Ok?
    decreases |buf| - s
  {
    if Peek(buf, s, "&") then
      PeekToken(buf, s);
      Backs(buf, GetToken(buf, s).next, Back(c))
    else Ok(c, Skip(buf, s))
  }

  function ParseLine(buf: string, s: nat): (r: Parsed<Cmd>)
    requires s <= |buf| && IsLine(buf)
    ensures Forward(r, buf, s)
    decreases |buf| - s, 3
  {
    match ParsePipe(buf, s)
    case Panic(e) => Panic(e)
    case Ok(c, p) =>
      var backs := Backs(buf, p, c);
      if Peek(buf, backs.pos, ";") then
        PeekToken(buf, backs.pos);
        match ParseLine(buf, GetToken(buf, backs.pos).next)
        case Panic(e) => Panic(e)
        case Ok(d, pos) => Ok(List(backs.value, d), pos)
      else Ok(backs.value, Skip(buf, backs.pos))
  }

  function ParseCmd(buf: string): (r: Parsed<Cmd>)
    requires IsLine(buf)
  {
    match ParseLine(buf, 0)
    case Panic(e) => Panic(e)
    case Ok(c, p) => if Skip(buf, p) != |buf| then Panic(Leftovers) else Ok(c, |buf|)
  }
}

/**
 The parser on characters does what the parser on tokens does, so that a line is
 accepted exactly if the grammar derives its tokens.
 */
module ShellTokens {
  import opened Shell
  import opened ShellGrammar
  import ShellParser

  function Text(buf: string, s: Span): (w: string)
  {
    if s.q <= s.eq <= |buf| then buf[s.q..s.eq] else ""
  }

  function Texts(buf: string, spans: seq<Span>): (ws: seq<string>)
    ensures |ws| == |spans|
  {
    if spans == [] then [] else Texts(buf, spans[..|spans| - 1]) + [Text(buf, spans[|spans| - 1])]
  }

  /** The redirections that parsed ones denote. */
  function Files(buf: string, parsed: seq<Redirection>): (rs: seq<(string, bool)>)
  {
    if parsed == [] then []
    else [(Text(buf, parsed[0].file), parsed[0].output)] + Files(buf, parsed[1..])
  }

  /** The command that a parsed command denotes. */
  function TreeOf(buf: string, c: Cmd): (t: Tree)
  {
    match c
    case Exec(args) => TExec(Texts(buf, args))
    case Redir(d, r) => TRedir(TreeOf(buf, d), Text(buf, r.file), r.output)
    case Pipe(l, r) => TPipe(TreeOf(buf, l), TreeOf(buf, r))
    case List(l, r) => TList(TreeOf(buf, l), TreeOf(buf, r))
    case Back(d) => TBack(TreeOf(buf, d))
  }

  // ---- The tokens of a line ----

  function FirstTok(buf: string, s: nat): (tok: Tok)
    requires s <= |buf|
  {
    var t := GetToken(buf, s);
    if t.kind == 'a' then Word(buf[t.q..t.eq]) else Sym(t.kind)
  }

  /** The tokens from `s` on. */
  function Toks(buf: string, s: nat): (ts: List<Tok>)
    requires s <= |buf| && IsLine(buf)
    decreases |buf| - s
  {
    var t := GetToken(buf, s);
    if t.kind == '\0' then Nil else Cons(FirstTok(buf, s), Toks(buf, t.next))
  }

  /** How a token is written. */
  function Spelling(tok: Tok): (text: string)
  {
    match tok
    case Word(w) => w
    case Sym(c) => if c == '+' then ">>" else [c]
  }

  function KindOf(tok: Tok): (c: char)
  {
    match tok
    case Word(_) => 'a'
    case Sym(c) => c
  }

  /** The token is written from `q` to `eq`. */
  ghost predicate Written(buf: string, q: nat, eq: nat, tok: Tok)
  {
    q < eq <= |buf| && (tok.Sym? ==> tok.c != 'a') && Stands(buf, KindOf(tok), q, eq) && buf[q..eq] == Spelling(tok)
  }

  /** The line from `s` on is the spellings of the tokens in order, with nothing but
      blanks around them. */
  ghost predicate Spells(buf: string, s: nat, ts: List<Tok>)
    requires s <= |buf|
    decreases ts
  {
    match ts
    case Nil => Blank(buf, s, |buf|)
    case Cons(tok, rest) =>
      exists q: nat, eq: nat :: Blank(buf, s, q) && Written(buf, q, eq, tok) && Spells(buf, eq, rest)
  }

  lemma SkipToks(buf: string, s: nat)
    requires s <= |buf| && IsLine(buf)
    ensures Toks(buf, Skip(buf, s)) == Toks(buf, s)
  {
    ShellParser.SpacesIrrelevant(buf, s);
    hide Skip, GetToken, Redirs;
  }

  /** What is ahead, seen by `gettoken`. */
  lemma Ahead(buf: string, s: nat)
    requires s <= |buf| && IsLine(buf)
    ensures var t := GetToken(buf, s);
            && (t.kind == '\0' <==> Toks(buf, s).Nil?)
            && (t.kind != '\0' ==> Toks(buf, s) == Cons(FirstTok(buf, s), Toks(buf, t.next)))
            && (t.kind == 'a' <==> Toks(buf, s).Cons? && Toks(buf, s).head.Word?)
            && (t.kind == 'a' ==> Toks(buf, s).head.w == Text(buf, Span(t.q, t.eq)))
            && (t.kind != 'a' && t.kind != '\0' ==> Toks(buf, s).head == Sym(t.kind))
  {
    hide GetToken;
  }

  /** What is ahead, seen by `peek`. */
  lemma PeekIs(buf: string, s: nat, c: char)
    requires s <= |buf| && IsLine(buf) && (c == '(' || c == ')' || c == '|' || c == '&' || c == ';')
    ensures Peek(buf, s, [c]) <==> Next(Toks(buf, s), c)
    ensures Next(Toks(buf, s), c) ==> Toks(buf, s).tail == Toks(buf, GetToken(buf, s).next)
  {
    hide Skip, WordEnd;
    KindIs(buf, s);
  }

  lemma PeekArrow(buf: string, s: nat)
    requires s <= |buf| && IsLine(buf)
    ensures Peek(buf, s, "<>") <==> NextArrow(Toks(buf, s))
  {
    hide Skip, WordEnd;
    KindIs(buf, s);
  }

  lemma PeekEnd(buf: string, s: nat)
    requires s <= |buf| && IsLine(buf)
    ensures Peek(buf, s, "|)&;") || GetToken(buf, s).kind == '\0' <==> AtEnd(Toks(buf, s))
    ensures !AtEnd(Toks(buf, s)) && GetToken(buf, s).kind != 'a' ==> Toks(buf, s).head.Sym?
  {
    hide Skip, WordEnd;
    KindIs(buf, s);
  }

  /** The kind of a token, by its first character. */
  lemma KindIs(buf: string, s: nat)
    requires s <= |buf| && IsLine(buf)
    ensures var t, q := GetToken(buf, s), Skip(buf, s);
            && (t.kind == '\0' <==> q == |buf|)
            && (q < |buf| && buf[q] == '>' ==> t.kind == '>' || t.kind == '+')
            && (q < |buf| && buf[q] != '>' && IsSymbol(buf[q]) ==> t.kind == buf[q])
            && (q < |buf| && !IsSymbol(buf[q]) ==> t.kind == 'a')
  {
    hide Skip, WordEnd;
  }

  // ---- Redirections ----

  lemma {:induction false} RedirectedSnoc(t: Tree, rs: seq<(string, bool)>, file: string, output: bool)
    ensures Redirected(t, rs + [(file, output)]) == TRedir(Redirected(t, rs), file, output)
    decreases |rs|
  {
    if rs == [] {
      assert ([] + [(file, output)])[1..] == [];
    } else {
      RedirectedSnoc(TRedir(t, rs[0].0, rs[0].1), rs[1..], file, output);
      assert (rs + [(file, output)])[1..] == rs[1..] + [(file, output)];
    }
  }

  lemma {:induction false} FilesConcat(buf: string, xs: seq<Redirection>, ys: seq<Redirection>)
    ensures Files(buf, xs + ys) == Files(buf, xs) + Files(buf, ys)
  {
    if xs == [] {
      assert [] + ys == ys;
    } else {
      FilesConcat(buf, xs[1..], ys);
      assert (xs + ys)[1..] == xs[1..] + ys;
    }
  }

  lemma {:induction false} TreeOfWrap(buf: string, c: Cmd, rs: seq<Redirection>)
    ensures TreeOf(buf, Wrap(c, rs)) == Redirected(TreeOf(buf, c), Files(buf, rs))
    decreases |rs|
  {
    if rs != [] {
      var n := |rs| - 1;
      TreeOfWrap(buf, c, rs[..n]);
      FilesConcat(buf, rs[..n], [rs[n]]);
      assert rs == rs[..n] + [rs[n]];
      assert Files(buf, [rs[n]]) == [(Text(buf, rs[n].file), rs[n].output)];
      RedirectedSnoc(TreeOf(buf, c), Files(buf, rs[..n]), Text(buf, rs[n].file), rs[n].output);
    }
  }

  /** One turn of the loop of `parseredirs`. */
  lemma RedirsTurn(buf: string, s: nat)
    requires s <= |buf| && IsLine(buf)
    ensures !NextArrow(Toks(buf, s)) ==> Redirs(buf, s) == Ok([], Skip(buf, s))
    ensures NextArrow(Toks(buf, s)) ==>
      var ts := Toks(buf, s);
      var file := GetToken(buf, GetToken(buf, s).next);
      if ts.tail.Cons? && ts.tail.head.Word? then
        && GetToken(buf, s).next < file.next && ts.tail.tail == Toks(buf, file.next)
        && ts.tail.head.w == Text(buf, Span(file.q, file.eq)) && ts.head.c == GetToken(buf, s).kind
        && Redirs(buf, s) ==
           ShellParser.After([Redirection(Span(file.q, file.eq), ts.head.c != '<')], Redirs(buf, file.next))
      else Redirs(buf, s).Panic?
  {
    hide Skip, WordEnd, GetToken, Text;
    PeekArrow(buf, s);
    Ahead(buf, s);
    if NextArrow(Toks(buf, s)) {
      Ahead(buf, GetToken(buf, s).next);
    }
    hide Toks, Peek;
  }

  lemma {:induction false} RedirsAgree(buf: string, s: nat, t: Tree)
    requires s <= |buf| && IsLine(buf)
    ensures var r, q := Redirs(buf, s), ReadRedirs(Toks(buf, s), t);
            if r.Panic? then q.Fail?
            else !NextArrow(Toks(buf, r.pos)) && q == Done(Redirected(t, Files(buf, r.value)), Toks(buf, r.pos))
    decreases |buf| - s
  {
    hide Skip, WordEnd, GetToken, Text, Redirs, Toks;
    RedirsTurn(buf, s);
    var ts := Toks(buf, s);
    if !NextArrow(ts) {
      SkipToks(buf, s);
    } else if ts.tail.Cons? && ts.tail.head.Word? {
      var file := GetToken(buf, GetToken(buf, s).next);
      RedirsAgree(buf, file.next, TRedir(t, ts.tail.head.w, ts.head.c != '<'));
    }
  }

  lemma {:induction false} RedirsAsItems(buf: string, s: nat, args: seq<string>, rs: seq<(string, bool)>)
    requires s <= |buf| && IsLine(buf)
    ensures var r, q := Redirs(buf, s), ReadItems(Toks(buf, s), args, rs);
            if r.Panic? then q.Fail?
            else !NextArrow(Toks(buf, r.pos)) && q == ReadItems(Toks(buf, r.pos), args, rs + Files(buf, r.value))
    decreases |buf| - s
  {
    hide Skip, WordEnd, GetToken, Text, Redirs, Toks, Redirected;
    RedirsTurn(buf, s);
    var ts := Toks(buf, s);
    if !NextArrow(ts) {
      SkipToks(buf, s);
      assert rs + [] == rs;
    } else if ts.tail.Cons? && ts.tail.head.Word? {
      var file := GetToken(buf, GetToken(buf, s).next);
      var one := (ts.tail.head.w, ts.head.c != '<');
      RedirsAsItems(buf, file.next, args, rs + [one]);
      if Redirs(buf, s).Ok? {
        var more := Files(buf, Redirs(buf, file.next).value);
        assert rs + [one] + more == rs + ([one] + more);
      }
    }
  }

  // ---- The levels ----

  /** The two parsers agree. */
  ghost predicate Agree(buf: string, r: Parsed<Cmd>, q: Result)
    requires IsLine(buf)
  {
    if r.Panic? then q.Fail? else r.pos <= |buf| && q == Done(TreeOf(buf, r.value), Toks(buf, r.pos))
  }

  lemma {:induction false} ArgsAgree(buf: string, s: nat, args: seq<Span>, rs: seq<Redirection>)
    requires s <= |buf| && IsLine(buf) && !NextArrow(Toks(buf, s))
    ensures Agree(buf, Args(buf, s, args, rs), ReadItems(Toks(buf, s), Texts(buf, args), Files(buf, rs)))
    decreases |buf| - s
  {
    hide Skip, WordEnd, GetToken, Text, Redirs, Toks, Peek, Wrap, Redirected;
    var ts, tok := Toks(buf, s), GetToken(buf, s);
    Ahead(buf, s);
    PeekEnd(buf, s);
    if AtEnd(ts) {
      TreeOfWrap(buf, Exec(args), rs);
      SkipToks(buf, s);
      EndToks(buf, s);
    } else if tok.kind == 'a' && |args| + 1 < MAXARGS {
      var more := Redirs(buf, tok.next);
      var a := Span(tok.q, tok.eq);
      RedirsAsItems(buf, tok.next, Texts(buf, args) + [ts.head.w], Files(buf, rs));
      assert (args + [a])[..|args|] == args;
      assert Texts(buf, args + [a]) == Texts(buf, args) + [Text(buf, a)];
      if more.Ok? {
        FilesConcat(buf, rs, more.value);
        ArgsAgree(buf, more.pos, args + [a], rs + more.value);
      }
    }
  }

  lemma EndToks(buf: string, s: nat)
    requires s <= |buf| && IsLine(buf)
    ensures GetToken(buf, s).kind == '\0' ==> Toks(buf, GetToken(buf, s).next) == Nil && Skip(buf, s) == |buf|
  {
  }

  lemma {:induction false} PartAgrees(buf: string, s: nat)
    requires s <= |buf| && IsLine(buf)
    ensures Agree(buf, ParseExec(buf, s), ReadPart(Toks(buf, s)))
    decreases |buf| - s, 1
  {
    hide Skip, WordEnd, GetToken, Redirs, Toks, Peek, Args, ReadItems, ParseBlock, ReadLine, ReadRedirs;
    assert "(" == ['('];
    PeekIs(buf, s, '(');
    if Next(Toks(buf, s), '(') {
      BlockAgrees(buf, s);
    } else {
      RedirsAsItems(buf, s, [], []);
      var rs := Redirs(buf, s);
      if rs.Ok? {
        assert [] + Files(buf, rs.value) == Files(buf, rs.value);
        ArgsAgree(buf, rs.pos, [], rs.value);
      }
    }
  }

  lemma {:induction false} BlockAgrees(buf: string, s: nat)
    requires s <= |buf| && IsLine(buf) && Next(Toks(buf, s), '(')
    ensures Agree(buf, ParseBlock(buf, s), ReadPart(Toks(buf, s)))
    decreases |buf| - s, 0
  {
    hide Skip, WordEnd, GetToken, Redirs, Toks, Peek, ParseLine, ReadLine, ReadRedirs, Wrap, Redirected;
    assert "(" == ['('] && ")" == [')'];
    PeekIs(buf, s, '(');
    Ahead(buf, s);
    LineAgrees(buf, GetToken(buf, s).next);
    var line := ParseLine(buf, GetToken(buf, s).next);
    if line.Ok? {
      PeekIs(buf, line.pos, ')');
      if Next(Toks(buf, line.pos), ')') {
        var next := GetToken(buf, line.pos).next;
        RedirsAgree(buf, next, TreeOf(buf, line.value));
        if Redirs(buf, next).Ok? {
          TreeOfWrap(buf, line.value, Redirs(buf, next).value);
        }
      }
    }
  }

  lemma {:induction false} PipeAgrees(buf: string, s: nat)
    requires s <= |buf| && IsLine(buf)
    ensures Agree(buf, ParsePipe(buf, s), ReadPipe(Toks(buf, s)))
    decreases |buf| - s, 2
  {
    hide Skip, WordEnd, GetToken, Toks, Peek, ParseExec, ReadPart;
    assert "|" == ['|'];
    PartAgrees(buf, s);
    var part := ParseExec(buf, s);
    if part.Ok? {
      PeekIs(buf, part.pos, '|');
      SkipToks(buf, part.pos);
      if Peek(buf, part.pos, "|") {
        Ahead(buf, part.pos);
        PipeAgrees(buf, GetToken(buf, part.pos).next);
      }
    }
  }

  lemma {:induction false} BacksAgree(buf: string, s: nat, c: Cmd)
    requires s <= |buf| && IsLine(buf)
    ensures Agree(buf, Backs(buf, s, c), ReadBacks(Toks(buf, s), TreeOf(buf, c)))
    decreases |buf| - s
  {
    hide Skip, WordEnd, GetToken, Toks, Peek;
    assert "&" == ['&'];
    PeekIs(buf, s, '&');
    SkipToks(buf, s);
    if Peek(buf, s, "&") {
      Ahead(buf, s);
      BacksAgree(buf, GetToken(buf, s).next, Back(c));
    }
  }

  lemma {:induction false} LineAgrees(buf: string, s: nat)
    requires s <= |buf| && IsLine(buf)
    ensures Agree(buf, ParseLine(buf, s), ReadLine(Toks(buf, s)))
    decreases |buf| - s, 3
  {
    hide Skip, WordEnd, GetToken, Toks, Peek, ParsePipe, ReadPipe, Backs, ReadBacks;
    assert ";" == [';'];
    PipeAgrees(buf, s);
    var pipe := ParsePipe(buf, s);
    if pipe.Ok? {
      BacksAgree(buf, pipe.pos, pipe.value);
      var p := Backs(buf, pipe.pos, pipe.value).pos;
      PeekIs(buf, p, ';');
      SkipToks(buf, p);
      if Peek(buf, p, ";") {
        Ahead(buf, p);
        LineAgrees(buf, GetToken(buf, p).next);
      }
    }
  }

  // ---- The tokens spell the line ----

  lemma FirstSpells(buf: string, s: nat)
    requires s <= |buf| && IsLine(buf)
    ensures var t := GetToken(buf, s);
            if t.kind == '\0' then Blank(buf, s, |buf|)
            else Blank(buf, s, t.q) && Written(buf, t.q, t.eq, FirstTok(buf, s)) && t.next == Skip(buf, t.eq)
  {
    TokenLexes(buf, s);
    var t := GetToken(buf, s);
    StandsFirst(buf, t.kind, t.q, t.eq);
    TokenNext(buf, s);
    hide Skip, WordEnd, GetToken, Blank;
  }

  lemma TokenNext(buf: string, s: nat)
    requires s <= |buf|
    ensures GetToken(buf, s).next == Skip(buf, GetToken(buf, s).eq)
  {
    hide Skip, WordEnd;
  }

  lemma {:induction false} ToksSpell(buf: string, s: nat)
    requires s <= |buf| && IsLine(buf)
    ensures Spells(buf, s, Toks(buf, s))
    decreases |buf| - s
  {
    hide Skip, WordEnd, GetToken, FirstTok, Written, Blank;
    FirstSpells(buf, s);
    var t := GetToken(buf, s);
    if t.kind != '\0' {
      ToksSpell(buf, t.eq);
      SkipToks(buf, t.eq);
      assert Written(buf, t.q, t.eq, FirstTok(buf, s)) && Spells(buf, t.eq, Toks(buf, t.next));
    }
  }

  lemma {:induction false} SpelledAreToks(buf: string, s: nat, ts: List<Tok>)
    requires s <= |buf| && IsLine(buf) && Spells(buf, s, ts)
    ensures ts == Toks(buf, s)
    decreases ts
  {
    hide Skip, WordEnd, GetToken, FirstTok;
    FirstSpells(buf, s);
    var t := GetToken(buf, s);
    match ts
    case Nil =>
      assert t.kind == '\0' by {
        if t.kind != '\0' {
          StandsFirst(buf, KindOf(FirstTok(buf, s)), t.q, t.eq);
        }
      }
    case Cons(tok, rest) =>
      var q: nat, eq: nat :| Blank(buf, s, q) && Written(buf, q, eq, tok) && Spells(buf, eq, rest);
      SameFirst(buf, s, q, eq, tok);
      SpelledAreToks(buf, eq, rest);
      SkipToks(buf, eq);
  }

  lemma SameFirst(buf: string, s: nat, q: nat, eq: nat, tok: Tok)
    requires s <= |buf| && IsLine(buf) && Blank(buf, s, q) && Written(buf, q, eq, tok)
    ensures var t := GetToken(buf, s); t.kind != '\0' && t.q == q && t.eq == eq && FirstTok(buf, s) == tok
  {
    hide Skip, WordEnd;
    TokenLexes(buf, s);
    var t := GetToken(buf, s);
    StandsFirst(buf, t.kind, t.q, t.eq);
    StandsFirst(buf, KindOf(tok), q, eq);
    hide GetToken;
    assert t.q == q;
    StandsOnce(buf, q, t.kind, t.eq, KindOf(tok), eq);
  }

  /** For every line: its tokens, and no others, spell it. */
  lemma ToksIff(buf: string, ts: List<Tok>)
    requires IsLine(buf)
    ensures Spells(buf, 0, ts) <==> ts == Toks(buf, 0)
  {
    hide Spells, Toks;
    ToksSpell(buf, 0);
    if Spells(buf, 0, ts) {
      SpelledAreToks(buf, 0, ts);
    }
  }

  /** A line is accepted as `t` if and only if the grammar derives its tokens with
      the meaning `t`. */
  lemma AcceptedIffDerived(buf: string, t: Tree)
    requires IsLine(buf)
    ensures ParseCmd(buf).Ok? && TreeOf(buf, ParseCmd(buf).value) == t <==> Derives(Toks(buf, 0), t)
  {
    hide Skip, WordEnd, GetToken, Toks, ParseLine, ReadLine, Derives, TreeOf;
    LineAgrees(buf, 0);
    ReadIffDerived(Toks(buf, 0), t);
    var line := ParseLine(buf, 0);
    if line.Ok? {
      NothingLeft(buf, line.pos);
    }
  }

  /** A line is accepted as `t` if and only if it is spelled by tokens that the
      grammar derives with the meaning `t`. */
  lemma AcceptedIffSpelled(buf: string, t: Tree)
    requires IsLine(buf)
    ensures ParseCmd(buf).Ok? && TreeOf(buf, ParseCmd(buf).value) == t <==>
            exists ts :: Spells(buf, 0, ts) && Derives(ts, t)
  {
    hide Spells, Toks, ParseCmd, TreeOf, Derives;
    AcceptedIffDerived(buf, t);
    ToksIff(buf, Toks(buf, 0));
    forall ts | Spells(buf, 0, ts)
      ensures ts == Toks(buf, 0)
    {
      ToksIff(buf, ts);
    }
  }

  lemma NothingLeft(buf: string, p: nat)
    requires p <= |buf| && IsLine(buf)
    ensures Skip(buf, p) == |buf| <==> Toks(buf, p) == Nil
  {
    hide Skip, WordEnd;
    PeekToken(buf, p);
  }
}

/**
 The parser as it works: a cursor that every function moves forward, and at the
 end NULs written over the character behind each word.
 */
module ShellParser {
  import opened Shell

  function After(done: seq<Redirection>, r: Parsed<seq<Redirection>>): (q: Parsed<seq<Redirection>>)
  {
    match r
    case Panic(e) => Panic(e)
    case Ok(rest, pos) => Ok(done + rest, pos)
  }

  lemma AfterAfter(xs: seq<Redirection>, ys: seq<Redirection>, r: Parsed<seq<Redirection>>)
    ensures After(xs, After(ys, r)) == After(xs + ys, r)
  {
    if r.Ok? {
      assert xs + (ys + r.value) == xs + ys + r.value;
    }
  }

  /** Nothing that is parsed at a place depends on the spaces there. */
  lemma SpacesIrrelevant(buf: string, s: nat)
    requires s <= |buf| && IsLine(buf)
    ensures Skip(buf, Skip(buf, s)) == Skip(buf, s) && Shell.GetToken(buf, Skip(buf, s)) == Shell.GetToken(buf, s)
    ensures Redirs(buf, Skip(buf, s)) == Redirs(buf, s) && After([], Redirs(buf, s)) == Redirs(buf, s)
  {
    if Redirs(buf, s).Ok? {
      assert [] + Redirs(buf, s).value == Redirs(buf, s).value;
    }
  }

  lemma RedirsTurn(buf: string, s: nat, done: seq<Redirection>)
    requires s <= |buf| && IsLine(buf) && Shell.Peek(buf, s, "<>")
    ensures var tok := Shell.GetToken(buf, s);
            var file := Shell.GetToken(buf, tok.next);
            if file.kind != 'a' then Redirs(buf, s) == Panic(MissingFile)
            else After(done, Redirs(buf, s)) ==
                 After(done + [Redirection(Span(file.q, file.eq), tok.kind != '<')], Redirs(buf, file.next))
  {
    hide Skip, Shell.GetToken, WordEnd;
    var tok := Shell.GetToken(buf, s);
    var file := Shell.GetToken(buf, tok.next);
    AfterAfter(done, [Redirection(Span(file.q, file.eq), tok.kind != '<')], Redirs(buf, file.next));
  }

  lemma ArgsSkip(buf: string, s: nat, args: seq<Span>, rs: seq<Redirection>)
    requires s <= |buf| && IsLine(buf)
    ensures Args(buf, Skip(buf, s), args, rs) == Args(buf, s, args, rs)
  {
    SpacesIrrelevant(buf, s);
    hide Skip, Shell.GetToken, WordEnd, Redirs, Wrap;
  }

  lemma BlockSkip(buf: string, s: nat)
    requires s <= |buf| && IsLine(buf)
    ensures Shell.ParseBlock(buf, Skip(buf, s)) == Shell.ParseBlock(buf, s)
  {
    SpacesIrrelevant(buf, s);
    hide Skip, Shell.GetToken, WordEnd, Redirs, Wrap, Shell.ParseLine;
  }

  lemma BacksSkip(buf: string, s: nat, c: Cmd)
    requires s <= |buf| && IsLine(buf)
    ensures Backs(buf, Skip(buf, s), c) == Backs(buf, s, c)
  {
    SpacesIrrelevant(buf, s);
    hide Skip, Shell.GetToken, WordEnd;
  }

  class Parser {
    const buf: string
    var pos: nat

    ghost predicate Valid()
      reads this
    {
      IsLine(buf) && pos <= |buf|
    }

    constructor (buf: string)
      requires IsLine(buf)
      ensures Valid() && this.buf == buf && pos == 0
    {
      this.buf := buf;
      pos := 0;
    }

    method SkipSpaces()
      requires Valid()
      modifies this
      ensures Valid() && pos == Skip(buf, old(pos))
    {
      while pos < |buf| && IsSpace(buf[pos])
        invariant Valid() && Skip(buf, old(pos)) == Skip(buf, pos)
        decreases |buf| - pos
      {
        pos := pos + 1;
      }
    }

    method GetToken() returns (t: Token)
      requires Valid()
      modifies this
      ensures Valid() && t == Shell.GetToken(buf, old(pos)) && pos == t.next
      ensures Lexes(buf, old(pos), t)
    {
      hide Lexes;
      TokenLexes(buf, pos);
      SkipSpaces();
      var q := pos;
      var kind := CharAt(buf, pos);
      if kind == '\0' {
      } else if kind == '>' {
        pos := pos + 1;
        if CharAt(buf, pos) == '>' {
          kind := '+';
          pos := pos + 1;
        }
      } else if IsSymbol(kind) {
        pos := pos + 1;
      } else {
        kind := 'a';
        while pos < |buf| && !IsSpace(buf[pos]) && !IsSymbol(buf[pos])
          invariant Valid() && WordEnd(buf, q) == WordEnd(buf, pos)
          decreases |buf| - pos
        {
          pos := pos + 1;
        }
      }
      var eq := pos;
      SkipSpaces();
      t := Token(kind, q, eq, pos);
    }

    method Peek(toks: string) returns (found: bool)
      requires Valid()
      modifies this
      ensures Valid() && pos == Skip(buf, old(pos)) && found == Shell.Peek(buf, old(pos), toks)
    {
      SkipSpaces();
      found := pos < |buf| && buf[pos] in toks;
    }

    /** The redirections at the cursor; the caller wraps them round its command. */
    method ParseRedirs() returns (r: Parsed<seq<Redirection>>)
      requires Valid()
      modifies this
      ensures Valid() && r == Redirs(buf, old(pos)) && (r.Ok? ==> pos == r.pos)
    {
      hide Skip, WordEnd, Shell.GetToken;
      var done: seq<Redirection> := [];
      SpacesIrrelevant(buf, pos);
      var more := Peek("<>");
      while more
        invariant Valid() && more == Shell.Peek(buf, pos, "<>") && Skip(buf, pos) == pos
        invariant Redirs(buf, old(pos)) == After(done, Redirs(buf, pos))
        decreases |buf| - pos
      {
        PeekToken(buf, pos);
        RedirsTurn(buf, pos, done);
        var tok := GetToken();
        var file := GetToken();
        if file.kind != 'a' {
          return Panic(MissingFile);
        }
        done := done + [Redirection(Span(file.q, file.eq), tok.kind != '<')];
        SpacesIrrelevant(buf, pos);
        more := Peek("<>");
      }
      assert done + [] == done;
      return Ok(done, pos);
    }

    method ParseExec() returns (r: Parsed<Cmd>)
      requires Valid()
      modifies this
      ensures Valid() && r == Shell.ParseExec(buf, old(pos)) && (r.Ok? ==> pos == r.pos)
      decreases |buf| - pos, 1
    {
      hide Skip, WordEnd, Shell.GetToken, Redirs, Shell.ParseBlock;
      SpacesIrrelevant(buf, pos);
      ghost var start := pos;
      var block := Peek("(");
      if block {
        BlockSkip(buf, start);
        r := ParseBlock();
        return;
      }
      var args: seq<Span> := [];
      var first := ParseRedirs();
      if first.Panic? {
        return Panic(first.error);
      }
      var rs := first.value;
      SpacesIrrelevant(buf, pos);
      var stop := Peek("|)&;");
      while !stop
        invariant Valid() && stop == Shell.Peek(buf, pos, "|)&;") && Skip(buf, pos) == pos
        invariant Args(buf, first.pos, [], first.value) == Args(buf, pos, args, rs)
        decreases |buf| - pos, !stop
      {
        PeekToken(buf, pos);
        ghost var s := pos;
        var tok := GetToken();
        if tok.kind == '\0' {
          break;
        }
        if tok.kind != 'a' {
          return Panic(Syntax);
        }
        if |args| + 1 >= MAXARGS {
          return Panic(TooManyArgs);
        }
        args := args + [Span(tok.q, tok.eq)];
        var more := ParseRedirs();
        if more.Panic? {
          return Panic(more.error);
        }
        rs := rs + more.value;
        SpacesIrrelevant(buf, pos);
        ArgsSkip(buf, pos, args, rs);
        stop := Peek("|)&;");
      }
      return Ok(Wrap(Exec(args), rs), pos);
    }

    method ParseBlock() returns (r: Parsed<Cmd>)
      requires Valid()
      modifies this
      ensures Valid() && r == Shell.ParseBlock(buf, old(pos)) && (r.Ok? ==> pos == r.pos)
      decreases |buf| - pos, 0
    {
      hide Skip, WordEnd, Shell.GetToken, Redirs, Shell.ParseLine;
      SpacesIrrelevant(buf, pos);
      var open := Peek("(");
      if !open {
        return Panic(NotABlock);
      }
      PeekToken(buf, pos);
      var tok := GetToken();
      r := ParseLine();
      if r.Panic? {
        return;
      }
      SpacesIrrelevant(buf, pos);
      var close := Peek(")");
      if !close {
        return Panic(MissingParen);
      }
      tok := GetToken();
      var rs := ParseRedirs();
      if rs.Panic? {
        return Panic(rs.error);
      }
      return Ok(Wrap(r.value, rs.value), pos);
    }

    method ParsePipe() returns (r: Parsed<Cmd>)
      requires Valid()
      modifies this
      ensures Valid() && r == Shell.ParsePipe(buf, old(pos)) && (r.Ok? ==> pos == r.pos)
      decreases |buf| - pos, 2
    {
      hide Skip, WordEnd, Shell.GetToken, Redirs, Shell.ParseExec;
      var left := ParseExec();
      if left.Panic? {
        return left;
      }
      SpacesIrrelevant(buf, pos);
      var bar := Peek("|");
      if !bar {
        return Ok(left.value, pos);
      }
      PeekToken(buf, pos);
      var tok := GetToken();
      var right := ParsePipe();
      if right.Panic? {
        return right;
      }
      return Ok(Pipe(left.value, right.value), pos);
    }

    method ParseLine() returns (r: Parsed<Cmd>)
      requires Valid()
      modifies this
      ensures Valid() && r == Shell.ParseLine(buf, old(pos)) && (r.Ok? ==> pos == r.pos)
      decreases |buf| - pos, 3
    {
      hide Skip, WordEnd, Shell.GetToken, Redirs, Shell.ParsePipe;
      var left := ParsePipe();
      if left.Panic? {
        return left;
      }
      var c := left.value;
      SpacesIrrelevant(buf, pos);
      BacksSkip(buf, pos, c);
      var back := Peek("&");
      while back
        invariant Valid() && back == Shell.Peek(buf, pos, "&") && Skip(buf, pos) == pos && left.pos <= pos
        invariant Backs(buf, left.pos, left.value) == Backs(buf, pos, c)
        decreases |buf| - pos
      {
        PeekToken(buf, pos);
        var tok := GetToken();
        c := Back(c);
        SpacesIrrelevant(buf, pos);
        BacksSkip(buf, pos, c);
        back := Peek("&");
      }
      var semi := Peek(";");
      if !semi {
        return Ok(c, pos);
      }
      PeekToken(buf, pos);
      var tok := GetToken();
      var right := ParseLine();
      if right.Panic? {
        return right;
      }
      return Ok(List(c, right.value), pos);
    }
  }
}

/**
 After parsing, `nulterminate` overwrites the character behind every word with
 a NUL. Every argument and every file name is then a C string equal to the word
 in the line, because no word ends inside another one.
 */
module ShellStrings {
  import opened Shell
  import ShellParser

  // ---- Every place in a parsed command is a whole word ----

  /** A whole word of the line: word characters, and none behind. */
  ghost predicate WholeWord(buf: string, s: Span)
  {
    && s.q < s.eq <= |buf|
    && (forall i :: s.q <= i < s.eq ==> IsWordChar(buf[i]))
    && (s.eq < |buf| ==> !IsWordChar(buf[s.eq]))
  }

  ghost predicate WholeWords(buf: string, c: Cmd)
  {
    match c
    case Exec(args) => forall i :: 0 <= i < |args| ==> WholeWord(buf, args[i])
    case Redir(d, r) => WholeWords(buf, d) && WholeWord(buf, r.file)
    case Pipe(l, r) => WholeWords(buf, l) && WholeWords(buf, r)
    case List(l, r) => WholeWords(buf, l) && WholeWords(buf, r)
    case Back(d) => WholeWords(buf, d)
  }

  lemma TokenIsWord(buf: string, s: nat)
    requires s <= |buf| && IsLine(buf) && GetToken(buf, s).kind == 'a'
    ensures WholeWord(buf, Span(GetToken(buf, s).q, GetToken(buf, s).eq))
  {
  }

  ghost predicate WordFiles(buf: string, rs: seq<Redirection>)
  {
    forall i :: 0 <= i < |rs| ==> WholeWord(buf, rs[i].file)
  }

  lemma {:induction false} RedirsWhole(buf: string, s: nat)
    requires s <= |buf| && IsLine(buf) && Redirs(buf, s).Ok?
    ensures WordFiles(buf, Redirs(buf, s).value)
    decreases |buf| - s
  {
    hide Skip, GetToken, WordEnd, WholeWord;
    if Peek(buf, s, "<>") {
      PeekToken(buf, s);
      var file := GetToken(buf, GetToken(buf, s).next);
      TokenIsWord(buf, GetToken(buf, s).next);
      RedirsWhole(buf, file.next);
    }
  }

  lemma {:induction false} WrapWhole(buf: string, c: Cmd, rs: seq<Redirection>)
    requires WholeWords(buf, c) && WordFiles(buf, rs)
    ensures WholeWords(buf, Wrap(c, rs))
    decreases |rs|
  {
    hide WholeWord;
    if rs != [] {
      WrapWhole(buf, c, rs[..|rs| - 1]);
    }
  }

  lemma {:induction false} ArgsWhole(buf: string, s: nat, args: seq<Span>, rs: seq<Redirection>)
    requires s <= |buf| && IsLine(buf) && Args(buf, s, args, rs).Ok?
    requires WholeWords(buf, Exec(args)) && WordFiles(buf, rs)
    ensures WholeWords(buf, Args(buf, s, args, rs).value)
    decreases |buf| - s
  {
    hide Skip, GetToken, WordEnd, WholeWord, Redirs;
    WrapWhole(buf, Exec(args), rs);
    var tok := GetToken(buf, s);
    if !Peek(buf, s, "|)&;") && tok.kind == 'a' {
      TokenIsWord(buf, s);
      RedirsWhole(buf, tok.next);
      var more := Redirs(buf, tok.next);
      ArgsWhole(buf, more.pos, args + [Span(tok.q, tok.eq)], rs + more.value);
    }
  }

  lemma {:induction false} ExecWhole(buf: string, s: nat)
    requires s <= |buf| && IsLine(buf) && ParseExec(buf, s).Ok?
    ensures WholeWords(buf, ParseExec(buf, s).value)
    decreases |buf| - s, 1
  {
    hide Skip, GetToken, WordEnd, WholeWord, Redirs, Args, ParseBlock;
    if Peek(buf, s, "(") {
      BlockWhole(buf, s);
    } else {
      RedirsWhole(buf, s);
      var rs := Redirs(buf, s);
      ArgsWhole(buf, rs.pos, [], rs.value);
    }
  }

  lemma {:induction false} BlockWhole(buf: string, s: nat)
    requires s <= |buf| && IsLine(buf) && ParseBlock(buf, s).Ok?
    ensures WholeWords(buf, ParseBlock(buf, s).value)
    decreases |buf| - s, 0
  {
    hide Skip, GetToken, WordEnd, WholeWord, Redirs, Args, ParseLine;
    PeekToken(buf, s);
    LineWhole(buf, GetToken(buf, s).next);
    var line := ParseLine(buf, GetToken(buf, s).next);
    RedirsWhole(buf, GetToken(buf, line.pos).next);
    WrapWhole(buf, line.value, Redirs(buf, GetToken(buf, line.pos).next).value);
  }

  lemma {:induction false} PipeWhole(buf: string, s: nat)
    requires s <= |buf| && IsLine(buf) && ParsePipe(buf, s).Ok?
    ensures WholeWords(buf, ParsePipe(buf, s).value)
    decreases |buf| - s, 2
  {
    hide Skip, GetToken, WordEnd, WholeWord, ParseExec;
    ExecWhole(buf, s);
    var p := ParseExec(buf, s).pos;
    if Peek(buf, p, "|") {
      PeekToken(buf, p);
      PipeWhole(buf, GetToken(buf, p).next);
    }
  }

  lemma {:induction false} BacksWhole(buf: string, s: nat, c: Cmd)
    requires s <= |buf| && IsLine(buf) && WholeWords(buf, c)
    ensures WholeWords(buf, Backs(buf, s, c).value)
    decreases |buf| - s
  {
    hide Skip, GetToken, WordEnd, WholeWord;
    if Peek(buf, s, "&") {
      PeekToken(buf, s);
      BacksWhole(buf, GetToken(buf, s).next, Back(c));
    }
  }

  lemma {:induction false} LineWhole(buf: string, s: nat)
    requires s <= |buf| && IsLine(buf) && ParseLine(buf, s).Ok?
    ensures WholeWords(buf, ParseLine(buf, s).value)
    decreases |buf| - s, 3
  {
    hide Skip, GetToken, WordEnd, WholeWord, ParsePipe, Backs;
    PipeWhole(buf, s);
    var c := ParsePipe(buf, s);
    BacksWhole(buf, c.pos, c.value);
    var p := Backs(buf, c.pos, c.value).pos;
    if Peek(buf, p, ";") {
      PeekToken(buf, p);
      LineWhole(buf, GetToken(buf, p).next);
    }
  }

  // ---- Writing the NULs ----

  /** All the places a command refers to. */
  function Spans(c: Cmd): (ss: set<Span>)
  {
    match c
    case Exec(args) => set s | s in args
    case Redir(d, r) => Spans(d) + {r.file}
    case Pipe(l, r) => Spans(l) + Spans(r)
    case List(l, r) => Spans(l) + Spans(r)
    case Back(d) => Spans(d)
  }

  lemma {:induction false} SpansWhole(buf: string, c: Cmd)
    requires WholeWords(buf, c)
    ensures forall s :: s in Spans(c) ==> WholeWord(buf, s)
  {
    hide WholeWord;
    match c
    case Exec(args) =>
    case Redir(d, r) => SpansWhole(buf, d);
    case Pipe(l, r) => SpansWhole(buf, l); SpansWhole(buf, r);
    case List(l, r) => SpansWhole(buf, l); SpansWhole(buf, r);
    case Back(d) => SpansWhole(buf, d);
  }

  /** The C string that begins at `p`. */
  function CString(mem: string, p: nat): (w: string)
    decreases |mem| - p
  {
    if p < |mem| && mem[p] != '\0' then [mem[p]] + CString(mem, p + 1) else ""
  }

  lemma {:induction false} CStringUpTo(mem: string, p: nat, e: nat)
    requires p <= e < |mem| && mem[e] == '\0' && forall i :: p <= i < e ==> mem[i] != '\0'
    ensures CString(mem, p) == mem[p..e]
    decreases e - p
  {
    if p < e {
      CStringUpTo(mem, p + 1, e);
    }
  }

  /** `mem` is the NUL-terminated line with a NUL behind each of the words. */
  ghost predicate Terminated(mem: string, buf: string, ss: set<Span>)
  {
    |mem| == |buf| + 1 &&
    forall i :: 0 <= i < |mem| ==> mem[i] == if EndsAt(ss, i) || i == |buf| then '\0' else buf[i]
  }

  ghost predicate EndsAt(ss: set<Span>, i: nat)
  {
    exists s :: s in ss && s.eq == i
  }

  /** The words survive: none of them ends inside another one. */
  lemma TerminatedWord(mem: string, buf: string, ss: set<Span>, s: Span)
    requires IsLine(buf) && Terminated(mem, buf, ss) && s in ss && forall t :: t in ss ==> WholeWord(buf, t)
    ensures WholeWord(buf, s) && CString(mem, s.q) == buf[s.q..s.eq]
  {
    assert EndsAt(ss, s.eq) && mem[s.eq] == '\0';
    forall i | s.q <= i < s.eq
      ensures mem[i] == buf[i] != '\0'
    {
      assert IsWordChar(buf[i]);
      assert forall t :: t in ss ==> t.eq != i;
    }
    CStringUpTo(mem, s.q, s.eq);
    assert mem[s.q..s.eq] == buf[s.q..s.eq];
  }

  /** `nulterminate`. */
  method NulTerminate(a: array<char>, c: Cmd)
    requires forall s :: s in Spans(c) ==> s.eq < a.Length
    modifies a
    ensures forall i :: 0 <= i < a.Length ==> a[i] == if EndsAt(Spans(c), i) then '\0' else old(a[i])
    decreases c
  {
    match c
    case Exec(args) =>
      for i := 0 to |args|
        invariant forall k :: 0 <= k < a.Length ==> a[k] == if ArgEnds(args, i, k) then '\0' else old(a[k])
      {
        assert args[i] in Spans(c);
        a[args[i].eq] := '\0';
      }
    case Redir(d, r) =>
      NulTerminate(a, d);
      a[r.file.eq] := '\0';
    case Pipe(l, r) =>
      NulTerminate(a, l);
      NulTerminate(a, r);
    case List(l, r) =>
      NulTerminate(a, l);
      NulTerminate(a, r);
    case Back(d) =>
      NulTerminate(a, d);
  }

  ghost predicate ArgEnds(args: seq<Span>, n: nat, k: nat)
    requires n <= |args|
  {
    exists j :: 0 <= j < n && args[j].eq == k
  }

  /** `parsecmd` on a NUL-terminated line of `n` characters. */
  method ParseCmd(a: array<char>, n: nat) returns (r: Parsed<Cmd>)
    requires n < a.Length && a[n] == '\0' && IsLine(a[..n])
    modifies a
    ensures r == Shell.ParseCmd(old(a[..n]))
    ensures r.Ok? ==> Terminated(a[..n + 1], old(a[..n]), Spans(r.value))
    ensures r.Ok? ==> forall s :: s in Spans(r.value) ==>
      s.q < s.eq <= n && CString(a[..n + 1], s.q) == old(a[..n])[s.q..s.eq]
    ensures r.Panic? ==> a[..] == old(a[..])
  {
    var buf := a[..n];
    var parser := new ShellParser.Parser(buf);
    r := parser.ParseLine();
    if r.Panic? {
      return;
    }
    var more := parser.Peek("");
    if parser.pos != |buf| {
      return Panic(Leftovers);
    }
    var c := r.value;
    LineWhole(buf, 0);
    SpansWhole(buf, c);
    NulTerminate(a, c);
    ghost var mem := a[..n + 1];
    assert Terminated(mem, buf, Spans(c));
    forall s | s in Spans(c)
      ensures CString(mem, s.q) == buf[s.q..s.eq]
    {
      TerminatedWord(mem, buf, Spans(c), s);
    }
    r := Ok(c, n);
  }
}

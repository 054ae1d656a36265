/**
 Printing a command, with parentheses only where the grammar needs them, and
 parsing it again gives the same command.
 */
module ShellRoundTrip {
  import opened Shell
  import opened ShellGrammar
  import opened ShellTokens

  predicate IsWord(w: string)
  {
    w != "" && forall i :: 0 <= i < |w| ==> IsWordChar(w[i])
  }

  /** Words are words, and no command has too many of them. */
  predicate Printable(t: Tree)
  {
    match t
    case TExec(args) => |args| < MAXARGS && forall i :: 0 <= i < |args| ==> IsWord(args[i])
    case TRedir(c, file, output) => Printable(c) && IsWord(file)
    case TPipe(l, r) => Printable(l) && Printable(r)
    case TList(l, r) => Printable(l) && Printable(r)
    case TBack(c) => Printable(c)
  }

  // ---- A way to derive a command ----

  function Size(t: Tree): (n: nat)
  {
    match t
    case TExec(_) => 1
    case TRedir(c, _, _) => 1 + Size(c)
    case TPipe(l, r) => 1 + Size(l) + Size(r)
    case TList(l, r) => 1 + Size(l) + Size(r)
    case TBack(c) => 1 + Size(c)
  }

  function ArgItems(ws: seq<string>): (xs: List<Item>)
  {
    if ws == [] then Nil else Cons(Arg(ws[0]), ArgItems(ws[1..]))
  }

  function Snoc(xs: List<Item>, x: Item): (ys: List<Item>)
  {
    if xs.Nil? then Cons(x, Nil) else Cons(xs.head, Snoc(xs.tail, x))
  }

  function AddRedir(p: Part, x: Item): (q: Part)
  {
    match p
    case Simple(items) => Simple(Snoc(items, x))
    case Block(line, redirs) => Block(line, Snoc(redirs, x))
  }

  /** A command without the `&`s behind it. */
  function Core(t: Tree): (c: Tree)
    ensures Size(c) <= Size(t) && !c.TBack? && (t.TBack? ==> Size(c) < Size(t))
  {
    if t.TBack? then Core(t.cmd) else t
  }

  function Depth(t: Tree): (n: nat)
  {
    if t.TBack? then Depth(t.cmd) + 1 else 0
  }

  function PartOf(t: Tree): (p: Part)
    decreases Size(t), if t.TPipe? then 2 else if t.TBack? || t.TList? then 1 else 0
  {
    match t
    case TExec(args) => Simple(ArgItems(args))
    case TRedir(c, file, output) => AddRedir(PartOf(c), Into(if output then '>' else '<', file))
    case _ => Block(LineOf(t), Nil)
  }

  function PipeOf(t: Tree): (p: Pipeline)
    decreases Size(t), if t.TPipe? then 0 else if t.TBack? || t.TList? then 2 else 1
  {
    if t.TPipe? then Bar(PartOf(t.left), PipeOf(t.right)) else Single(PartOf(t))
  }

  function LineOf(t: Tree): (x: Line)
    decreases Size(t), if t.TPipe? then 1 else if t.TBack? || t.TList? then 0 else 2
  {
    if t.TList? then Semi(PipeOf(Core(t.left)), Depth(t.left), LineOf(t.right)) else Last(PipeOf(Core(t)), Depth(t))
  }

  // ---- It is allowed and means the command ----

  lemma {:induction false} BackedOut(t: Tree, n: nat)
    ensures Backed(t, n + 1) == TBack(Backed(t, n))
    decreases n
  {
    if n > 0 {
      BackedOut(TBack(t), n - 1);
    }
  }

  lemma {:induction false} BackedCore(t: Tree)
    ensures Backed(Core(t), Depth(t)) == t && (Printable(t) ==> Printable(Core(t)))
  {
    if t.TBack? {
      BackedCore(t.cmd);
      BackedOut(Core(t.cmd), Depth(t.cmd));
    }
  }

  lemma {:induction false} ArgItemsMean(ws: seq<string>)
    ensures ArgsOf(ArgItems(ws)) == ws && RedirsOf(ArgItems(ws)) == [] && ItemsOk(ArgItems(ws))
  {
    if ws != [] {
      ArgItemsMean(ws[1..]);
    }
  }

  lemma {:induction false} SnocMeans(xs: List<Item>, op: char, file: string)
    ensures ArgsOf(Snoc(xs, Into(op, file))) == ArgsOf(xs)
    ensures RedirsOf(Snoc(xs, Into(op, file))) == RedirsOf(xs) + [(file, op != '<')]
    ensures ItemsOk(xs) && IsArrow(op) ==> ItemsOk(Snoc(xs, Into(op, file)))
    ensures AllInto(xs) ==> AllInto(Snoc(xs, Into(op, file)))
  {
    if xs.Cons? {
      SnocMeans(xs.tail, op, file);
    }
  }

  lemma {:induction false} PartMeans(t: Tree)
    requires Printable(t)
    ensures PartOk(PartOf(t)) && PartTree(PartOf(t)) == t
    decreases Size(t), if t.TPipe? then 2 else if t.TBack? || t.TList? then 1 else 0
  {
    match t
    case TExec(args) => ArgItemsMean(args);
    case TRedir(c, file, output) =>
      PartMeans(c);
      var p := PartOf(c);
      var items := if p.Simple? then p.items else p.redirs;
      var inner := if p.Simple? then TExec(ArgsOf(p.items)) else LineTree(p.line);
      SnocMeans(items, if output then '>' else '<', file);
      RedirectedSnoc(inner, RedirsOf(items), file, output);
    case _ => LineMeans(t);
  }

  lemma {:induction false} PipeMeans(t: Tree)
    requires Printable(t)
    ensures PipeOk(PipeOf(t)) && PipeTree(PipeOf(t)) == t
    decreases Size(t), if t.TPipe? then 0 else if t.TBack? || t.TList? then 2 else 1
  {
    if t.TPipe? {
      PartMeans(t.left);
      PipeMeans(t.right);
    } else {
      PartMeans(t);
    }
  }

  lemma {:induction false} LineMeans(t: Tree)
    requires Printable(t)
    ensures LineOk(LineOf(t)) && LineTree(LineOf(t)) == t
    decreases Size(t), if t.TPipe? then 1 else if t.TBack? || t.TList? then 0 else 2
  {
    var first := if t.TList? then t.left else t;
    BackedCore(first);
    PipeMeans(Core(first));
    if t.TList? {
      LineMeans(t.right);
    }
  }

  // ---- Printing tokens ----

  function TokText(t: Tok): (s: string)
  {
    match t
    case Word(w) => w
    case Sym(c) => if c == '+' then ">>" else [c]
  }

  /** The tokens, each followed by a space. */
  function Render(ts: List<Tok>): (s: string)
  {
    if ts.Nil? then "" else TokText(ts.head) + " " + Render(ts.tail)
  }

  function Print(t: Tree): (s: string)
  {
    Render(LineToks(LineOf(t), Nil))
  }

  predicate Lexical(t: Tok)
  {
    match t
    case Word(w) => IsWord(w)
    case Sym(c) => IsSymbol(c) || c == '+'
  }

  predicate AllLexical(ts: List<Tok>)
  {
    ts.Cons? ==> Lexical(ts.head) && AllLexical(ts.tail)
  }

  lemma LexicalText(t: Tok)
    requires Lexical(t)
    ensures TokText(t) != "" && !IsSpace(TokText(t)[0]) && IsLine(TokText(t))
  {
  }

  lemma {:induction false} RenderIsLine(ts: List<Tok>)
    requires AllLexical(ts)
    ensures IsLine(Render(ts)) && (ts.Cons? ==> Render(ts) != "" && !IsSpace(Render(ts)[0]))
  {
    if ts.Cons? {
      LexicalText(ts.head);
      RenderIsLine(ts.tail);
    }
  }

  lemma SkipNone(buf: string, s: nat)
    requires s <= |buf| && (s < |buf| ==> !IsSpace(buf[s]))
    ensures Skip(buf, s) == s
  {
  }

  lemma SkipOne(buf: string, s: nat)
    requires s < |buf| && buf[s] == ' ' && (s + 1 < |buf| ==> !IsSpace(buf[s + 1]))
    ensures Skip(buf, s) == s + 1
  {
  }

  lemma {:induction false} WordEndAt(buf: string, s: nat, e: nat)
    requires s <= e < |buf| && buf[e] == ' ' && forall i :: s <= i < e ==> IsWordChar(buf[i])
    ensures WordEnd(buf, s) == e
    decreases e - s
  {
    if s < e {
      WordEndAt(buf, s + 1, e);
    }
  }

  /** `gettoken` finds a printed token. */
  lemma FindsToken(buf: string, p: nat, t: Tok)
    requires Lexical(t) && p + |TokText(t)| < |buf| && buf[p..p + |TokText(t)|] == TokText(t)
    requires var e := p + |TokText(t)|; buf[e] == ' ' && (e + 1 < |buf| ==> !IsSpace(buf[e + 1]))
    ensures GetToken(buf, p).next == p + |TokText(t)| + 1 && GetToken(buf, p).kind != '\0' && FirstTok(buf, p) == t
  {
    hide Skip, WordEnd;
    var x := TokText(t);
    var e := p + |x|;
    LexicalText(t);
    assert forall i :: 0 <= i < |x| ==> buf[p + i] == x[i];
    assert buf[p] == x[0];
    SkipNone(buf, p);
    SkipOne(buf, e);
    if t.Word? {
      assert forall i :: p <= i < e ==> buf[i] == x[i - p];
      WordEndAt(buf, p, e);
    } else if t.c == '+' {
      assert buf[p + 1] == x[1];
    }
  }

  /** The tokens of what was printed are what was printed. */
  lemma {:induction false} RenderToks(buf: string, p: nat, ts: List<Tok>)
    requires p <= |buf| && IsLine(buf) && AllLexical(ts) && buf[p..] == Render(ts)
    ensures Toks(buf, p) == ts
    decreases ts
  {
    hide Skip, WordEnd, GetToken, FirstTok, Lexical, TokText;
    if ts.Nil? {
      EndOfLine(buf);
    } else {
      var x := TokText(ts.head);
      var e := p + |x|;
      RenderIsLine(ts.tail);
      Pieces(buf, p, x, Render(ts.tail));
      FindsToken(buf, p, ts.head);
      RenderToks(buf, e + 1, ts.tail);
    }
  }

  lemma EndOfLine(buf: string)
    requires IsLine(buf)
    ensures Toks(buf, |buf|) == Nil
  {
  }

  lemma Pieces(buf: string, p: nat, x: string, more: string)
    requires p <= |buf| && buf[p..] == x + " " + more
    ensures var e := p + |x|;
            && e < |buf| && buf[p..e] == x && buf[e] == ' ' && buf[e + 1..] == more
            && (more != "" ==> e + 1 < |buf| && buf[e + 1] == more[0])
  {
    var e := p + |x|;
    var r := x + " " + more;
    assert buf[p..e] == r[..|x|] && buf[e] == r[|x|] && buf[e + 1..] == r[|x| + 1..];
  }

  // ---- What is printed is lexical ----

  predicate WordItems(xs: List<Item>)
  {
    match xs
    case Nil => true
    case Cons(Arg(w), more) => IsWord(w) && WordItems(more)
    case Cons(Into(op, file), more) => IsArrow(op) && IsWord(file) && WordItems(more)
  }

  lemma {:induction false} ItemsLexical(xs: List<Item>, rest: List<Tok>)
    requires WordItems(xs) && AllLexical(rest)
    ensures AllLexical(ItemsToks(xs, rest))
  {
    if xs.Cons? {
      ItemsLexical(xs.tail, rest);
    }
  }

  lemma {:induction false} ArgItemsWords(ws: seq<string>)
    requires forall i :: 0 <= i < |ws| ==> IsWord(ws[i])
    ensures WordItems(ArgItems(ws))
  {
    if ws != [] {
      ArgItemsWords(ws[1..]);
    }
  }

  lemma {:induction false} SnocWords(xs: List<Item>, x: Item)
    requires WordItems(xs) && WordItems(Cons(x, Nil))
    ensures WordItems(Snoc(xs, x))
  {
    if xs.Cons? {
      SnocWords(xs.tail, x);
    }
  }

  predicate WordPart(x: Part)
  {
    match x
    case Simple(items) => WordItems(items)
    case Block(line, redirs) => WordLine(line) && WordItems(redirs)
  }

  predicate WordPipe(x: Pipeline)
  {
    match x
    case Single(part) => WordPart(part)
    case Bar(part, rest) => WordPart(part) && WordPipe(rest)
  }

  predicate WordLine(x: Line)
  {
    match x
    case Last(pipe, _) => WordPipe(pipe)
    case Semi(pipe, _, rest) => WordPipe(pipe) && WordLine(rest)
  }

  lemma {:induction false} PartWords(t: Tree)
    requires Printable(t)
    ensures WordPart(PartOf(t))
    decreases Size(t), if t.TPipe? then 2 else if t.TBack? || t.TList? then 1 else 0
  {
    hide IsWord;
    match t
    case TExec(args) => ArgItemsWords(args);
    case TRedir(c, file, output) =>
      PartWords(c);
      var p := PartOf(c);
      SnocWords(if p.Simple? then p.items else p.redirs, Into(if output then '>' else '<', file));
    case _ => LineWords(t);
  }

  lemma {:induction false} PipeWords(t: Tree)
    requires Printable(t)
    ensures WordPipe(PipeOf(t))
    decreases Size(t), if t.TPipe? then 0 else if t.TBack? || t.TList? then 2 else 1
  {
    if t.TPipe? {
      PartWords(t.left);
      PipeWords(t.right);
    } else {
      PartWords(t);
    }
  }

  lemma {:induction false} LineWords(t: Tree)
    requires Printable(t)
    ensures WordLine(LineOf(t))
    decreases Size(t), if t.TPipe? then 1 else if t.TBack? || t.TList? then 0 else 2
  {
    var first := if t.TList? then t.left else t;
    BackedCore(first);
    PipeWords(Core(first));
    if t.TList? {
      LineWords(t.right);
    }
  }

  lemma {:induction false} PartLexical(x: Part, rest: List<Tok>)
    requires WordPart(x) && AllLexical(rest)
    ensures AllLexical(PartToks(x, rest))
    decreases x
  {
    match x
    case Simple(items) => ItemsLexical(items, rest);
    case Block(line, redirs) =>
      ItemsLexical(redirs, rest);
      LineLexical(line, Cons(Sym(')'), ItemsToks(redirs, rest)));
  }

  lemma {:induction false} PipeLexical(x: Pipeline, rest: List<Tok>)
    requires WordPipe(x) && AllLexical(rest)
    ensures AllLexical(PipeToks(x, rest))
    decreases x
  {
    match x
    case Single(part) => PartLexical(part, rest);
    case Bar(part, more) =>
      PipeLexical(more, rest);
      PartLexical(part, Cons(Sym('|'), PipeToks(more, rest)));
  }

  lemma {:induction false} AmpsLexical(n: nat, rest: List<Tok>)
    requires AllLexical(rest)
    ensures AllLexical(Amps(n, rest))
  {
    if n > 0 {
      AmpsLexical(n - 1, rest);
    }
  }

  lemma {:induction false} LineLexical(x: Line, rest: List<Tok>)
    requires WordLine(x) && AllLexical(rest)
    ensures AllLexical(LineToks(x, rest))
    decreases x
  {
    if x.Semi? {
      LineLexical(x.rest, rest);
    }
    var behind := if x.Last? then rest else Cons(Sym(';'), LineToks(x.rest, rest));
    AmpsLexical(x.backs, behind);
    PipeLexical(x.pipe, Amps(x.backs, behind));
  }

  // ---- The round trip ----

  /** Parsing a printed command gives the command back. */
  lemma RoundTrip(t: Tree)
    requires Printable(t)
    ensures IsLine(Print(t)) && ParseCmd(Print(t)).Ok?
    ensures TreeOf(Print(t), ParseCmd(Print(t)).value) == t
  {
    hide Toks, ParseCmd, LineToks, TreeOf, LineOf, LineTree, LineOk, Printable;
    var x := LineOf(t);
    var ts := LineToks(x, Nil);
    LineMeans(t);
    LineWords(t);
    LineLexical(x, Nil);
    RenderIsLine(ts);
    RenderToks(Print(t), 0, ts);
    assert Derives(ts, t);
    AcceptedIffDerived(Print(t), t);
  }
}

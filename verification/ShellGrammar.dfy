/**
 What a command line means: a grammar on lists of tokens, and a parser of tokens
 that accepts exactly what the grammar derives.
 */
module ShellGrammar {
  import opened Shell

  /** A command with its words spelled out. */
  datatype Tree =
    | TExec(args: seq<string>)
    | TRedir(cmd: Tree, file: string, output: bool)
    | TPipe(left: Tree, right: Tree)
    | TList(left: Tree, right: Tree)
    | TBack(cmd: Tree)

  /** A word, or a symbol by the kind that `gettoken` gives it: `+` for `>>`. */
  datatype Tok = Word(w: string) | Sym(c: char)

  datatype List<T> = Nil | Cons(head: T, tail: List<T>)

  predicate IsArrow(c: char)
  {
    c == '<' || c == '>' || c == '+'
  }

  // ---- The grammar ----

  /** A word or a redirection. */
  datatype Item = Arg(w: string) | Into(op: char, file: string)

  /** Words and redirections in any order, or a line in parentheses and
      redirections behind it. */
  datatype Part = Simple(items: List<Item>) | Block(line: Line, redirs: List<Item>)

  datatype Pipeline = Single(part: Part) | Bar(part: Part, rest: Pipeline)

  /** A pipeline, any number of `&`s, and perhaps `;` and another line. */
  datatype Line = Last(pipe: Pipeline, backs: nat) | Semi(pipe: Pipeline, backs: nat, rest: Line)

  /** The tokens of each, with `rest` behind them. */
  function ItemsToks(xs: List<Item>, rest: List<Tok>): (ts: List<Tok>)
  {
    match xs
    case Nil => rest
    case Cons(Arg(w), more) => Cons(Word(w), ItemsToks(more, rest))
    case Cons(Into(op, file), more) => Cons(Sym(op), Cons(Word(file), ItemsToks(more, rest)))
  }

  function PartToks(x: Part, rest: List<Tok>): (ts: List<Tok>)
  {
    match x
    case Simple(items) => ItemsToks(items, rest)
    case Block(line, redirs) => Cons(Sym('('), LineToks(line, Cons(Sym(')'), ItemsToks(redirs, rest))))
  }

  function PipeToks(x: Pipeline, rest: List<Tok>): (ts: List<Tok>)
  {
    match x
    case Single(part) => PartToks(part, rest)
    case Bar(part, more) => PartToks(part, Cons(Sym('|'), PipeToks(more, rest)))
  }

  function Amps(n: nat, rest: List<Tok>): (ts: List<Tok>)
  {
    if n == 0 then rest else Cons(Sym('&'), Amps(n - 1, rest))
  }

  function LineToks(x: Line, rest: List<Tok>): (ts: List<Tok>)
  {
    match x
    case Last(pipe, backs) => PipeToks(pipe, Amps(backs, rest))
    case Semi(pipe, backs, more) => PipeToks(pipe, Amps(backs, Cons(Sym(';'), LineToks(more, rest))))
  }

  // ---- What it means ----

  function ArgsOf(xs: List<Item>): (ws: seq<string>)
  {
    match xs
    case Nil => []
    case Cons(Arg(w), more) => [w] + ArgsOf(more)
    case Cons(Into(_, _), more) => ArgsOf(more)
  }

  function RedirsOf(xs: List<Item>): (rs: seq<(string, bool)>)
  {
    match xs
    case Nil => []
    case Cons(Arg(_), more) => RedirsOf(more)
    case Cons(Into(op, file), more) => [(file, op != '<')] + RedirsOf(more)
  }

  /** Redirections around a command, the first one innermost. */
  function Redirected(t: Tree, rs: seq<(string, bool)>): (r: Tree)
    decreases |rs|
  {
    if rs == [] then t else Redirected(TRedir(t, rs[0].0, rs[0].1), rs[1..])
  }

  function Backed(t: Tree, n: nat): (r: Tree)
    decreases n
  {
    if n == 0 then t else Backed(TBack(t), n - 1)
  }

  function PartTree(x: Part): (t: Tree)
  {
    match x
    case Simple(items) => Redirected(TExec(ArgsOf(items)), RedirsOf(items))
    case Block(line, redirs) => Redirected(LineTree(line), RedirsOf(redirs))
  }

  function PipeTree(x: Pipeline): (t: Tree)
  {
    match x
    case Single(part) => PartTree(part)
    case Bar(part, more) => TPipe(PartTree(part), PipeTree(more))
  }

  function LineTree(x: Line): (t: Tree)
  {
    match x
    case Last(pipe, backs) => Backed(PipeTree(pipe), backs)
    case Semi(pipe, backs, more) => TList(Backed(PipeTree(pipe), backs), LineTree(more))
  }

  // ---- What is allowed ----

  predicate ItemsOk(xs: List<Item>)
  {
    xs.Cons? ==> (xs.head.Into? ==> IsArrow(xs.head.op)) && ItemsOk(xs.tail)
  }

  predicate AllInto(xs: List<Item>)
  {
    xs.Cons? ==> xs.head.Into? && AllInto(xs.tail)
  }

  /** Only redirections follow parentheses, and no command has MAXARGS words. */
  predicate PartOk(x: Part)
  {
    match x
    case Simple(items) => ItemsOk(items) && |ArgsOf(items)| < MAXARGS
    case Block(line, redirs) => LineOk(line) && ItemsOk(redirs) && AllInto(redirs)
  }

  predicate PipeOk(x: Pipeline)
  {
    match x
    case Single(part) => PartOk(part)
    case Bar(part, more) => PartOk(part) && PipeOk(more)
  }

  predicate LineOk(x: Line)
  {
    match x
    case Last(pipe, _) => PipeOk(pipe)
    case Semi(pipe, _, more) => PipeOk(pipe) && LineOk(more)
  }

  /** The grammar derives `ts` with the meaning `t`. */
  ghost predicate Derives(ts: List<Tok>, t: Tree)
  {
    exists x :: LineOk(x) && LineToks(x, Nil) == ts && LineTree(x) == t
  }

  // ---- A parser of tokens ----

  datatype Result = Done(tree: Tree, rest: List<Tok>) | Fail

  function Len(ts: List<Tok>): (n: nat)
  {
    if ts.Nil? then 0 else 1 + Len(ts.tail)
  }

  /** Is the next token the symbol `c`? */
  predicate Next(ts: List<Tok>, c: char)
  {
    ts.Cons? && ts.head == Sym(c)
  }

  predicate NextArrow(ts: List<Tok>)
  {
    ts.Cons? && ts.head.Sym? && IsArrow(ts.head.c)
  }

  /** A simple command ends here. */
  predicate AtEnd(ts: List<Tok>)
  {
    ts.Nil? || Next(ts, '|') || Next(ts, ')') || Next(ts, '&') || Next(ts, ';')
  }

  predicate Shrinks(r: Result, ts: List<Tok>)
  {
    r.Done? ==> Len(r.rest) <= Len(ts)
  }

  function ReadItems(ts: List<Tok>, args: seq<string>, rs: seq<(string, bool)>): (r: Result)
    ensures Shrinks(r, ts)
    decreases ts
  {
    assert ts.Cons? && ts.tail.Cons? ==> Len(ts.tail.tail) <= Len(ts);
    if AtEnd(ts) then Done(Redirected(TExec(args), rs), ts)
    else if ts.head.Word? then
      if |args| + 1 >= MAXARGS then Fail else ReadItems(ts.tail, args + [ts.head.w], rs)
    else if NextArrow(ts) && ts.tail.Cons? && ts.tail.head.Word? then
      ReadItems(ts.tail.tail, args, rs + [(ts.tail.head.w, ts.head.c != '<')])
    else Fail
  }

  function ReadRedirs(ts: List<Tok>, t: Tree): (r: Result)
    ensures Shrinks(r, ts)
    decreases ts
  {
    assert ts.Cons? && ts.tail.Cons? ==> Len(ts.tail.tail) <= Len(ts);
    if !NextArrow(ts) then Done(t, ts)
    else if ts.tail.Cons? && ts.tail.head.Word? then
      ReadRedirs(ts.tail.tail, TRedir(t, ts.tail.head.w, ts.head.c != '<'))
    else Fail
  }

  function ReadPart(ts: List<Tok>): (r: Result)
    ensures Shrinks(r, ts)
    decreases Len(ts), 0
  {
    if Next(ts, '(') then
      var line := ReadLine(ts.tail);
      if line.Done? && Next(line.rest, ')') then ReadRedirs(line.rest.tail, line.tree) else Fail
    else ReadItems(ts, [], [])
  }

  function ReadPipe(ts: List<Tok>): (r: Result)
    ensures Shrinks(r, ts)
    decreases Len(ts), 1
  {
    var part := ReadPart(ts);
    if part.Done? && Next(part.rest, '|') then
      var more := ReadPipe(part.rest.tail);
      if more.Done? then Done(TPipe(part.tree, more.tree), more.rest) else Fail
    else part
  }

  function ReadBacks(ts: List<Tok>, t: Tree): (r: Result)
    ensures Shrinks(r, ts) && r.Done?
    decreases ts
  {
    if Next(ts, '&') then ReadBacks(ts.tail, TBack(t)) else Done(t, ts)
  }

  function ReadLine(ts: List<Tok>): (r: Result)
    ensures Shrinks(r, ts)
    decreases Len(ts), 2
  {
    var pipe := ReadPipe(ts);
    if pipe.Fail? then Fail
    else
      var backs := ReadBacks(pipe.rest, pipe.tree);
      if Next(backs.rest, ';') then
        var more := ReadLine(backs.rest.tail);
        if more.Done? then Done(TList(backs.tree, more.tree), more.rest) else Fail
      else backs
  }

  // ---- What is derived is read ----

  lemma {:induction false} ItemsAreRead(xs: List<Item>, rest: List<Tok>, args: seq<string>, rs: seq<(string, bool)>)
    requires ItemsOk(xs) && AtEnd(rest) && |args| + |ArgsOf(xs)| < MAXARGS
    ensures ReadItems(ItemsToks(xs, rest), args, rs) ==
            Done(Redirected(TExec(args + ArgsOf(xs)), rs + RedirsOf(xs)), rest)
    decreases xs
  {
    hide Redirected;
    match xs
    case Nil =>
      assert args + [] == args && rs + [] == rs;
    case Cons(Arg(w), more) =>
      ItemsAreRead(more, rest, args + [w], rs);
      assert args + [w] + ArgsOf(more) == args + ([w] + ArgsOf(more));
    case Cons(Into(op, file), more) =>
      ItemsAreRead(more, rest, args, rs + [(file, op != '<')]);
      assert rs + [(file, op != '<')] + RedirsOf(more) == rs + ([(file, op != '<')] + RedirsOf(more));
  }

  lemma {:induction false} RedirsAreRead(xs: List<Item>, rest: List<Tok>, t: Tree)
    requires ItemsOk(xs) && AllInto(xs) && !NextArrow(rest)
    ensures ReadRedirs(ItemsToks(xs, rest), t) == Done(Redirected(t, RedirsOf(xs)), rest)
    decreases xs
  {
    if xs.Cons? {
      RedirsAreRead(xs.tail, rest, TRedir(t, xs.head.file, xs.head.op != '<'));
    }
  }

  lemma {:induction false} NoParen(xs: List<Item>, rest: List<Tok>)
    requires ItemsOk(xs) && AtEnd(rest)
    ensures !Next(ItemsToks(xs, rest), '(')
  {
  }

  lemma {:induction false} PartIsRead(x: Part, rest: List<Tok>)
    requires PartOk(x) && AtEnd(rest)
    ensures ReadPart(PartToks(x, rest)) == Done(PartTree(x), rest)
    decreases x
  {
    hide Redirected, ReadItems, ReadRedirs, ReadLine;
    match x
    case Simple(items) =>
      NoParen(items, rest);
      ItemsAreRead(items, rest, [], []);
      assert [] + ArgsOf(items) == ArgsOf(items);
      assert [] + RedirsOf(items) == RedirsOf(items);
    case Block(line, redirs) =>
      var behind := ItemsToks(redirs, rest);
      LineIsRead(line, Cons(Sym(')'), behind));
      RedirsAreRead(redirs, rest, LineTree(line));
  }

  lemma {:induction false} PipeIsRead(x: Pipeline, rest: List<Tok>)
    requires PipeOk(x) && AtEnd(rest) && !Next(rest, '|')
    ensures ReadPipe(PipeToks(x, rest)) == Done(PipeTree(x), rest)
    decreases x
  {
    hide ReadPart, PartTree, PartToks;
    match x
    case Single(part) => PartIsRead(part, rest);
    case Bar(part, more) =>
      PartIsRead(part, Cons(Sym('|'), PipeToks(more, rest)));
      PipeIsRead(more, rest);
  }

  lemma {:induction false} BacksAreRead(n: nat, rest: List<Tok>, t: Tree)
    requires !Next(rest, '&')
    ensures ReadBacks(Amps(n, rest), t) == Done(Backed(t, n), rest)
    ensures AtEnd(rest) ==> AtEnd(Amps(n, rest))
    ensures !Next(rest, '|') ==> !Next(Amps(n, rest), '|')
    decreases n
  {
    if n > 0 {
      BacksAreRead(n - 1, rest, TBack(t));
    }
  }

  lemma {:induction false} LineIsRead(x: Line, rest: List<Tok>)
    requires LineOk(x) && (rest.Nil? || Next(rest, ')'))
    ensures ReadLine(LineToks(x, rest)) == Done(LineTree(x), rest)
    decreases x
  {
    hide ReadPipe, PipeTree, PipeToks, ReadBacks, Backed, Amps;
    var behind := if x.Last? then rest else Cons(Sym(';'), LineToks(x.rest, rest));
    BacksAreRead(x.backs, behind, PipeTree(x.pipe));
    PipeIsRead(x.pipe, Amps(x.backs, behind));
    if x.Semi? {
      LineIsRead(x.rest, rest);
    }
  }

  // ---- What is read is derived ----

  lemma {:induction false} ItemsAreDerived(ts: List<Tok>, args: seq<string>,
                                           rs: seq<(string, bool)>) returns (xs: List<Item>)
    requires |args| < MAXARGS && ReadItems(ts, args, rs).Done?
    ensures ItemsOk(xs) && |args| + |ArgsOf(xs)| < MAXARGS && ts == ItemsToks(xs, ReadItems(ts, args, rs).rest)
    ensures ReadItems(ts, args, rs).tree == Redirected(TExec(args + ArgsOf(xs)), rs + RedirsOf(xs))
    decreases ts
  {
    hide Redirected;
    if AtEnd(ts) {
      xs := Nil;
      assert args + [] == args && rs + [] == rs;
    } else if ts.head.Word? {
      var w := ts.head.w;
      var more := ItemsAreDerived(ts.tail, args + [w], rs);
      xs := Cons(Arg(w), more);
      assert args + [w] + ArgsOf(more) == args + ([w] + ArgsOf(more));
    } else {
      var one := (ts.tail.head.w, ts.head.c != '<');
      var more := ItemsAreDerived(ts.tail.tail, args, rs + [one]);
      xs := Cons(Into(ts.head.c, ts.tail.head.w), more);
      assert rs + [one] + RedirsOf(more) == rs + ([one] + RedirsOf(more));
    }
  }

  lemma {:induction false} RedirsAreDerived(ts: List<Tok>, t: Tree) returns (xs: List<Item>)
    requires ReadRedirs(ts, t).Done?
    ensures ItemsOk(xs) && AllInto(xs) && ts == ItemsToks(xs, ReadRedirs(ts, t).rest)
    ensures ReadRedirs(ts, t).tree == Redirected(t, RedirsOf(xs))
    decreases ts
  {
    if NextArrow(ts) {
      var more := RedirsAreDerived(ts.tail.tail, TRedir(t, ts.tail.head.w, ts.head.c != '<'));
      xs := Cons(Into(ts.head.c, ts.tail.head.w), more);
    } else {
      xs := Nil;
    }
  }

  lemma {:induction false} PartIsDerived(ts: List<Tok>) returns (x: Part)
    requires ReadPart(ts).Done?
    ensures PartOk(x) && ts == PartToks(x, ReadPart(ts).rest) && ReadPart(ts).tree == PartTree(x)
    decreases Len(ts), 0
  {
    hide ReadItems, ReadRedirs, ReadLine, Redirected;
    if Next(ts, '(') {
      var inner := ReadLine(ts.tail);
      var line := LineIsDerived(ts.tail);
      var redirs := RedirsAreDerived(inner.rest.tail, inner.tree);
      x := Block(line, redirs);
    } else {
      var items := ItemsAreDerived(ts, [], []);
      x := Simple(items);
      assert [] + ArgsOf(items) == ArgsOf(items);
      assert [] + RedirsOf(items) == RedirsOf(items);
    }
  }

  lemma {:induction false} PipeIsDerived(ts: List<Tok>) returns (x: Pipeline)
    requires ReadPipe(ts).Done?
    ensures PipeOk(x) && ts == PipeToks(x, ReadPipe(ts).rest) && ReadPipe(ts).tree == PipeTree(x)
    decreases Len(ts), 1
  {
    hide ReadPart;
    var part := PartIsDerived(ts);
    var rest := ReadPart(ts).rest;
    if Next(rest, '|') {
      var more := PipeIsDerived(rest.tail);
      x := Bar(part, more);
    } else {
      x := Single(part);
    }
  }

  lemma {:induction false} BacksAreDerived(ts: List<Tok>, t: Tree) returns (n: nat)
    ensures ts == Amps(n, ReadBacks(ts, t).rest) && ReadBacks(ts, t).tree == Backed(t, n)
    decreases ts
  {
    if Next(ts, '&') {
      var m := BacksAreDerived(ts.tail, TBack(t));
      n := m + 1;
    } else {
      n := 0;
    }
  }

  lemma {:induction false} LineIsDerived(ts: List<Tok>) returns (x: Line)
    requires ReadLine(ts).Done?
    ensures LineOk(x) && ts == LineToks(x, ReadLine(ts).rest) && ReadLine(ts).tree == LineTree(x)
    decreases Len(ts), 2
  {
    hide ReadPipe, ReadBacks;
    var pipe := PipeIsDerived(ts);
    var read := ReadPipe(ts);
    var n := BacksAreDerived(read.rest, read.tree);
    var rest := ReadBacks(read.rest, read.tree).rest;
    if Next(rest, ';') {
      var more := LineIsDerived(rest.tail);
      x := Semi(pipe, n, more);
    } else {
      x := Last(pipe, n);
    }
  }

  /** A list of tokens is read to its end as `t` if and only if the grammar
      derives it with the meaning `t`. */
  lemma ReadIffDerived(ts: List<Tok>, t: Tree)
    ensures ReadLine(ts) == Done(t, Nil) <==> Derives(ts, t)
  {
    hide ReadLine, LineToks, LineTree, LineOk;
    if ReadLine(ts) == Done(t, Nil) {
      var x := LineIsDerived(ts);
    }
    if Derives(ts, t) {
      var x :| LineOk(x) && LineToks(x, Nil) == ts && LineTree(x) == t;
      LineIsRead(x, Nil);
    }
  }

  /** No list of tokens has two meanings. */
  lemma Unambiguous(ts: List<Tok>, t: Tree, u: Tree)
    requires Derives(ts, t) && Derives(ts, u)
    ensures t == u
  {
    ReadIffDerived(ts, t);
    ReadIffDerived(ts, u);
  }
}

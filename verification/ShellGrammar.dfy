/** The language of the shell as a grammar over lexemes, and the parser of user/sh.c against it: it
    accepts exactly the lines of the grammar, with the tree that the grammar gives them. */
module ShellGrammar {
  import opened Shell

  // ------------------------------------------------------------------ lexemes

  /** A word with its place in the line, or a symbol; '+' stands for ">>". */
  datatype Lexeme<W> = Word(tok: W) | Sym(kind: char)

  function AsLexeme(g: Got): (x: Lexeme<Token>) {
    if g.kind == 'a' then Word(g.tok) else Sym(g.kind)
  }

  /** The lexemes of the line from i on. */
  ghost function Lex(s: string, i: nat): (r: seq<Lexeme<Token>>)
    requires i <= |s| && Line(s)
    decreases |s| - i
  {
    var g := GetToken(s, i);
    if g.kind == '\0' then [] else [AsLexeme(g)] + Lex(s, g.pos)
  }

  predicate IsKind(c: char) {
    IsSymbol(c) || c == '+'
  }

  /** The first character of a lexeme that is a symbol. */
  function FirstOf(kind: char): (c: char) {
    if kind == '+' then '>' else kind
  }

  lemma SkipTwice(s: string, i: nat)
    requires i <= |s|
    ensures SkipSpace(s, SkipSpace(s, i)) == SkipSpace(s, i)
  {
  }

  lemma LexSkips(s: string, i: nat)
    requires i <= |s| && Line(s)
    ensures Lex(s, SkipSpace(s, i)) == Lex(s, i)
  {
    hide GetToken, SkipSpace;
    SameToken(s, i);
  }

  lemma SameToken(s: string, i: nat)
    requires i <= |s|
    ensures GetToken(s, SkipSpace(s, i)) == GetToken(s, i)
  {
    hide SkipSpace, SkipWord;
    SkipTwice(s, i);
  }

  /** How peek and gettoken see the next lexeme. */
  lemma NextLexeme(s: string, i: nat)
    requires i <= |s| && Line(s)
    ensures var ls, c, g := Lex(s, i), CharAt(s, SkipSpace(s, i)), GetToken(s, i);
            if ls == [] then c == '\0' && g.kind == '\0' && SkipSpace(s, i) == |s|
            else
              && c != '\0' && ls == [ls[0]] + Lex(s, g.pos) && i < g.pos
              && if ls[0].Word? then g.kind == 'a' && g.tok == ls[0].tok && IsWordChar(c)
                 else g.kind == ls[0].kind && IsKind(g.kind) && c == FirstOf(g.kind)
  {
    hide SkipSpace, SkipWord;
  }

  /** gettoken takes the first lexeme. */
  lemma TakeLexeme(s: string, i: nat, x: Lexeme<Token>, rest: seq<Lexeme<Token>>)
    requires i <= |s| && Line(s) && Lex(s, i) == [x] + rest
    ensures var c, g := CharAt(s, SkipSpace(s, i)), GetToken(s, i);
            && c != '\0' && Lex(s, g.pos) == rest && i < g.pos
            && if x.Word? then g.kind == 'a' && g.tok == x.tok && IsWordChar(c)
               else g.kind == x.kind && IsKind(g.kind) && c == FirstOf(g.kind)
  {
    hide Lex, GetToken, SkipSpace;
    NextLexeme(s, i);
    assert rest == Lex(s, i)[1..];
  }

  // ------------------------------------------------------------------ the grammar

  /** An argument, or a redirection to a file. */
  datatype Item<W> = Arg(word: W) | To(kind: Redirection, file: W)

  /** Words and redirections in any order, or a line in parentheses with redirections after it. */
  datatype Command<W> = Simple(items: seq<Item<W>>) | Block(line: Sequence<W>, redirs: seq<Item<W>>)

  datatype Pipeline<W> = One(cmd: Command<W>) | Piped(cmd: Command<W>, rest: Pipeline<W>)

  /** Pipelines separated by semicolons, each with the number of ampersands after it. */
  datatype Sequence<W> = Last(pipe: Pipeline<W>, ands: nat) | Then(pipe: Pipeline<W>, ands: nat, next: Sequence<W>)

  // ---- what is written

  function OpKind(kind: Redirection): (c: char) {
    match kind
    case Input => '<'
    case Output => '>'
    case Append => '+'
  }

  function ItemLex<W>(x: Item<W>): (r: seq<Lexeme<W>>) {
    match x
    case Arg(w) => [Word(w)]
    case To(kind, file) => [Sym(OpKind(kind)), Word(file)]
  }

  function ItemsLex<W>(items: seq<Item<W>>): (r: seq<Lexeme<W>>) {
    if items == [] then [] else ItemLex(items[0]) + ItemsLex(items[1..])
  }

  function CommandLex<W>(c: Command<W>): (r: seq<Lexeme<W>>)
    decreases c, 0
  {
    match c
    case Simple(items) => ItemsLex(items)
    case Block(line, redirs) => [Sym('(')] + (SequenceLex(line) + ([Sym(')')] + ItemsLex(redirs)))
  }

  function PipelineLex<W>(p: Pipeline<W>): (r: seq<Lexeme<W>>)
    decreases p, 1
  {
    match p
    case One(c) => CommandLex(c)
    case Piped(c, rest) => CommandLex(c) + ([Sym('|')] + PipelineLex(rest))
  }

  function Ands<W>(n: nat): (r: seq<Lexeme<W>>) {
    if n == 0 then [] else [Sym('&')] + Ands(n - 1)
  }

  function SequenceLex<W>(l: Sequence<W>): (r: seq<Lexeme<W>>)
    decreases l, 2
  {
    match l
    case Last(p, n) => PipelineLex(p) + Ands(n)
    case Then(p, n, next) => PipelineLex(p) + (Ands(n) + ([Sym(';')] + SequenceLex(next)))
  }

  // ---- what it means

  function ArgsOf<W>(items: seq<Item<W>>): (r: seq<W>) {
    if items == [] then [] else OneArg(items[0]) + ArgsOf(items[1..])
  }

  function RedirsOf<W>(items: seq<Item<W>>): (r: seq<(Redirection, W)>) {
    if items == [] then [] else OneRedir(items[0]) + RedirsOf(items[1..])
  }

  /** Redirections around a command, the first one inside. */
  function Around(cmd: Cmd, rs: seq<(Redirection, Token)>): (r: Cmd)
    decreases |rs|
  {
    if rs == [] then cmd else Around(Redir(cmd, rs[0].0, rs[0].1), rs[1..])
  }

  function CommandTree(c: Command<Token>): (r: Cmd)
    decreases c, 0
  {
    match c
    case Simple(items) => Around(Exec(ArgsOf(items)), RedirsOf(items))
    case Block(line, redirs) => Around(SequenceTree(line), RedirsOf(redirs))
  }

  function PipelineTree(p: Pipeline<Token>): (r: Cmd)
    decreases p, 1
  {
    match p
    case One(c) => CommandTree(c)
    case Piped(c, rest) => Pipe(CommandTree(c), PipelineTree(rest))
  }

  function Backgrounded(cmd: Cmd, n: nat): (r: Cmd)
    decreases n
  {
    if n == 0 then cmd else Backgrounded(Back(cmd), n - 1)
  }

  function SequenceTree(l: Sequence<Token>): (r: Cmd)
    decreases l, 2
  {
    match l
    case Last(p, n) => Backgrounded(PipelineTree(p), n)
    case Then(p, n, next) => List(Backgrounded(PipelineTree(p), n), SequenceTree(next))
  }

  // ---- what the shell has room for

  predicate OnlyRedirs<W(!new)>(items: seq<Item<W>>) {
    forall k | 0 <= k < |items| :: items[k].To?
  }

  /** Fewer than MAXARGS arguments to each command, and only redirections after a block. */
  ghost predicate CommandFits<W(!new)>(c: Command<W>)
    decreases c, 0
  {
    match c
    case Simple(items) => |ArgsOf(items)| < MAXARGS
    case Block(line, redirs) => SequenceFits(line) && OnlyRedirs(redirs)
  }

  ghost predicate PipelineFits<W(!new)>(p: Pipeline<W>)
    decreases p, 1
  {
    match p
    case One(c) => CommandFits(c)
    case Piped(c, rest) => CommandFits(c) && PipelineFits(rest)
  }

  ghost predicate SequenceFits<W(!new)>(l: Sequence<W>)
    decreases l, 2
  {
    match l
    case Last(p, n) => PipelineFits(p)
    case Then(p, n, next) => PipelineFits(p) && SequenceFits(next)
  }

  // ---- facts about these

  lemma {:induction false} ItemsJoin(a: seq<Item<Token>>, b: seq<Item<Token>>)
    ensures ItemsLex(a + b) == ItemsLex(a) + ItemsLex(b)
  {
    hide ItemLex;
    if a == [] {
      assert a + b == b;
    } else {
      ItemsJoin(a[1..], b);
      assert (a + b)[1..] == a[1..] + b && (a + b)[0] == a[0];
      assert ItemLex(a[0]) + (ItemsLex(a[1..]) + ItemsLex(b)) == (ItemLex(a[0]) + ItemsLex(a[1..])) + ItemsLex(b);
    }
  }

  function OneArg<W>(x: Item<W>): (r: seq<W>) {
    if x.Arg? then [x.word] else []
  }

  function OneRedir<W>(x: Item<W>): (r: seq<(Redirection, W)>) {
    if x.To? then [(x.kind, x.file)] else []
  }

  lemma {:induction false} ArgsJoin<W>(a: seq<Item<W>>, b: seq<Item<W>>)
    ensures ArgsOf(a + b) == ArgsOf(a) + ArgsOf(b)
  {
    hide OneArg;
    if a == [] {
      assert a + b == b;
    } else {
      ArgsJoin(a[1..], b);
      assert (a + b)[1..] == a[1..] + b && (a + b)[0] == a[0];
      assert OneArg(a[0]) + (ArgsOf(a[1..]) + ArgsOf(b)) == OneArg(a[0]) + ArgsOf(a[1..]) + ArgsOf(b);
    }
  }

  lemma {:induction false} RedirsJoin<W>(a: seq<Item<W>>, b: seq<Item<W>>)
    ensures RedirsOf(a + b) == RedirsOf(a) + RedirsOf(b)
  {
    hide OneRedir;
    if a == [] {
      assert a + b == b;
    } else {
      RedirsJoin(a[1..], b);
      assert (a + b)[1..] == a[1..] + b && (a + b)[0] == a[0];
      assert OneRedir(a[0]) + (RedirsOf(a[1..]) + RedirsOf(b)) == OneRedir(a[0]) + RedirsOf(a[1..]) + RedirsOf(b);
    }
  }

  lemma {:induction false} NoArgs<W(!new)>(items: seq<Item<W>>)
    requires OnlyRedirs(items)
    ensures ArgsOf(items) == []
  {
    if items != [] {
      NoArgs(items[1..]);
    }
  }

  /** Wrapping from the last redirection inwards or from the first outwards is the same. */
  lemma {:induction false} WrapIsAround(cmd: Cmd, rs: seq<(Redirection, Token)>)
    ensures Wrap(cmd, rs) == Around(cmd, rs)
    decreases |rs|
  {
    if rs != [] {
      AroundLast(cmd, rs);
      WrapIsAround(cmd, rs[..|rs| - 1]);
    }
  }

  lemma {:induction false} AroundLast(cmd: Cmd, rs: seq<(Redirection, Token)>)
    requires rs != []
    ensures var n := |rs| - 1; Around(cmd, rs) == Redir(Around(cmd, rs[..n]), rs[n].0, rs[n].1)
    decreases |rs|
  {
    if |rs| > 1 {
      AroundLast(Redir(cmd, rs[0].0, rs[0].1), rs[1..]);
      assert rs[1..][..|rs| - 2] == rs[..|rs| - 1][1..];
    }
  }

  // ------------------------------------------------------------------ what is parsed is written

  ghost predicate RedirsSyntax(s: string, i: nat, rs: seq<(Redirection, Token)>, r: Redirs, items: seq<Item<Token>>)
    requires i <= |s| && Line(s)
  {
    && r.Redirs? && r.pos <= |s| && OnlyRedirs(items)
    && r.rs == rs + RedirsOf(items) && Lex(s, i) == ItemsLex(items) + Lex(s, r.pos)
  }

  lemma {:induction false} RedirsSound(s: string, i: nat, rs: seq<(Redirection, Token)>) returns (items: seq<Item<Token>>)
    requires i <= |s| && Line(s) && ParseRedirs(s, i, rs).Redirs?
    ensures RedirsSyntax(s, i, rs, ParseRedirs(s, i, rs), items)
    decreases |s| - i
  {
    hide Lex, ParseRedirs, Peek, SkipSpace;
    if !Peek(s, i, "<>") {
      RedirsNone(s, i, rs);
      items := [];
      assert rs + RedirsOf<Token>([]) == rs && ItemsLex([]) + Lex(s, i) == Lex(s, i);
    } else {
      var kind, w, j := RedirsSome(s, i, rs);
      var more := RedirsSound(s, j, rs + [(kind, w)]);
      items := [To(kind, w)] + more;
      RedirFirst(s, i, kind, w, more, j);
      assert rs + [(kind, w)] + RedirsOf(more) == rs + RedirsOf(items);
    }
  }

  lemma RedirsNone(s: string, i: nat, rs: seq<(Redirection, Token)>)
    requires i <= |s| && Line(s) && !Peek(s, i, "<>")
    ensures ParseRedirs(s, i, rs) == Redirs(rs, SkipSpace(s, i)) && SkipSpace(s, i) <= |s| && Lex(s, SkipSpace(s, i)) == Lex(s, i)
  {
    hide Lex, SkipSpace;
    LexSkips(s, i);
  }

  /** One turn of the loop of parseredirs. */
  lemma RedirsSome(s: string, i: nat, rs: seq<(Redirection, Token)>) returns (kind: Redirection, w: Token, j: nat)
    requires i <= |s| && Line(s) && Peek(s, i, "<>") && ParseRedirs(s, i, rs).Redirs?
    ensures i < j <= |s| && ParseRedirs(s, i, rs) == ParseRedirs(s, j, rs + [(kind, w)])
    ensures Lex(s, i) == [Sym(OpKind(kind))] + ([Word(w)] + Lex(s, j))
  {
    hide Lex, GetToken, SkipSpace;
    NextLexeme(s, i);
    var op := GetToken(s, i);
    NextLexeme(s, op.pos);
    var file := GetToken(s, op.pos);
    kind := if op.kind == '<' then Input else if op.kind == '>' then Output else Append;
    w, j := file.tok, file.pos;
  }

  lemma RedirFirst(s: string, i: nat, kind: Redirection, file: Token, more: seq<Item<Token>>, j: nat)
    requires i <= |s| && Line(s) && j <= |s|
    requires Lex(s, i) == [Sym(OpKind(kind))] + ([Word(file)] + Lex(s, j))
    ensures forall rest :: Lex(s, j) == ItemsLex(more) + rest ==> Lex(s, i) == ItemsLex([To(kind, file)] + more) + rest
    ensures RedirsOf([To(kind, file)] + more) == [(kind, file)] + RedirsOf(more) && ArgsOf([To(kind, file)] + more) == ArgsOf(more)
    ensures OnlyRedirs(more) ==> OnlyRedirs([To(kind, file)] + more)
  {
    hide Lex;
    var items := [To(kind, file)] + more;
    assert items[1..] == more;
    forall rest | Lex(s, j) == ItemsLex(more) + rest ensures Lex(s, i) == ItemsLex(items) + rest {
      assert [Sym(OpKind(kind))] + ([Word(file)] + (ItemsLex(more) + rest)) == [Sym(OpKind(kind)), Word(file)] + ItemsLex(more) + rest;
    }
  }

  ghost predicate ArgsSyntax(s: string, i: nat, args: seq<Token>, rs: seq<(Redirection, Token)>, r: Parsed, items: seq<Item<Token>>)
    requires i <= |s| && Line(s)
  {
    && r.Parsed? && r.pos <= |s| && |args| + |ArgsOf(items)| < MAXARGS
    && r.cmd == Wrap(Exec(args + ArgsOf(items)), rs + RedirsOf(items)) && Lex(s, i) == ItemsLex(items) + Lex(s, r.pos)
  }

  lemma {:induction false} ArgsSound(s: string, i: nat, args: seq<Token>, rs: seq<(Redirection, Token)>) returns (items: seq<Item<Token>>)
    requires i <= |s| && Line(s) && |args| < MAXARGS && ParseArgs(s, i, args, rs).Parsed?
    ensures ArgsSyntax(s, i, args, rs, ParseArgs(s, i, args, rs), items)
    decreases |s| - i
  {
    hide Lex, GetToken, SkipSpace, ParseRedirs, Wrap;
    NextLexeme(s, i);
    var w := GetToken(s, i);
    if Peek(s, i, "|)&;") || w.kind == '\0' {
      items := [];
      ArgsStop(s, i);
      assert args + ArgsOf<Token>([]) == args && rs + RedirsOf<Token>([]) == rs && ItemsLex([]) + Lex(s, i) == Lex(s, i);
    } else {
      var reds := RedirsSound(s, w.pos, rs);
      var r := ParseRedirs(s, w.pos, rs);
      var more := ArgsSound(s, r.pos, args + [w.tok], r.rs);
      items := [Arg(w.tok)] + (reds + more);
      ArgFirst(w.tok, reds, more, args, rs);
      assert Lex(s, i) == [Word(w.tok)] + (ItemsLex(reds) + (ItemsLex(more) + Lex(s, ParseArgs(s, i, args, rs).pos)));
      assert ItemsLex(items) == [Word(w.tok)] + (ItemsLex(reds) + ItemsLex(more));
    }
  }

  lemma ArgsStop(s: string, i: nat)
    requires i <= |s| && Line(s)
    ensures Lex(s, SkipSpace(s, i)) == Lex(s, i)
    ensures GetToken(s, i).kind == '\0' ==> Lex(s, GetToken(s, i).pos) == Lex(s, i)
  {
    hide Lex, SkipSpace, SkipWord;
    LexSkips(s, i);
    LexSkips(s, SkipSpace(s, i));
  }

  lemma ArgFirst(w: Token, reds: seq<Item<Token>>, more: seq<Item<Token>>, args: seq<Token>, rs: seq<(Redirection, Token)>)
    requires OnlyRedirs(reds)
    ensures var items := [Arg(w)] + (reds + more);
            && ItemsLex(items) == [Word(w)] + (ItemsLex(reds) + ItemsLex(more))
            && args + ArgsOf(items) == args + [w] + ArgsOf(more) && |ArgsOf(items)| == 1 + |ArgsOf(more)|
            && rs + RedirsOf(items) == rs + RedirsOf(reds) + RedirsOf(more)
  {
    hide ItemsLex, ArgsOf, RedirsOf;
    FirstItem(Arg(w), reds + more);
    ItemsJoin(reds, more);
    ArgsJoin(reds, more);
    RedirsJoin(reds, more);
    NoArgs(reds);
  }

  lemma FirstItem<W>(x: Item<W>, more: seq<Item<W>>)
    ensures var items := [x] + more;
            && ItemsLex(items) == ItemLex(x) + ItemsLex(more)
            && ArgsOf(items) == OneArg(x) + ArgsOf(more) && RedirsOf(items) == OneRedir(x) + RedirsOf(more)
  {
    assert ([x] + more)[1..] == more;
  }

  ghost predicate CommandSyntax(s: string, i: nat, r: Parsed, c: Command<Token>)
    requires i <= |s| && Line(s)
  {
    r.Parsed? && r.pos <= |s| && CommandFits(c) && r.cmd == CommandTree(c) && Lex(s, i) == CommandLex(c) + Lex(s, r.pos)
  }

  ghost predicate PipelineSyntax(s: string, i: nat, r: Parsed, p: Pipeline<Token>)
    requires i <= |s| && Line(s)
  {
    r.Parsed? && r.pos <= |s| && PipelineFits(p) && r.cmd == PipelineTree(p) && Lex(s, i) == PipelineLex(p) + Lex(s, r.pos)
  }

  ghost predicate SequenceSyntax(s: string, i: nat, r: Parsed, l: Sequence<Token>)
    requires i <= |s| && Line(s)
  {
    r.Parsed? && r.pos <= |s| && SequenceFits(l) && r.cmd == SequenceTree(l) && Lex(s, i) == SequenceLex(l) + Lex(s, r.pos)
  }

  lemma {:induction false} ExecSound(s: string, i: nat) returns (c: Command<Token>)
    requires i <= |s| && Line(s) && ParseExec(s, i).Parsed?
    ensures CommandSyntax(s, i, ParseExec(s, i), c)
    decreases |s| - i, 1
  {
    hide Lex, GetToken, SkipSpace, ParseRedirs, ParseArgs, ParseBlock, Wrap, Around;
    if Peek(s, i, "(") {
      c := BlockSound(s, i);
    } else {
      var reds := RedirsSound(s, i, []);
      var r := ParseRedirs(s, i, []);
      var more := ArgsSound(s, r.pos, [], r.rs);
      c := Simple(reds + more);
      SimpleSyntax(s, i, reds, r.pos, more, ParseArgs(s, r.pos, [], r.rs));
    }
  }

  lemma SimpleSyntax(s: string, i: nat, reds: seq<Item<Token>>, j: nat, more: seq<Item<Token>>, r: Parsed)
    requires i <= |s| && Line(s) && j <= |s| && OnlyRedirs(reds)
    requires Lex(s, i) == ItemsLex(reds) + Lex(s, j) && ArgsSyntax(s, j, [], [] + RedirsOf(reds), r, more)
    ensures CommandSyntax(s, i, r, Simple(reds + more))
  {
    hide Lex, ItemsLex, ArgsOf, RedirsOf, Wrap, Around;
    ItemsJoin(reds, more);
    ArgsJoin(reds, more);
    RedirsJoin(reds, more);
    NoArgs(reds);
    WrapIsAround(Exec(ArgsOf(reds + more)), RedirsOf(reds + more));
    assert [] + ArgsOf(more) == ArgsOf(reds + more) && [] + RedirsOf(reds) + RedirsOf(more) == RedirsOf(reds + more);
    assert ItemsLex(reds) + (ItemsLex(more) + Lex(s, r.pos)) == ItemsLex(reds + more) + Lex(s, r.pos);
  }

  lemma {:induction false} BlockSound(s: string, i: nat) returns (c: Command<Token>)
    requires i <= |s| && Line(s) && Peek(s, i, "(") && ParseBlock(s, i).Parsed?
    ensures CommandSyntax(s, i, ParseBlock(s, i), c)
    decreases |s| - i, 0
  {
    hide Lex, GetToken, SkipSpace, ParseRedirs, ParseLine, Wrap, Around;
    NextLexeme(s, i);
    var start := GetToken(s, i).pos;
    var line := SequenceSound(s, start);
    var body := ParseLine(s, start);
    NextLexeme(s, body.pos);
    var after := GetToken(s, body.pos).pos;
    var reds := RedirsSound(s, after, []);
    c := Block(line, reds);
    var rs := ParseRedirs(s, after, []);
    WrapIsAround(body.cmd, rs.rs);
    assert [] + RedirsOf(reds) == RedirsOf(reds);
    BlockLex(line, reds, Lex(s, rs.pos));
  }

  lemma BlockLex(line: Sequence<Token>, reds: seq<Item<Token>>, rest: seq<Lexeme<Token>>)
    ensures CommandLex(Block(line, reds)) + rest == [Sym('(')] + (SequenceLex(line) + ([Sym(')')] + (ItemsLex(reds) + rest)))
  {
    hide SequenceLex, ItemsLex;
  }

  lemma {:induction false} PipelineSound(s: string, i: nat) returns (p: Pipeline<Token>)
    requires i <= |s| && Line(s) && ParsePipe(s, i).Parsed?
    ensures PipelineSyntax(s, i, ParsePipe(s, i), p)
    decreases |s| - i, 2
  {
    hide Lex, GetToken, SkipSpace, ParseExec, CommandTree, CommandLex, CommandFits;
    var c := ExecSound(s, i);
    var left := ParseExec(s, i);
    NextLexeme(s, left.pos);
    if !Peek(s, left.pos, "|") {
      LexSkips(s, left.pos);
      p := One(c);
    } else {
      var next := GetToken(s, left.pos).pos;
      var rest := PipelineSound(s, next);
      p := Piped(c, rest);
      var tail := Lex(s, ParsePipe(s, next).pos);
      assert CommandLex(c) + ([Sym('|')] + PipelineLex(rest)) + tail == CommandLex(c) + ([Sym('|')] + (PipelineLex(rest) + tail));
    }
  }

  lemma {:induction false} BacksSound(s: string, i: nat, cmd: Cmd) returns (n: nat)
    requires i <= |s| && Line(s)
    ensures var r := Backs(s, i, cmd);
            && r.cmd == Backgrounded(cmd, n) && Lex(s, i) == Ands(n) + Lex(s, r.pos) && SkipSpace(s, r.pos) == r.pos
    decreases |s| - i
  {
    hide Lex, GetToken, SkipSpace;
    NextLexeme(s, i);
    if Peek(s, i, "&") {
      var m := BacksSound(s, GetToken(s, i).pos, Back(cmd));
      n := m + 1;
      var tail := Lex(s, Backs(s, i, cmd).pos);
      assert [Sym('&')] + Ands(m) + tail == [Sym('&')] + (Ands(m) + tail);
    } else {
      n := 0;
      LexSkips(s, i);
      SkipTwice(s, i);
      assert Ands(0) + Lex(s, i) == Lex(s, i);
    }
  }

  lemma {:induction false} SequenceSound(s: string, i: nat) returns (l: Sequence<Token>)
    requires i <= |s| && Line(s) && ParseLine(s, i).Parsed?
    ensures SequenceSyntax(s, i, ParseLine(s, i), l)
    decreases |s| - i, 3
  {
    hide Lex, GetToken, SkipSpace, ParsePipe, Backs, PipelineTree, PipelineLex, PipelineFits;
    var p := PipelineSound(s, i);
    var first := ParsePipe(s, i);
    var n := BacksSound(s, first.pos, first.cmd);
    var left := Backs(s, first.pos, first.cmd);
    NextLexeme(s, left.pos);
    if !Peek(s, left.pos, ";") {
      LexSkips(s, left.pos);
      l := Last(p, n);
      assert PipelineLex(p) + Ands(n) + Lex(s, left.pos) == PipelineLex(p) + (Ands(n) + Lex(s, left.pos));
    } else {
      var next := GetToken(s, left.pos).pos;
      var rest := SequenceSound(s, next);
      l := Then(p, n, rest);
      var tail := Lex(s, ParseLine(s, next).pos);
      assert PipelineLex(p) + (Ands(n) + ([Sym(';')] + SequenceLex(rest))) + tail
          == PipelineLex(p) + (Ands(n) + ([Sym(';')] + (SequenceLex(rest) + tail)));
    }
  }

  // ------------------------------------------------------------------ what is written is parsed

  /** What may come after a command: nothing, or one of these symbols. */
  predicate Follows(rest: seq<Lexeme<Token>>, kinds: string) {
    rest == [] || (rest[0].Sym? && rest[0].kind in kinds)
  }

  predicate NotRedir(rest: seq<Lexeme<Token>>) {
    rest == [] || rest[0].Word? || (rest[0].kind != '<' && rest[0].kind != '>' && rest[0].kind != '+')
  }

  lemma {:induction false} RedirsComplete(s: string, i: nat, rs: seq<(Redirection, Token)>, items: seq<Item<Token>>, rest: seq<Lexeme<Token>>)
    requires i <= |s| && Line(s) && OnlyRedirs(items) && NotRedir(rest) && Lex(s, i) == ItemsLex(items) + rest
    ensures var r := ParseRedirs(s, i, rs); r.Redirs? && r.rs == rs + RedirsOf(items) && Lex(s, r.pos) == rest
    decreases |items|
  {
    hide Lex, GetToken, SkipSpace, ParseRedirs, ItemsLex, RedirsOf, OpKind;
    if items == [] {
      RedirsEnd(s, i, rs, rest);
    } else {
      var kind, file, more := items[0].kind, items[0].file, items[1..];
      assert items == [To(kind, file)] + more;
      FirstItem(To(kind, file), more);
      assert Lex(s, i) == [Sym(OpKind(kind))] + ([Word(file)] + (ItemsLex(more) + rest));
      RedirsGoOn(s, i, rs, kind, file, ItemsLex(more) + rest);
      RedirsComplete(s, GetToken(s, GetToken(s, i).pos).pos, rs + [(kind, file)], more, rest);
    }
  }

  lemma RedirsEnd(s: string, i: nat, rs: seq<(Redirection, Token)>, rest: seq<Lexeme<Token>>)
    requires i <= |s| && Line(s) && NotRedir(rest) && Lex(s, i) == ItemsLex([]) + rest
    ensures RedirsOf<Token>([]) == []
    ensures var r := ParseRedirs(s, i, rs); r.Redirs? && r.rs == rs + [] && Lex(s, r.pos) == rest
  {
    hide Lex, GetToken, SkipSpace;
    NextLexeme(s, i);
    LexSkips(s, i);
    assert ItemsLex([]) + rest == rest;
  }

  lemma RedirsGoOn(s: string, i: nat, rs: seq<(Redirection, Token)>, kind: Redirection, file: Token, rest: seq<Lexeme<Token>>)
    requires i <= |s| && Line(s) && Lex(s, i) == [Sym(OpKind(kind))] + ([Word(file)] + rest)
    ensures var j := GetToken(s, GetToken(s, i).pos).pos;
            Lex(s, j) == rest && ParseRedirs(s, i, rs) == ParseRedirs(s, j, rs + [(kind, file)])
  {
    hide Lex, GetToken, SkipSpace;
    TakeLexeme(s, i, Sym(OpKind(kind)), [Word(file)] + rest);
    TakeLexeme(s, GetToken(s, i).pos, Word(file), rest);
  }

  /** How many redirections the items begin with. */
  function Leading<W>(items: seq<Item<W>>): (n: nat)
    ensures n <= |items| && (forall k | 0 <= k < n :: items[k].To?) && (n < |items| ==> items[n].Arg?)
  {
    if items == [] || items[0].Arg? then 0 else 1 + Leading(items[1..])
  }

  lemma NotRedirNext(items: seq<Item<Token>>, rest: seq<Lexeme<Token>>)
    requires (items == [] || items[0].Arg?) && Follows(rest, "|)&;")
    ensures NotRedir(ItemsLex(items) + rest)
  {
    if items == [] {
      assert ItemsLex(items) + rest == rest;
    }
  }

  lemma {:induction false} ArgsComplete(s: string, i: nat, args: seq<Token>, rs: seq<(Redirection, Token)>, items: seq<Item<Token>>, rest: seq<Lexeme<Token>>)
    requires i <= |s| && Line(s) && (items == [] || items[0].Arg?) && Follows(rest, "|)&;")
    requires |args| + |ArgsOf(items)| < MAXARGS && Lex(s, i) == ItemsLex(items) + rest
    ensures var r := ParseArgs(s, i, args, rs); ArgsSyntax(s, i, args, rs, r, items) && Lex(s, r.pos) == rest
    decreases |items|
  {
    hide Lex, GetToken, SkipSpace, ParseRedirs, ParseArgs, Peek, Wrap, ItemsLex, ArgsOf, RedirsOf;
    if items == [] {
      ArgsEnd(s, i, args, rs, rest);
    } else {
      var n := Leading(items[1..]);
      var w, reds, more := items[0].word, items[1..][..n], items[1..][n..];
      assert items == [Arg(w)] + (reds + more);
      ArgFirst(w, reds, more, args, rs);
      assert Lex(s, i) == [Word(w)] + (ItemsLex(reds) + (ItemsLex(more) + rest));
      TakeLexeme(s, i, Word(w), ItemsLex(reds) + (ItemsLex(more) + rest));
      var g := GetToken(s, i);
      NotRedirNext(more, rest);
      RedirsComplete(s, g.pos, rs, reds, ItemsLex(more) + rest);
      var r := ParseRedirs(s, g.pos, rs);
      ArgsGoOn(s, i, args, rs);
      ArgsComplete(s, r.pos, args + [w], r.rs, more, rest);
    }
  }

  lemma ArgsEnd(s: string, i: nat, args: seq<Token>, rs: seq<(Redirection, Token)>, rest: seq<Lexeme<Token>>)
    requires i <= |s| && Line(s) && Follows(rest, "|)&;") && |args| < MAXARGS && Lex(s, i) == ItemsLex([]) + rest
    ensures ArgsOf<Token>([]) == []
    ensures var r := ParseArgs(s, i, args, rs); ArgsSyntax(s, i, args, rs, r, []) && Lex(s, r.pos) == rest
  {
    hide Lex, GetToken, SkipSpace, ParseRedirs, Wrap;
    NextLexeme(s, i);
    ArgsStop(s, i);
    assert ItemsLex([]) + rest == rest;
    assert args + ArgsOf<Token>([]) == args && rs + RedirsOf<Token>([]) == rs;
  }

  lemma ArgsGoOn(s: string, i: nat, args: seq<Token>, rs: seq<(Redirection, Token)>)
    requires i <= |s| && Line(s) && |args| + 1 < MAXARGS && GetToken(s, i).kind == 'a' && IsWordChar(CharAt(s, SkipSpace(s, i)))
    requires ParseRedirs(s, GetToken(s, i).pos, rs).Redirs?
    ensures var w := GetToken(s, i);
            var r := ParseRedirs(s, w.pos, rs);
            ParseArgs(s, i, args, rs) == ParseArgs(s, r.pos, args + [w.tok], r.rs)
  {
    hide GetToken, SkipSpace, ParseRedirs;
  }

  lemma {:induction false} CommandComplete(s: string, i: nat, c: Command<Token>, rest: seq<Lexeme<Token>>)
    requires i <= |s| && Line(s) && CommandFits(c) && Follows(rest, "|)&;") && Lex(s, i) == CommandLex(c) + rest
    ensures var r := ParseExec(s, i); CommandSyntax(s, i, r, c) && Lex(s, r.pos) == rest
    decreases c, 0
  {
    hide Lex, GetToken, SkipSpace, ParseRedirs, ParseArgs, ParseBlock, Wrap, Around, ItemsLex;
    match c
    case Simple(items) => SimpleComplete(s, i, items, rest);
    case Block(line, redirs) =>
      BlockLex(line, redirs, rest);
      TakeLexeme(s, i, Sym('('), SequenceLex(line) + ([Sym(')')] + (ItemsLex(redirs) + rest)));
      var start := GetToken(s, i).pos;
      SequenceComplete(s, start, line, [Sym(')')] + (ItemsLex(redirs) + rest));
      BlockComplete(s, i, line, redirs, rest);
  }

  lemma SimpleComplete(s: string, i: nat, items: seq<Item<Token>>, rest: seq<Lexeme<Token>>)
    requires i <= |s| && Line(s) && |ArgsOf(items)| < MAXARGS && Follows(rest, "|)&;") && Lex(s, i) == ItemsLex(items) + rest
    ensures var r := ParseExec(s, i); CommandSyntax(s, i, r, Simple(items)) && Lex(s, r.pos) == rest
  {
    hide Lex, GetToken, SkipSpace, ParseRedirs, ParseArgs, ParseBlock, Wrap, Around, ItemsLex, RedirsOf, ArgsOf;
    var n := Leading(items);
    var reds, more := items[..n], items[n..];
    assert items == reds + more;
    ItemsJoin(reds, more);
    ArgsJoin(reds, more);
    NoArgs(reds);
    assert Lex(s, i) == ItemsLex(reds) + (ItemsLex(more) + rest);
    NotRedirNext(more, rest);
    RedirsComplete(s, i, [], reds, ItemsLex(more) + rest);
    NoParen(s, i, items, rest);
    var r := ParseRedirs(s, i, []);
    ArgsComplete(s, r.pos, [], r.rs, more, rest);
    SimpleSyntax(s, i, reds, r.pos, more, ParseArgs(s, r.pos, [], r.rs));
  }

  lemma NoParen(s: string, i: nat, items: seq<Item<Token>>, rest: seq<Lexeme<Token>>)
    requires i <= |s| && Line(s) && Follows(rest, "|)&;") && Lex(s, i) == ItemsLex(items) + rest
    ensures !Peek(s, i, "(")
  {
    hide Lex, SkipSpace, GetToken;
    NextLexeme(s, i);
    if items == [] {
      assert ItemsLex(items) + rest == rest;
    }
  }

  lemma BlockComplete(s: string, i: nat, line: Sequence<Token>, redirs: seq<Item<Token>>, rest: seq<Lexeme<Token>>)
    requires i <= |s| && Line(s) && Peek(s, i, "(") && SequenceFits(line) && OnlyRedirs(redirs) && Follows(rest, "|)&;")
    requires Lex(s, i) == CommandLex(Block(line, redirs)) + rest
    requires var body := ParseLine(s, GetToken(s, i).pos);
             body.Parsed? && body.cmd == SequenceTree(line) && Lex(s, body.pos) == [Sym(')')] + (ItemsLex(redirs) + rest)
    ensures var r := ParseBlock(s, i); CommandSyntax(s, i, r, Block(line, redirs)) && Lex(s, r.pos) == rest
  {
    hide Lex, GetToken, SkipSpace, ParseRedirs, ParseLine, Wrap, Around, ItemsLex, CommandLex;
    var body := ParseLine(s, GetToken(s, i).pos);
    TakeLexeme(s, body.pos, Sym(')'), ItemsLex(redirs) + rest);
    var after := GetToken(s, body.pos).pos;
    RedirsComplete(s, after, [], redirs, rest);
    var rs := ParseRedirs(s, after, []);
    WrapIsAround(body.cmd, rs.rs);
    assert [] + RedirsOf(redirs) == RedirsOf(redirs);
  }

  lemma {:induction false} PipelineComplete(s: string, i: nat, p: Pipeline<Token>, rest: seq<Lexeme<Token>>)
    requires i <= |s| && Line(s) && PipelineFits(p) && Follows(rest, ")&;") && Lex(s, i) == PipelineLex(p) + rest
    ensures var r := ParsePipe(s, i); PipelineSyntax(s, i, r, p) && Lex(s, r.pos) == rest
    decreases p, 1
  {
    hide Lex, GetToken, SkipSpace, ParseExec, CommandTree, CommandLex, CommandFits;
    match p {
      case One(c) =>
        CommandComplete(s, i, c, rest);
        var left := ParseExec(s, i);
        NextLexeme(s, left.pos);
        LexSkips(s, left.pos);
      case Piped(c, more) =>
        var tail := [Sym('|')] + (PipelineLex(more) + rest);
        assert PipelineLex(p) + rest == CommandLex(c) + tail;
        CommandComplete(s, i, c, tail);
        var left := ParseExec(s, i);
        TakeLexeme(s, left.pos, Sym('|'), PipelineLex(more) + rest);
        PipelineComplete(s, GetToken(s, left.pos).pos, more, rest);
    }
  }

  lemma {:induction false} BacksComplete(s: string, i: nat, cmd: Cmd, n: nat, rest: seq<Lexeme<Token>>)
    requires i <= |s| && Line(s) && Follows(rest, ");") && Lex(s, i) == Ands(n) + rest
    ensures var r := Backs(s, i, cmd); r.cmd == Backgrounded(cmd, n) && Lex(s, r.pos) == rest
    decreases n
  {
    hide Lex, GetToken, SkipSpace;
    NextLexeme(s, i);
    if n == 0 {
      assert Ands(n) + rest == rest;
      LexSkips(s, i);
    } else {
      assert Ands(n) + rest == [Sym('&')] + (Ands(n - 1) + rest);
      TakeLexeme(s, i, Sym('&'), Ands(n - 1) + rest);
      BacksComplete(s, GetToken(s, i).pos, Back(cmd), n - 1, rest);
    }
  }

  lemma {:induction false} SequenceComplete(s: string, i: nat, l: Sequence<Token>, rest: seq<Lexeme<Token>>)
    requires i <= |s| && Line(s) && SequenceFits(l) && Follows(rest, ")") && Lex(s, i) == SequenceLex(l) + rest
    ensures var r := ParseLine(s, i); SequenceSyntax(s, i, r, l) && Lex(s, r.pos) == rest
    decreases l, 2
  {
    hide Lex, GetToken, SkipSpace, ParsePipe, Backs, PipelineTree, PipelineLex, PipelineFits;
    var p, n := l.pipe, l.ands;
    var tail := if l.Last? then rest else [Sym(';')] + (SequenceLex(l.next) + rest);
    assert SequenceLex(l) + rest == PipelineLex(p) + (Ands(n) + tail);
    AndsFollow(n, tail);
    PipelineComplete(s, i, p, Ands(n) + tail);
    var first := ParsePipe(s, i);
    BacksComplete(s, first.pos, first.cmd, n, tail);
    var left := Backs(s, first.pos, first.cmd);
    NextLexeme(s, left.pos);
    if l.Last? {
      LexSkips(s, left.pos);
    } else {
      TakeLexeme(s, left.pos, Sym(';'), SequenceLex(l.next) + rest);
      SequenceComplete(s, GetToken(s, left.pos).pos, l.next, rest);
    }
  }

  lemma AndsFollow(n: nat, tail: seq<Lexeme<Token>>)
    requires Follows(tail, ");")
    ensures Follows(Ands(n) + tail, ")&;")
  {
    if n == 0 {
      assert Ands(n) + tail == tail;
    }
  }

  // ------------------------------------------------------------------ the parser is the grammar

  /** The line is one of the grammar, derived by l. */
  ghost predicate Derives(s: string, l: Sequence<Token>)
    requires Line(s)
  {
    SequenceFits(l) && SequenceLex(l) == Lex(s, 0)
  }

  /** parsecmd accepts exactly the lines of the grammar, and gives the tree of any derivation. */
  lemma ParsesGrammar(s: string)
    requires Line(s)
    ensures ParseCmd(s).Parsed? <==> exists l :: Derives(s, l)
    ensures forall l | Derives(s, l) :: ParseCmd(s).Parsed? && ParseCmd(s).cmd == SequenceTree(l)
  {
    hide Lex, SequenceLex, SequenceTree, SequenceFits, ParseLine, SkipSpace;
    if ParseCmd(s).Parsed? {
      var l := SequenceSound(s, 0);
      var r := ParseLine(s, 0);
      NextLexeme(s, r.pos);
      AtEnd(s, r.pos);
      assert SequenceLex(l) + [] == SequenceLex(l);
      assert Derives(s, l);
    }
    forall l | Derives(s, l) ensures ParseCmd(s).Parsed? && ParseCmd(s).cmd == SequenceTree(l) {
      assert SequenceLex(l) + [] == SequenceLex(l);
      SequenceComplete(s, 0, l, []);
      NextLexeme(s, ParseLine(s, 0).pos);
    }
  }

  lemma AtEnd(s: string, i: nat)
    requires i <= |s| && Line(s) && SkipSpace(s, i) == |s|
    ensures Lex(s, i) == []
  {
  }
}

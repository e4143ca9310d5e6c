/** Consequences of the grammar for the text of a line: every word of an accepted line is in the
    tree once, and the text of any command of the grammar parses to that command. */
module ShellText {
  import opened Shell
  import opened ShellGrammar
  import R = ShellRoundTrip

  // ------------------------------------------------------------------ every word once

  /** The words of a command, with how often each is there. */
  ghost function TokenBag(cmd: Cmd): (r: multiset<Token>) {
    match cmd
    case Exec(args) => multiset(args)
    case Redir(c, _, file) => TokenBag(c) + multiset{file}
    case Pipe(l, r) => TokenBag(l) + TokenBag(r)
    case List(l, r) => TokenBag(l) + TokenBag(r)
    case Back(c) => TokenBag(c)
  }

  ghost function OneWord(x: Lexeme<Token>): (r: multiset<Token>) {
    if x.Word? then multiset{x.tok} else multiset{}
  }

  ghost function WordBag(ls: seq<Lexeme<Token>>): (r: multiset<Token>) {
    if ls == [] then multiset{} else OneWord(ls[0]) + WordBag(ls[1..])
  }

  lemma {:induction false} WordBagJoin(a: seq<Lexeme<Token>>, b: seq<Lexeme<Token>>)
    ensures WordBag(a + b) == WordBag(a) + WordBag(b)
  {
    hide OneWord;
    if a == [] {
      assert a + b == b;
    } else {
      WordBagJoin(a[1..], b);
      assert (a + b)[1..] == a[1..] + b && (a + b)[0] == a[0];
    }
  }

  lemma SymBag(kind: char, ls: seq<Lexeme<Token>>)
    ensures WordBag([Sym(kind)] + ls) == WordBag(ls)
  {
    assert ([Sym(kind)] + ls)[1..] == ls;
  }

  ghost function FileBag(rs: seq<(Redirection, Token)>): (r: multiset<Token>) {
    if rs == [] then multiset{} else multiset{rs[0].1} + FileBag(rs[1..])
  }

  lemma {:induction false} AroundBag(cmd: Cmd, rs: seq<(Redirection, Token)>)
    ensures TokenBag(Around(cmd, rs)) == TokenBag(cmd) + FileBag(rs)
    decreases |rs|
  {
    if rs != [] {
      AroundBag(Redir(cmd, rs[0].0, rs[0].1), rs[1..]);
    }
  }

  lemma {:induction false} ItemsBag(items: seq<Item<Token>>)
    ensures WordBag(ItemsLex(items)) == multiset(ArgsOf(items)) + FileBag(RedirsOf(items))
  {
    if items != [] {
      ItemsBag(items[1..]);
      WordBagJoin(ItemLex(items[0]), ItemsLex(items[1..]));
      ItemBag(items[0], ArgsOf(items[1..]), RedirsOf(items[1..]));
    }
  }

  lemma ItemBag(x: Item<Token>, args: seq<Token>, rs: seq<(Redirection, Token)>)
    ensures WordBag(ItemLex(x)) + multiset(args) + FileBag(rs) == multiset(OneArg(x) + args) + FileBag(OneRedir(x) + rs)
  {
    match x
    case Arg(w) =>
      assert WordBag([Word(w)]) == multiset{w};
      assert OneRedir(x) + rs == rs;
    case To(kind, file) =>
      SymBag(OpKind(kind), [Word(file)]);
      assert ItemLex(x) == [Sym(OpKind(kind))] + [Word(file)];
      assert WordBag([Word(file)]) == multiset{file};
      assert OneArg(x) + args == args && (OneRedir(x) + rs)[1..] == rs;
  }

  lemma {:induction false} CommandBag(c: Command<Token>)
    requires CommandFits(c)
    ensures WordBag(CommandLex(c)) == TokenBag(CommandTree(c))
    decreases c, 0
  {
    hide WordBag, Around, ArgsOf, RedirsOf, ItemsLex, FileBag;
    match c
    case Simple(items) =>
      ItemsBag(items);
      AroundBag(Exec(ArgsOf(items)), RedirsOf(items));
    case Block(line, redirs) =>
      SequenceBag(line);
      ItemsBag(redirs);
      NoArgs(redirs);
      AroundBag(SequenceTree(line), RedirsOf(redirs));
      SymBag('(', SequenceLex(line) + ([Sym(')')] + ItemsLex(redirs)));
      WordBagJoin(SequenceLex(line), [Sym(')')] + ItemsLex(redirs));
      SymBag(')', ItemsLex(redirs));
  }

  lemma {:induction false} PipelineBag(p: Pipeline<Token>)
    requires PipelineFits(p)
    ensures WordBag(PipelineLex(p)) == TokenBag(PipelineTree(p))
    decreases p, 1
  {
    hide WordBag, CommandLex, CommandTree, CommandFits;
    match p
    case One(c) => CommandBag(c);
    case Piped(c, rest) =>
      CommandBag(c);
      PipelineBag(rest);
      WordBagJoin(CommandLex(c), [Sym('|')] + PipelineLex(rest));
      SymBag('|', PipelineLex(rest));
  }

  lemma {:induction false} AndsBag(cmd: Cmd, n: nat)
    ensures WordBag(Ands(n)) == multiset{} && TokenBag(Backgrounded(cmd, n)) == TokenBag(cmd)
    decreases n
  {
    if n > 0 {
      AndsBag(Back(cmd), n - 1);
      SymBag('&', Ands(n - 1));
    }
  }

  lemma {:induction false} SequenceBag(l: Sequence<Token>)
    requires SequenceFits(l)
    ensures WordBag(SequenceLex(l)) == TokenBag(SequenceTree(l))
    decreases l, 2
  {
    hide WordBag, PipelineLex, PipelineTree, PipelineFits, Backgrounded;
    PipelineBag(l.pipe);
    AndsBag(PipelineTree(l.pipe), l.ands);
    match l
    case Last(p, n) => WordBagJoin(PipelineLex(p), Ands(n));
    case Then(p, n, next) =>
      SequenceBag(next);
      WordBagJoin(PipelineLex(p), Ands(n) + ([Sym(';')] + SequenceLex(next)));
      WordBagJoin(Ands(n), [Sym(';')] + SequenceLex(next));
      SymBag(';', SequenceLex(next));
  }

  /** A run of word characters that goes on in neither direction. */
  ghost predicate MaxWord(s: string, t: Token) {
    IsWord(s, t) && (t.q > 0 ==> !IsWordChar(s[t.q - 1]))
  }

  /** Position i is not inside a word. */
  ghost predicate Boundary(s: string, i: nat)
    requires i <= |s|
  {
    i == 0 || i == |s| || !IsWordChar(s[i - 1]) || !IsWordChar(s[i])
  }

  /** The lexemes from i on have each word from there on once. */
  lemma {:induction false} LexOnce(s: string, i: nat, t: Token)
    requires i <= |s| && Line(s) && Boundary(s, i)
    ensures WordBag(Lex(s, i))[t] == if MaxWord(s, t) && t.q >= i then 1 else 0
    decreases |s| - i
  {
    hide SkipSpace, SkipWord, WordBag;
    var g := GetToken(s, i);
    StepOver(s, i, t);
    if g.kind == '\0' {
      NoBag();
    } else {
      LexOnce(s, g.pos, t);
      FirstBag(AsLexeme(g), Lex(s, g.pos));
    }
  }

  lemma NoBag()
    ensures WordBag([]) == multiset{}
  {
  }

  lemma FirstBag(x: Lexeme<Token>, ls: seq<Lexeme<Token>>)
    ensures WordBag([x] + ls) == OneWord(x) + WordBag(ls)
  {
    assert ([x] + ls)[1..] == ls;
  }

  /** A whole word from i on is the token there, or it starts at or after the next cursor. */
  lemma StepOver(s: string, i: nat, t: Token)
    requires i <= |s| && Line(s) && Boundary(s, i)
    ensures var g := GetToken(s, i);
            && Boundary(s, g.pos)
            && (g.kind == '\0' ==> !(MaxWord(s, t) && t.q >= i))
            && (g.kind == 'a' ==> MaxWord(s, g.tok) && i <= g.tok.q < g.pos)
            && (g.kind != '\0' ==> (MaxWord(s, t) && t.q >= i <==> (g.kind == 'a' && t == g.tok) || (MaxWord(s, t) && t.q >= g.pos)))
  {
    hide SkipSpace, SkipWord;
    var g := GetToken(s, i);
    TokenIsWord(s, i);
    if MaxWord(s, t) && t.q >= i {
      assert t.q < |s| && IsWordChar(s[t.q]);
      if g.kind == 'a' && t.q < g.pos {
        SameWord(s, g.tok, t);
      }
    }
  }

  lemma SameWord(s: string, t: Token, u: Token)
    requires MaxWord(s, t) && MaxWord(s, u) && t.q <= u.q < t.e
    ensures t == u
  {
    assert u.q == t.q;
  }

  /** In a successful parse the words of the tree are exactly the words of the line, each once. */
  lemma EveryWordOnce(s: string, t: Token)
    requires Line(s) && ParseCmd(s).Parsed?
    ensures TokenBag(ParseCmd(s).cmd)[t] == if MaxWord(s, t) then 1 else 0
  {
    hide Lex, SequenceLex, SequenceTree, SequenceFits, ParseCmd, TokenBag;
    ParsesGrammar(s);
    var l :| Derives(s, l);
    SequenceBag(l);
    LexOnce(s, 0, t);
  }

  // ------------------------------------------------------------------ writing a command as text

  function Spell(x: Lexeme<string>): (r: string) {
    match x
    case Word(w) => w
    case Sym(kind) => if kind == '+' then ">>" else [kind]
  }

  /** Each lexeme with a blank after it. */
  function Render(ls: seq<Lexeme<string>>): (r: string) {
    if ls == [] then "" else Spell(ls[0]) + " " + Render(ls[1..])
  }

  ghost predicate Proper(x: Lexeme<string>) {
    match x
    case Word(w) => R.GoodWord(w)
    case Sym(kind) => IsKind(kind)
  }

  ghost predicate AllProper(ls: seq<Lexeme<string>>) {
    forall k | 0 <= k < |ls| :: Proper(ls[k])
  }

  function PlaceOne(x: Lexeme<string>, i: nat): (r: Lexeme<Token>) {
    match x
    case Word(w) => Word(Token(i, i + |w|))
    case Sym(kind) => Sym(kind)
  }

  /** The lexemes with the places that their words have when they are written from i on. */
  function Place(ls: seq<Lexeme<string>>, i: nat): (r: seq<Lexeme<Token>>) {
    if ls == [] then [] else [PlaceOne(ls[0], i)] + Place(ls[1..], i + |Spell(ls[0])| + 1)
  }

  lemma {:induction false} RenderJoin(a: seq<Lexeme<string>>, b: seq<Lexeme<string>>, i: nat)
    ensures Render(a + b) == Render(a) + Render(b)
    ensures Place(a + b, i) == Place(a, i) + Place(b, i + |Render(a)|)
  {
    hide Spell, PlaceOne;
    if a == [] {
      assert a + b == b;
    } else {
      var j := i + |Spell(a[0])| + 1;
      RenderJoin(a[1..], b, j);
      assert (a + b)[1..] == a[1..] + b && (a + b)[0] == a[0];
      assert Spell(a[0]) + " " + (Render(a[1..]) + Render(b)) == Spell(a[0]) + " " + Render(a[1..]) + Render(b);
      assert [PlaceOne(a[0], i)] + (Place(a[1..], j) + Place(b, j + |Render(a[1..])|))
          == [PlaceOne(a[0], i)] + Place(a[1..], j) + Place(b, i + |Render(a)|);
    }
  }

  lemma ProperStart(x: Lexeme<string>)
    requires Proper(x)
    ensures Spell(x) != "" && !IsSpace(Spell(x)[0])
  {
  }

  /** gettoken at a lexeme that has a blank and something else, or the end, after it. */
  lemma SpelledToken(s: string, i: nat, x: Lexeme<string>)
    requires Line(s) && Proper(x) && R.Has(s, i, Spell(x) + " ")
    requires var j := i + |Spell(x)| + 1; j < |s| ==> !IsSpace(s[j])
    ensures var g := GetToken(s, i); g.kind != '\0' && AsLexeme(g) == PlaceOne(x, i) && g.pos == i + |Spell(x)| + 1
  {
    hide R.Has, R.GoodWord;
    var j := i + |Spell(x)| + 1;
    R.HasSplit(s, i, Spell(x), " ");
    R.HasChar(s, j - 1, " ", 0);
    R.NoSpace(s, j);
    assert SkipSpace(s, j - 1) == j;
    ProperStart(x);
    R.HasChar(s, i, Spell(x), 0);
    R.NoSpace(s, i);
    match x
    case Word(w) => SpelledWord(s, i, w);
    case Sym(kind) => SpelledSymbol(s, i, kind);
  }

  lemma SpelledWord(s: string, i: nat, w: string)
    requires Line(s) && R.GoodWord(w) && R.Has(s, i, w) && i + |w| < |s| && IsSpace(s[i + |w|])
    ensures var g := GetToken(s, i); g.kind == 'a' && g.tok == Token(i, i + |w|) && g.pos == SkipSpace(s, i + |w|)
  {
    R.WordToken(s, i, w);
    R.NoSpace(s, i);
    R.WordEnd(s, i, w);
  }

  lemma SpelledSymbol(s: string, i: nat, kind: char)
    requires IsKind(kind) && R.Has(s, i, Spell(Sym(kind))) && SkipSpace(s, i) == i
    requires var j := i + |Spell(Sym(kind))|; j < |s| && IsSpace(s[j])
    ensures var g := GetToken(s, i); g.kind == kind && g.pos == SkipSpace(s, i + |Spell(Sym(kind))|)
  {
    hide SkipSpace, SkipWord;
    R.HasChar(s, i, Spell(Sym(kind)), 0);
    if kind == '+' {
      R.HasChar(s, i, Spell(Sym(kind)), 1);
    }
  }

  /** Written text gives back its lexemes. */
  lemma {:induction false} LexRendered(s: string, i: nat, ls: seq<Lexeme<string>>)
    requires Line(s) && AllProper(ls) && R.Has(s, i, Render(ls)) && i + |Render(ls)| == |s|
    ensures Lex(s, i) == Place(ls, i)
    decreases |ls|
  {
    hide GetToken, SkipSpace, Spell, PlaceOne, Proper, R.Has;
    if ls == [] {
      NothingLeft(s);
    } else {
      var x, j := ls[0], i + |Spell(ls[0])| + 1;
      R.HasSplit(s, i, Spell(x) + " ", Render(ls[1..]));
      RenderedStart(s, j, ls[1..]);
      SpelledToken(s, i, x);
      LexRendered(s, j, ls[1..]);
    }
  }

  lemma NothingLeft(s: string)
    requires Line(s)
    ensures Lex(s, |s|) == []
  {
  }

  lemma RenderedStart(s: string, i: nat, ls: seq<Lexeme<string>>)
    requires AllProper(ls) && R.Has(s, i, Render(ls)) && i + |Render(ls)| == |s|
    ensures i < |s| ==> !IsSpace(s[i])
  {
    hide Spell, Proper;
    if ls != [] {
      ProperStart(ls[0]);
      R.HasChar(s, i, Render(ls), 0);
    }
  }

  lemma {:induction false} RenderIsLine(ls: seq<Lexeme<string>>)
    requires AllProper(ls)
    ensures Line(Render(ls))
  {
    hide Proper, Spell;
    if ls != [] {
      RenderIsLine(ls[1..]);
      SpellIsLine(ls[0]);
    }
  }

  lemma SpellIsLine(x: Lexeme<string>)
    requires Proper(x)
    ensures Line(Spell(x))
  {
  }

  // ------------------------------------------------------------------ commands in their places

  function PlaceItem(x: Item<string>, i: nat): (r: Item<Token>) {
    match x
    case Arg(w) => Arg(Token(i, i + |w|))
    case To(kind, file) =>
      var j := i + |Spell(Sym(OpKind(kind)))| + 1;
      To(kind, Token(j, j + |file|))
  }

  function PlaceItems(items: seq<Item<string>>, i: nat): (r: seq<Item<Token>>)
    ensures |r| == |items| && forall k | 0 <= k < |items| :: r[k].To? == items[k].To?
  {
    if items == [] then [] else [PlaceItem(items[0], i)] + PlaceItems(items[1..], i + |Render(ItemLex(items[0]))|)
  }

  function PlaceCommand(c: Command<string>, i: nat): (r: Command<Token>)
    decreases c, 0
  {
    match c
    case Simple(items) => Simple(PlaceItems(items, i))
    case Block(line, redirs) =>
      Block(PlaceSequence(line, i + 2), PlaceItems(redirs, i + 2 + |Render(SequenceLex(line))| + 2))
  }

  function PlacePipeline(p: Pipeline<string>, i: nat): (r: Pipeline<Token>)
    decreases p, 1
  {
    match p
    case One(c) => One(PlaceCommand(c, i))
    case Piped(c, rest) => Piped(PlaceCommand(c, i), PlacePipeline(rest, i + |Render(CommandLex(c))| + 2))
  }

  function PlaceSequence(l: Sequence<string>, i: nat): (r: Sequence<Token>)
    decreases l, 2
  {
    match l
    case Last(p, n) => Last(PlacePipeline(p, i), n)
    case Then(p, n, next) =>
      Then(PlacePipeline(p, i), n, PlaceSequence(next, i + |Render(PipelineLex(p))| + |Render(Ands(n))| + 2))
  }

  lemma PlaceSym(kind: char, ls: seq<Lexeme<string>>, i: nat)
    requires kind != '+'
    ensures Place([Sym(kind)] + ls, i) == [Sym(kind)] + Place(ls, i + 2)
    ensures |Render([Sym(kind)] + ls)| == 2 + |Render(ls)|
  {
    assert ([Sym(kind)] + ls)[1..] == ls;
  }

  lemma {:induction false} ItemsPlaced(items: seq<Item<string>>, i: nat)
    ensures ItemsLex(PlaceItems(items, i)) == Place(ItemsLex(items), i)
    ensures |ArgsOf(PlaceItems(items, i))| == |ArgsOf(items)|
    decreases |items|
  {
    hide Render, Place, PlaceItem, ItemLex;
    if items == [] {
      NonePlaced(i);
    } else {
      var x, j := items[0], i + |Render(ItemLex(items[0]))|;
      ItemsPlaced(items[1..], j);
      ItemPlaced(x, i);
      RenderJoin(ItemLex(x), ItemsLex(items[1..]), i);
      FirstItem(PlaceItem(x, i), PlaceItems(items[1..], j));
    }
  }

  lemma NonePlaced(i: nat)
    ensures Place([], i) == []
  {
  }

  lemma ItemPlaced(x: Item<string>, i: nat)
    ensures ItemLex(PlaceItem(x, i)) == Place(ItemLex(x), i) && PlaceItem(x, i).Arg? == x.Arg?
  {
    match x
    case Arg(w) => assert [Word(w)][1..] == [];
    case To(kind, file) =>
      var op: Lexeme<string> := Sym(OpKind(kind));
      var j := i + |Spell(op)| + 1;
      assert [op, Word(file)][1..] == [Word(file)] && [Word(file)][1..] == [];
      assert Place([Word(file)], j) == [Word(Token(j, j + |file|))];
  }

  lemma {:induction false} CommandPlaced(c: Command<string>, i: nat)
    requires CommandFits(c)
    ensures CommandFits(PlaceCommand(c, i)) && CommandLex(PlaceCommand(c, i)) == Place(CommandLex(c), i)
    decreases c, 0
  {
    hide Render, Place, ItemsLex, ArgsOf, PlaceItems;
    match c
    case Simple(items) => ItemsPlaced(items, i);
    case Block(line, redirs) =>
      var j := i + 2 + |Render(SequenceLex(line))|;
      SequencePlaced(line, i + 2);
      ItemsPlaced(redirs, j + 2);
      PlaceSym('(', SequenceLex(line) + ([Sym(')')] + ItemsLex(redirs)), i);
      RenderJoin(SequenceLex(line), [Sym(')')] + ItemsLex(redirs), i + 2);
      PlaceSym(')', ItemsLex(redirs), j);
  }

  lemma {:induction false} PipelinePlaced(p: Pipeline<string>, i: nat)
    requires PipelineFits(p)
    ensures PipelineFits(PlacePipeline(p, i)) && PipelineLex(PlacePipeline(p, i)) == Place(PipelineLex(p), i)
    decreases p, 1
  {
    hide Render, Place, CommandLex, CommandFits, PlaceCommand;
    match p
    case One(c) => CommandPlaced(c, i);
    case Piped(c, rest) =>
      var j := i + |Render(CommandLex(c))|;
      CommandPlaced(c, i);
      PipelinePlaced(rest, j + 2);
      RenderJoin(CommandLex(c), [Sym('|')] + PipelineLex(rest), i);
      PlaceSym('|', PipelineLex(rest), j);
  }

  lemma {:induction false} AndsPlaced(n: nat, i: nat)
    ensures Place(Ands(n), i) == Ands(n)
    decreases n
  {
    hide Place, Render;
    if n == 0 {
      NonePlaced(i);
    } else {
      PlaceSym('&', Ands(n - 1), i);
      AndsPlaced(n - 1, i + 2);
    }
  }

  lemma {:induction false} SequencePlaced(l: Sequence<string>, i: nat)
    requires SequenceFits(l)
    ensures SequenceFits(PlaceSequence(l, i)) && SequenceLex(PlaceSequence(l, i)) == Place(SequenceLex(l), i)
    decreases l, 2
  {
    hide Render, Place, PipelineLex, PipelineFits, PlacePipeline;
    var j := i + |Render(PipelineLex(l.pipe))|;
    PipelinePlaced(l.pipe, i);
    AndsPlaced(l.ands, j);
    match l
    case Last(p, n) => RenderJoin(PipelineLex(p), Ands(n), i);
    case Then(p, n, next) =>
      var k := j + |Render(Ands(n))|;
      SequencePlaced(next, k + 2);
      RenderJoin(PipelineLex(p), Ands(n) + ([Sym(';')] + SequenceLex(next)), i);
      RenderJoin(Ands(n), [Sym(';')] + SequenceLex(next), j);
      PlaceSym(';', SequenceLex(next), k);
  }

  // ------------------------------------------------------------------ the words read back

  function TextAround(t: R.Tree, rs: seq<(Redirection, string)>): (r: R.Tree)
    decreases |rs|
  {
    if rs == [] then t else TextAround(R.TRedir(t, rs[0].0, rs[0].1), rs[1..])
  }

  function CommandText(c: Command<string>): (r: R.Tree)
    decreases c, 0
  {
    match c
    case Simple(items) => TextAround(R.TExec(ArgsOf(items)), RedirsOf(items))
    case Block(line, redirs) => TextAround(SequenceText(line), RedirsOf(redirs))
  }

  function PipelineText(p: Pipeline<string>): (r: R.Tree)
    decreases p, 1
  {
    match p
    case One(c) => CommandText(c)
    case Piped(c, rest) => R.TPipe(CommandText(c), PipelineText(rest))
  }

  function TextBackgrounded(t: R.Tree, n: nat): (r: R.Tree)
    decreases n
  {
    if n == 0 then t else TextBackgrounded(R.TBack(t), n - 1)
  }

  /** The tree of a command, with the words written out. */
  function SequenceText(l: Sequence<string>): (r: R.Tree)
    decreases l, 2
  {
    match l
    case Last(p, n) => TextBackgrounded(PipelineText(p), n)
    case Then(p, n, next) => R.TList(TextBackgrounded(PipelineText(p), n), SequenceText(next))
  }

  /** The redirections rs, with the file names looked up, are ts. */
  ghost predicate SameRedirs(s: string, rs: seq<(Redirection, Token)>, ts: seq<(Redirection, string)>) {
    |rs| == |ts| && forall k | 0 <= k < |rs| :: rs[k].0 == ts[k].0 && R.Text(s, rs[k].1) == ts[k].1
  }

  ghost predicate SameArgs(s: string, args: seq<Token>, ws: seq<string>) {
    |args| == |ws| && forall k | 0 <= k < |args| :: R.Text(s, args[k]) == ws[k]
  }

  lemma {:induction false} AroundResolves(s: string, cmd: Cmd, rs: seq<(Redirection, Token)>, ts: seq<(Redirection, string)>)
    requires SameRedirs(s, rs, ts)
    ensures R.Resolve(s, Around(cmd, rs)) == TextAround(R.Resolve(s, cmd), ts)
    decreases |rs|
  {
    if rs != [] {
      AroundResolves(s, Redir(cmd, rs[0].0, rs[0].1), rs[1..], ts[1..]);
    }
  }

  lemma {:induction false} BackgroundResolves(s: string, cmd: Cmd, n: nat)
    ensures R.Resolve(s, Backgrounded(cmd, n)) == TextBackgrounded(R.Resolve(s, cmd), n)
    decreases n
  {
    if n > 0 {
      BackgroundResolves(s, Back(cmd), n - 1);
    }
  }

  lemma HasText(s: string, i: nat, w: string)
    requires R.Has(s, i, w)
    ensures R.Text(s, Token(i, i + |w|)) == w
  {
  }

  lemma ItemReads(s: string, i: nat, x: Item<string>)
    requires R.Has(s, i, Render(ItemLex(x)))
    ensures SameArgs(s, OneArg(PlaceItem(x, i)), OneArg(x)) && SameRedirs(s, OneRedir(PlaceItem(x, i)), OneRedir(x))
  {
    hide R.Has, R.Text;
    match x
    case Arg(w) =>
      assert [Word(w)][1..] == [] && Render(ItemLex(x)) == w + " ";
      R.HasSplit(s, i, w, " ");
      HasText(s, i, w);
    case To(kind, file) =>
      var op: Lexeme<string> := Sym(OpKind(kind));
      assert [op, Word(file)][1..] == [Word(file)] && [Word(file)][1..] == [];
      assert Render([Word(file)]) == file + " ";
      R.HasSplit(s, i, Spell(op) + " ", file + " ");
      R.HasSplit(s, i + |Spell(op)| + 1, file, " ");
      HasText(s, i + |Spell(op)| + 1, file);
  }

  lemma {:induction false} ItemsRead(s: string, i: nat, items: seq<Item<string>>)
    requires R.Has(s, i, Render(ItemsLex(items)))
    ensures SameArgs(s, ArgsOf(PlaceItems(items, i)), ArgsOf(items))
    ensures SameRedirs(s, RedirsOf(PlaceItems(items, i)), RedirsOf(items))
    decreases |items|
  {
    hide R.Has, R.Text, Render, PlaceItem, ItemLex, OneArg, OneRedir, SameArgs, SameRedirs;
    if items == [] {
      NoneRead(s);
    } else {
      var x, j := items[0], i + |Render(ItemLex(items[0]))|;
      RenderJoin(ItemLex(x), ItemsLex(items[1..]), i);
      R.HasSplit(s, i, Render(ItemLex(x)), Render(ItemsLex(items[1..])));
      ItemReads(s, i, x);
      ItemsRead(s, j, items[1..]);
      FirstItem(PlaceItem(x, i), PlaceItems(items[1..], j));
      SameJoin(s, OneArg(PlaceItem(x, i)), OneArg(x), ArgsOf(PlaceItems(items[1..], j)), ArgsOf(items[1..]));
      SameRedirsJoin(s, OneRedir(PlaceItem(x, i)), OneRedir(x), RedirsOf(PlaceItems(items[1..], j)), RedirsOf(items[1..]));
    }
  }

  lemma NoneRead(s: string)
    ensures SameArgs(s, [], []) && SameRedirs(s, [], [])
  {
  }

  lemma SameJoin(s: string, a: seq<Token>, ws: seq<string>, b: seq<Token>, vs: seq<string>)
    requires SameArgs(s, a, ws) && SameArgs(s, b, vs)
    ensures SameArgs(s, a + b, ws + vs)
  {
    hide R.Text;
  }

  lemma SameRedirsJoin(s: string, a: seq<(Redirection, Token)>, ws: seq<(Redirection, string)>, b: seq<(Redirection, Token)>, vs: seq<(Redirection, string)>)
    requires SameRedirs(s, a, ws) && SameRedirs(s, b, vs)
    ensures SameRedirs(s, a + b, ws + vs)
  {
    hide R.Text;
  }

  lemma {:induction false} CommandReads(s: string, i: nat, c: Command<string>)
    requires R.Has(s, i, Render(CommandLex(c)))
    ensures R.Resolve(s, CommandTree(PlaceCommand(c, i))) == CommandText(c)
    decreases c, 0
  {
    hide R.Has, R.Text, Render, ItemsLex, ArgsOf, RedirsOf, PlaceItems, Around, TextAround;
    match c
    case Simple(items) =>
      ItemsRead(s, i, items);
      var args := ArgsOf(PlaceItems(items, i));
      AroundResolves(s, Exec(args), RedirsOf(PlaceItems(items, i)), RedirsOf(items));
      assert R.Texts(s, args) == ArgsOf(items);
    case Block(line, redirs) =>
      var j := i + 2 + |Render(SequenceLex(line))|;
      BlockText(s, i, line, redirs);
      SequenceReads(s, i + 2, line);
      ItemsRead(s, j + 2, redirs);
      AroundResolves(s, SequenceTree(PlaceSequence(line, i + 2)), RedirsOf(PlaceItems(redirs, j + 2)), RedirsOf(redirs));
  }

  lemma BlockText(s: string, i: nat, line: Sequence<string>, redirs: seq<Item<string>>)
    requires R.Has(s, i, Render(CommandLex(Block(line, redirs))))
    ensures R.Has(s, i + 2, Render(SequenceLex(line)))
    ensures R.Has(s, i + 2 + |Render(SequenceLex(line))| + 2, Render(ItemsLex(redirs)))
  {
    hide R.Has, SequenceLex, ItemsLex;
    var rest := [Sym(')')] + ItemsLex(redirs);
    RenderSym('(', SequenceLex(line) + rest);
    R.HasSplit(s, i, "( ", Render(SequenceLex(line) + rest));
    RenderJoin(SequenceLex(line), rest, i);
    R.HasSplit(s, i + 2, Render(SequenceLex(line)), Render(rest));
    RenderSym(')', ItemsLex(redirs));
    R.HasSplit(s, i + 2 + |Render(SequenceLex(line))|, ") ", Render(ItemsLex(redirs)));
  }

  lemma RenderSym(kind: char, ls: seq<Lexeme<string>>)
    requires kind != '+'
    ensures Render([Sym(kind)] + ls) == [kind, ' '] + Render(ls)
  {
    assert ([Sym(kind)] + ls)[1..] == ls;
    assert [kind] + " " == [kind, ' '];
  }

  lemma {:induction false} PipelineReads(s: string, i: nat, p: Pipeline<string>)
    requires R.Has(s, i, Render(PipelineLex(p)))
    ensures R.Resolve(s, PipelineTree(PlacePipeline(p, i))) == PipelineText(p)
    decreases p, 1
  {
    hide R.Has, Render, CommandLex, PlaceCommand, CommandTree, CommandText;
    match p
    case One(c) => CommandReads(s, i, c);
    case Piped(c, rest) =>
      var j := i + |Render(CommandLex(c))|;
      RenderJoin(CommandLex(c), [Sym('|')] + PipelineLex(rest), i);
      R.HasSplit(s, i, Render(CommandLex(c)), Render([Sym('|')] + PipelineLex(rest)));
      RenderSym('|', PipelineLex(rest));
      R.HasSplit(s, j, "| ", Render(PipelineLex(rest)));
      CommandReads(s, i, c);
      PipelineReads(s, j + 2, rest);
  }

  lemma {:induction false} SequenceReads(s: string, i: nat, l: Sequence<string>)
    requires R.Has(s, i, Render(SequenceLex(l)))
    ensures R.Resolve(s, SequenceTree(PlaceSequence(l, i))) == SequenceText(l)
    decreases l, 2
  {
    hide R.Has, Render, PipelineLex, PlacePipeline, PipelineTree, PipelineText, Backgrounded, TextBackgrounded, Ands;
    var p, n := l.pipe, l.ands;
    var rest := if l.Last? then [] else [Sym(';')] + SequenceLex(l.next);
    assert l.Last? ==> Ands(n) + rest == Ands<string>(n);
    ThreeParts(s, i, PipelineLex(p), Ands(n), rest);
    PipelineReads(s, i, p);
    BackgroundResolves(s, PipelineTree(PlacePipeline(p, i)), n);
    if l.Then? {
      SemicolonThen(s, i + |Render(PipelineLex(p))| + |Render(Ands<string>(n))|, l.next);
      SequenceReads(s, i + |Render(PipelineLex(p))| + |Render(Ands<string>(n))| + 2, l.next);
    }
  }

  lemma ThreeParts(s: string, i: nat, a: seq<Lexeme<string>>, b: seq<Lexeme<string>>, c: seq<Lexeme<string>>)
    requires R.Has(s, i, Render(a + (b + c)))
    ensures R.Has(s, i, Render(a)) && R.Has(s, i + |Render(a)| + |Render(b)|, Render(c))
  {
    hide R.Has, Render;
    TwoParts(s, i, a, b + c);
    TwoParts(s, i + |Render(a)|, b, c);
  }

  lemma TwoParts(s: string, i: nat, a: seq<Lexeme<string>>, b: seq<Lexeme<string>>)
    requires R.Has(s, i, Render(a + b))
    ensures R.Has(s, i, Render(a)) && R.Has(s, i + |Render(a)|, Render(b))
  {
    hide R.Has, Render;
    RenderJoin(a, b, i);
    R.HasSplit(s, i, Render(a), Render(b));
  }

  lemma SemicolonThen(s: string, k: nat, next: Sequence<string>)
    requires R.Has(s, k, Render([Sym(';')] + SequenceLex(next)))
    ensures R.Has(s, k + 2, Render(SequenceLex(next)))
  {
    hide R.Has, Render, SequenceLex;
    RenderSym(';', SequenceLex(next));
    R.HasSplit(s, k, "; ", Render(SequenceLex(next)));
  }

  /** The text of any command of the grammar parses to the tree of that command: words and
      redirections in any order, pipelines, lists, background commands and blocks. */
  lemma TextParses(l: Sequence<string>)
    requires SequenceFits(l) && AllProper(SequenceLex(l))
    ensures var s := Render(SequenceLex(l));
            Line(s) && ParseCmd(s).Parsed? && R.Resolve(s, ParseCmd(s).cmd) == SequenceText(l)
  {
    hide Render, SequenceLex, SequenceFits, SequenceTree, SequenceText, PlaceSequence, ParseCmd, Place;
    var s := Render(SequenceLex(l));
    RenderIsLine(SequenceLex(l));
    assert R.Has(s, 0, s);
    LexRendered(s, 0, SequenceLex(l));
    SequencePlaced(l, 0);
    ParsesGrammar(s);
    assert Derives(s, PlaceSequence(l, 0));
    SequenceReads(s, 0, l);
  }

  /** As an instance: two words and a redirection after them. */
  lemma RedirectionText(w: string, v: string, f: string)
    requires R.GoodWord(w) && R.GoodWord(v) && R.GoodWord(f)
    ensures var s := Render([Word(w), Word(v), Sym('>'), Word(f)]);
            Line(s) && ParseCmd(s).Parsed? && R.Resolve(s, ParseCmd(s).cmd) == R.TRedir(R.TExec([w, v]), Output, f)
  {
    hide R.GoodWord, Line, ParseCmd, R.Resolve, Render, ItemsLex, ArgsOf, RedirsOf, SequenceLex, SequenceFits, SequenceText, TextAround;
    var items := [Arg(w), Arg(v), To(Output, f)];
    TwoArgsAndFile(w, v, f);
    OneAround(R.TExec([w, v]), Output, f);
    JustItems(items);
    TextParses(Last(One(Simple(items)), 0));
  }

  /** A line that is one simple command. */
  lemma JustItems(items: seq<Item<string>>)
    ensures var l := Last(One(Simple(items)), 0);
            && SequenceLex(l) == ItemsLex(items) && (SequenceFits(l) <==> |ArgsOf(items)| < MAXARGS)
            && SequenceText(l) == TextAround(R.TExec(ArgsOf(items)), RedirsOf(items))
  {
    hide ItemsLex, ArgsOf, RedirsOf, TextAround;
    var c := Simple(items);
    var p := One(c);
    assert CommandLex(c) == ItemsLex(items) && PipelineLex(p) == CommandLex(c);
    assert PipelineFits(p) <==> CommandFits(c);
    assert PipelineText(p) == CommandText(c);
    assert PipelineLex(p) + Ands(0) == PipelineLex(p);
  }

  lemma TwoArgsAndFile(w: string, v: string, f: string)
    ensures var items := [Arg(w), Arg(v), To(Output, f)];
            && ItemsLex(items) == [Word(w), Word(v), Sym('>'), Word(f)]
            && ArgsOf(items) == [w, v] && RedirsOf(items) == [(Output, f)]
  {
    hide ItemsLex, ArgsOf, RedirsOf;
    Nothing();
    var c := [To(Output, f)] + [];
    var b := [Arg(v)] + c;
    assert [Arg(w), Arg(v), To(Output, f)] == [Arg(w)] + b;
    FirstItem(To(Output, f), []);
    FirstItem(Arg(v), c);
    FirstItem(Arg(w), b);
  }

  lemma Nothing()
    ensures ItemsLex<string>([]) == [] && ArgsOf<string>([]) == [] && RedirsOf<string>([]) == []
  {
  }

  lemma OneAround(t: R.Tree, kind: Redirection, file: string)
    ensures TextAround(t, [(kind, file)]) == R.TRedir(t, kind, file)
  {
    assert [(kind, file)][1..] == [];
  }
}

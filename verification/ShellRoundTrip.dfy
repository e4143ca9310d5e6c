/** Parsing the fully parenthesised text of any command gives that command back. */
module ShellRoundTrip {
  import opened Shell

  /** A command with its words written out. */
  datatype Tree =
    | TExec(args: seq<string>)
    | TRedir(cmd: Tree, kind: Redirection, file: string)
    | TPipe(left: Tree, right: Tree)
    | TList(left: Tree, right: Tree)
    | TBack(cmd: Tree)

  ghost predicate GoodWord(w: string) {
    w != [] && forall k | 0 <= k < |w| :: IsWordChar(w[k])
  }

  /** Every word of the command is one. */
  ghost predicate Words(t: Tree) {
    match t
    case TExec(args) => forall k | 0 <= k < |args| :: GoodWord(args[k])
    case TRedir(c, _, file) => Words(c) && GoodWord(file)
    case TPipe(l, r) => Words(l) && Words(r)
    case TList(l, r) => Words(l) && Words(r)
    case TBack(c) => Words(c)
  }

  /** No part of the command has MAXARGS arguments. */
  ghost predicate Small(t: Tree) {
    match t
    case TExec(args) => |args| < MAXARGS
    case TRedir(c, _, _) => Small(c)
    case TPipe(l, r) => Small(l) && Small(r)
    case TList(l, r) => Small(l) && Small(r)
    case TBack(c) => Small(c)
  }

  function Operator(kind: Redirection): (r: string)
    ensures 1 <= |r| <= 2
  {
    match kind
    case Input => "<"
    case Output => ">"
    case Append => ">>"
  }

  function ShowArgs(args: seq<string>): (r: string) {
    if args == [] then "" else args[0] + " " + ShowArgs(args[1..])
  }

  /** The canonical text: every part of a composite command in parentheses. */
  function Show(t: Tree): (r: string) {
    match t
    case TExec(args) => ShowArgs(args)
    case TRedir(c, kind, file) => "(" + Show(c) + ")" + Operator(kind) + file
    case TPipe(l, r) => "(" + Show(l) + ")|(" + Show(r) + ")"
    case TList(l, r) => "(" + Show(l) + ");(" + Show(r) + ")"
    case TBack(c) => "(" + Show(c) + ")&"
  }

  function Text(s: string, t: Token): (r: string) {
    if t.q <= t.e <= |s| then s[t.q..t.e] else ""
  }

  /** A parsed command with its tokens looked up in the line. */
  function Resolve(s: string, c: Cmd): (t: Tree) {
    match c
    case Exec(args) => TExec(Texts(s, args))
    case Redir(d, kind, file) => TRedir(Resolve(s, d), kind, Text(s, file))
    case Pipe(l, r) => TPipe(Resolve(s, l), Resolve(s, r))
    case List(l, r) => TList(Resolve(s, l), Resolve(s, r))
    case Back(d) => TBack(Resolve(s, d))
  }

  function Texts(s: string, args: seq<Token>): (r: seq<string>)
    ensures |r| == |args| && forall k | 0 <= k < |args| :: r[k] == Text(s, args[k])
  {
    if args == [] then [] else Texts(s, args[..|args| - 1]) + [Text(s, args[|args| - 1])]
  }

  /** The text x stands at position i of the line. */
  ghost predicate Has(s: string, i: nat, x: string) {
    i + |x| <= |s| && s[i..i + |x|] == x
  }

  lemma HasSplit(s: string, i: nat, x: string, y: string)
    ensures Has(s, i, x + y) <==> Has(s, i, x) && Has(s, i + |x|, y)
  {
    if i + |x| + |y| <= |s| {
      assert s[i..i + |x| + |y|] == s[i..i + |x|] + s[i + |x|..i + |x| + |y|];
    }
    if Has(s, i, x + y) {
      assert s[i..i + |x|] == (x + y)[..|x|] && s[i + |x|..i + |x| + |y|] == (x + y)[|x|..];
    }
  }

  /** What may follow a command: a closing parenthesis or the end. */
  ghost predicate Closed(s: string, i: nat) {
    i == |s| || (i < |s| && s[i] == ')')
  }

  // ------------------------------------------------------------------ single tokens

  lemma NoSpace(s: string, i: nat)
    requires i <= |s| && (i < |s| ==> !IsSpace(s[i]))
    ensures SkipSpace(s, i) == i
  {
  }

  lemma SymbolToken(s: string, i: nat)
    requires i < |s| && IsSymbol(s[i]) && (s[i] == '>' ==> CharAt(s, i + 1) != '>')
    requires i + 1 < |s| ==> !IsSpace(s[i + 1])
    ensures GetToken(s, i) == Got(s[i], Token(i, i + 1), i + 1)
  {
  }

  lemma {:induction false} WordEnd(s: string, i: nat, w: string)
    requires Has(s, i, w) && forall k | 0 <= k < |w| :: IsWordChar(w[k])
    requires i + |w| < |s| ==> !IsWordChar(s[i + |w|])
    requires Line(s)
    ensures SkipWord(s, i) == i + |w|
    decreases |w|
  {
  }

  lemma WordToken(s: string, i: nat, w: string)
    requires Has(s, i, w) && GoodWord(w) && Line(s)
    requires i + |w| < |s| ==> !IsWordChar(s[i + |w|])
    ensures var g := GetToken(s, i);
            g.kind == 'a' && Text(s, g.tok) == w && g.pos == SkipSpace(s, i + |w|)
  {
    assert s[i] == s[i..i + |w|][0] == w[0];
    NoSpace(s, i);
    WordEnd(s, i, w);
  }

  lemma HasChar(s: string, i: nat, x: string, k: nat)
    requires Has(s, i, x) && k < |x|
    ensures i + k < |s| && s[i + k] == x[k]
  {
  }

  /** At the end of a command nothing more is found. */
  lemma ClosedTail(s: string, i: nat)
    requires Closed(s, i)
    ensures SkipSpace(s, i) == i
    ensures !Peek(s, i, "|") && !Peek(s, i, "&") && !Peek(s, i, ";") && !Peek(s, i, "<>") && !Peek(s, i, "(")
  {
  }

  // ------------------------------------------------------------------ plain commands

  lemma {:induction false} ArgsBack(s: string, i: nat, args: seq<string>, done: seq<Token>)
    requires Line(s) && Has(s, i, ShowArgs(args)) && Closed(s, i + |ShowArgs(args)|)
    requires |done| + |args| < MAXARGS && forall k | 0 <= k < |args| :: GoodWord(args[k])
    ensures var r := ParseArgs(s, i, done, []);
            && r.Parsed? && r.pos == i + |ShowArgs(args)|
            && r.cmd.Exec? && Texts(s, r.cmd.args) == Texts(s, done) + args
    decreases |args|
  {
    hide ParseArgs, GetToken, Peek, SkipSpace, Has, ShowArgs, GoodWord, Texts, Text;
    if args == [] {
      NoArgs();
      ArgsNone(s, i, done);
    } else {
      ArgsStep(s, i, args, done);
      var w := GetToken(s, i);
      ArgsBack(s, w.pos, args[1..], done + [w.tok]);
      assert Texts(s, done + [w.tok]) + args[1..] == Texts(s, done) + args;
    }
  }

  lemma NoArgs()
    ensures ShowArgs([]) == ""
  {
  }

  lemma ArgsNone(s: string, i: nat, done: seq<Token>)
    requires Line(s) && Closed(s, i)
    ensures ShowArgs([]) == "" && ParseArgs(s, i, done, []) == Parsed(Exec(done), i)
  {
  }

  lemma ArgsStart(s: string, i: nat, args: seq<string>)
    requires Has(s, i, ShowArgs(args)) && Closed(s, i + |ShowArgs(args)|) && forall k | 0 <= k < |args| :: GoodWord(args[k])
    ensures SkipSpace(s, i) == i && !Peek(s, i, "<>") && !Peek(s, i, "(")
    ensures args != [] ==> !Peek(s, i, "|)&;")
  {
  }

  lemma ArgsStep(s: string, i: nat, args: seq<string>, done: seq<Token>)
    requires Line(s) && Has(s, i, ShowArgs(args)) && Closed(s, i + |ShowArgs(args)|) && args != []
    requires |done| + |args| < MAXARGS && forall k | 0 <= k < |args| :: GoodWord(args[k])
    ensures var w := GetToken(s, i);
            && w.pos == i + |args[0]| + 1 && Text(s, w.tok) == args[0]
            && Has(s, w.pos, ShowArgs(args[1..])) && w.pos + |ShowArgs(args[1..])| == i + |ShowArgs(args)|
            && ParseArgs(s, i, done, []) == ParseArgs(s, w.pos, done + [w.tok], [])
  {
    hide GetToken, Has, ShowArgs, Text, GoodWord, Peek;
    FirstWord(s, i, args);
    ArgsStart(s, i, args);
    ArgsStart(s, i + |args[0]| + 1, args[1..]);
  }

  /** The first argument, as gettoken finds it. */
  lemma FirstWord(s: string, i: nat, args: seq<string>)
    requires Line(s) && Has(s, i, ShowArgs(args)) && Closed(s, i + |ShowArgs(args)|) && args != []
    requires forall k | 0 <= k < |args| :: GoodWord(args[k])
    ensures var w := GetToken(s, i);
            && w.kind == 'a' && w.pos == i + |args[0]| + 1 && Text(s, w.tok) == args[0]
            && Has(s, w.pos, ShowArgs(args[1..])) && w.pos + |ShowArgs(args[1..])| == i + |ShowArgs(args)|
  {
    hide GetToken, Has, Text, GoodWord, Peek;
    var word, rest := args[0], ShowArgs(args[1..]);
    assert GoodWord(word);
    assert ShowArgs(args) == word + (" " + rest);
    HasSplit(s, i, word, " " + rest);
    HasSplit(s, i + |word|, " ", rest);
    HasChar(s, i + |word|, " ", 0);
    WordToken(s, i, word);
    ArgsStart(s, i + |word| + 1, args[1..]);
    assert SkipSpace(s, i + |word|) == i + |word| + 1;
  }

  lemma ExecBack(s: string, i: nat, args: seq<string>)
    requires Line(s) && Has(s, i, ShowArgs(args)) && Closed(s, i + |ShowArgs(args)|)
    requires |args| < MAXARGS && forall k | 0 <= k < |args| :: GoodWord(args[k])
    ensures var r := ParseExec(s, i);
            r.Parsed? && r.pos == i + |ShowArgs(args)| && Resolve(s, r.cmd) == TExec(args)
  {
    hide ParseArgs, GetToken, SkipSpace, Has, ShowArgs, GoodWord, Peek, ParseBlock;
    ArgsStart(s, i, args);
    ArgsBack(s, i, args, []);
    assert Texts(s, []) + args == args;
  }

  // ------------------------------------------------------------------ parenthesised commands

  lemma ShowStart(t: Tree)
    requires Words(t)
    ensures Show(t) != "" ==> !IsSpace(Show(t)[0])
  {
  }

  /** Once the text inside the parentheses parses back, so does the block with them. */
  ghost predicate ParsesBack(s: string, i: nat, t: Tree)
    requires i <= |s| && Line(s)
  {
    var r := ParseLine(s, i);
    r.Parsed? && r.pos == i + |Show(t)| && Resolve(s, r.cmd) == t
  }

  ghost predicate HasBlock(s: string, i: nat, t: Tree) {
    Has(s, i, "(" + Show(t) + ")")
  }

  lemma BlockParts(s: string, i: nat, t: Tree)
    requires HasBlock(s, i, t) && Words(t)
    ensures i + 2 + |Show(t)| <= |s| && s[i] == '(' && s[i + 1 + |Show(t)|] == ')'
    ensures Has(s, i + 1, Show(t)) && Closed(s, i + 1 + |Show(t)|)
    ensures SkipSpace(s, i) == i && GetToken(s, i).pos == i + 1 && Peek(s, i, "(")
  {
    hide Has, Show, Words, GetToken, SkipSpace;
    var x := Show(t);
    assert "(" + x + ")" == "(" + (x + ")");
    HasSplit(s, i, "(", x + ")");
    HasSplit(s, i + 1, x, ")");
    HasChar(s, i, "(", 0);
    HasChar(s, i + 1 + |x|, ")", 0);
    ShowStart(t);
    if x != "" {
      HasChar(s, i + 1, x, 0);
    }
    NoSpace(s, i);
    SymbolToken(s, i);
  }

  lemma SymbolAt(s: string, i: nat, c: char)
    requires i < |s| && s[i] == c && IsSymbol(c) && c != '>' && i + 1 <= |s| && (i + 1 < |s| ==> !IsSpace(s[i + 1]))
    ensures SkipSpace(s, i) == i && GetToken(s, i).pos == i + 1 && Peek(s, i, [c])
    ensures c != '|' ==> !Peek(s, i, "|")
    ensures c != '&' ==> !Peek(s, i, "&")
  {
  }

  /** The parentheses and the text inside are one command, with the redirections after it. */
  lemma BlockBack(s: string, i: nat, t: Tree)
    requires Line(s) && HasBlock(s, i, t) && Words(t)
    requires i + 1 <= |s| && ParsesBack(s, i + 1, t)
    requires var j := i + 2 + |Show(t)|; j < |s| ==> !IsSpace(s[j])
    ensures BlockThenRedirs(s, i, i + 2 + |Show(t)|)
  {
    hide ParseLine, ParseRedirs, Has, Show, Words, SkipSpace, Peek, GetToken, Wrap;
    BlockParts(s, i, t);
    SymbolAt(s, i + 1 + |Show(t)|, ')');
    assert [')'] == ")";
    assert ParseExec(s, i) == ParseBlock(s, i);
  }

  ghost predicate BlockThenRedirs(s: string, i: nat, j: nat) {
    && Line(s) && i + 1 <= |s| && j <= |s| && ParseLine(s, i + 1).Parsed?
    && var rs := ParseRedirs(s, j, []);
       ParseExec(s, i) == if rs.RedirPanic? then Panic else Parsed(Wrap(ParseLine(s, i + 1).cmd, rs.rs), rs.pos)
  }

  /** parseexec at i gives t and stops at j. */
  ghost predicate ExecIs(s: string, i: nat, j: nat, t: Tree) {
    i <= |s| && Line(s) && ParseExec(s, i).Parsed? && ParseExec(s, i).pos == j && Resolve(s, ParseExec(s, i).cmd) == t
  }

  ghost predicate LineIs(s: string, i: nat, j: nat, t: Tree) {
    i <= |s| && Line(s) && ParseLine(s, i).Parsed? && ParseLine(s, i).pos == j && Resolve(s, ParseLine(s, i).cmd) == t
  }

  /** The symbol c, and no blank, stands at j. */
  ghost predicate SymbolIs(s: string, j: nat, c: char) {
    && j < |s| && SkipSpace(s, j) == j && GetToken(s, j).pos == j + 1 && Peek(s, j, [c])
    && (c != '|' ==> !Peek(s, j, "|")) && (c != '&' ==> !Peek(s, j, "&"))
  }

  lemma NoRedir(s: string, j: nat)
    requires Line(s) && j <= |s| && (j < |s| ==> IsSymbol(s[j]) && s[j] != '<' && s[j] != '>')
    ensures ParseRedirs(s, j, []) == Redirs([], j) && SkipSpace(s, j) == j
  {
  }

  /** A block with no redirection after it. */
  lemma BlockAlone(s: string, i: nat, t: Tree)
    requires Line(s) && HasBlock(s, i, t) && Words(t)
    requires i + 1 <= |s| && ParsesBack(s, i + 1, t)
    requires var j := i + 2 + |Show(t)|; j < |s| ==> IsSymbol(s[j]) && s[j] != '<' && s[j] != '>'
    ensures var r, j := ParseExec(s, i), i + 2 + |Show(t)|;
            r.Parsed? && r.pos == j && j <= |s| && Resolve(s, r.cmd) == t && SkipSpace(s, j) == j
  {
    hide ParseLine, ParseBlock, ParseRedirs, Has, Show, Words, SkipSpace, Peek, GetToken;
    BlockBack(s, i, t);
    NoRedir(s, i + 2 + |Show(t)|);
  }

  /** The first of two blocks with one symbol between them. */
  lemma FirstBlock(s: string, i: nat, l: Tree, c: char, r: Tree, j: nat)
    requires Line(s) && Words(l) && Words(r) && i + 1 <= |s| && ParsesBack(s, i + 1, l)
    requires IsSymbol(c) && c != '>' && c != '<' && j == i + 2 + |Show(l)|
    requires HasBlock(s, i, l) && Has(s, j, [c]) && HasBlock(s, j + 1, r)
    ensures ExecIs(s, i, j, l) && SymbolIs(s, j, c)
  {
    hide ParseLine, ParsePipe, ParseExec, ParseBlock, GetToken, SkipSpace, Peek, Has, ShowArgs, Show, Operator, GoodWord, Words, ParseRedirs, ParseArgs, Resolve;
    HasChar(s, j, [c], 0);
    BlockParts(s, j + 1, r);
    SymbolAt(s, j, c);
    BlockAlone(s, i, l);
  }

  /** Two blocks with one symbol between them, as parseexec and gettoken see them. */
  lemma BothBlocks(s: string, i: nat, l: Tree, c: char, r: Tree, j: nat)
    requires Line(s) && Words(l) && Words(r) && i + 1 <= |s| && ParsesBack(s, i + 1, l)
    requires IsSymbol(c) && c != '>' && c != '<' && j == i + 2 + |Show(l)| && j + 2 <= |s| && ParsesBack(s, j + 2, r)
    requires HasBlock(s, i, l) && Has(s, j, [c]) && HasBlock(s, j + 1, r) && Closed(s, j + 3 + |Show(r)|)
    ensures ExecIs(s, i, j, l) && SymbolIs(s, j, c) && ExecIs(s, j + 1, j + 3 + |Show(r)|, r)
  {
    hide ParseLine, ParsePipe, ParseExec, ParseBlock, GetToken, SkipSpace, Peek, Has, ShowArgs, Show, Operator, GoodWord, Words, ParseRedirs, ParseArgs, Resolve;
    FirstBlock(s, i, l, c, r, j);
    BlockAlone(s, j + 1, r);
  }

  lemma PipeBack(s: string, i: nat, l: Tree, r: Tree, j: nat)
    requires Line(s) && Words(l) && Words(r) && i + 1 <= |s| && ParsesBack(s, i + 1, l)
    requires j == i + 2 + |Show(l)| && j + 2 <= |s| && ParsesBack(s, j + 2, r)
    requires HasBlock(s, i, l) && Has(s, j, "|") && HasBlock(s, j + 1, r) && Closed(s, j + 3 + |Show(r)|)
    ensures LineIs(s, i, j + 3 + |Show(r)|, TPipe(l, r))
  {
    hide ParseLine, ParseExec, ParsePipe, ParseBlock, GetToken, SkipSpace, Peek, Has, HasBlock, ShowArgs, Show, Operator, GoodWord, Words, ParseRedirs, ParseArgs;
    BothBlocks(s, i, l, '|', r, j);
    PipeOfExec(s, j + 1);
    PipeGoesOn(s, i);
    LineOfPipe(s, i);
  }

  lemma PipeGoesOn(s: string, i: nat)
    requires Line(s) && i <= |s| && ParseExec(s, i).Parsed?
    requires var j := ParseExec(s, i).pos; Peek(s, j, "|") && ParsePipe(s, GetToken(s, j).pos).Parsed?
    ensures var left := ParseExec(s, i);
            var right := ParsePipe(s, GetToken(s, left.pos).pos);
            ParsePipe(s, i) == Parsed(Pipe(left.cmd, right.cmd), right.pos)
  {
  }

  /** A pipeline at the end of a command is the whole line. */
  lemma LineOfPipe(s: string, i: nat)
    requires Line(s) && i <= |s| && ParsePipe(s, i).Parsed? && Closed(s, ParsePipe(s, i).pos)
    ensures ParseLine(s, i) == ParsePipe(s, i)
  {
    hide ParsePipe;
    ClosedTail(s, ParsePipe(s, i).pos);
  }

  lemma PipeStops(s: string, i: nat)
    requires Line(s) && i <= |s| && ParseExec(s, i).Parsed?
    requires var j := ParseExec(s, i).pos; !Peek(s, j, "|") && SkipSpace(s, j) == j
    ensures ParsePipe(s, i) == ParseExec(s, i)
  {
  }

  lemma LineOfList(s: string, i: nat)
    requires Line(s) && i <= |s| && ParsePipe(s, i).Parsed?
    requires var j := ParsePipe(s, i).pos;
             && !Peek(s, j, "&") && SkipSpace(s, j) == j && Peek(s, j, ";")
             && ParseLine(s, GetToken(s, j).pos).Parsed?
    ensures var j := ParsePipe(s, i).pos;
            var rest := ParseLine(s, GetToken(s, j).pos);
            ParseLine(s, i) == Parsed(List(ParsePipe(s, i).cmd, rest.cmd), rest.pos)
  {
  }

  lemma LineOfBack(s: string, i: nat)
    requires Line(s) && i <= |s| && ParsePipe(s, i).Parsed?
    requires var j := ParsePipe(s, i).pos;
             Peek(s, j, "&") && GetToken(s, j).pos == j + 1 && Closed(s, j + 1)
    ensures ParseLine(s, i) == Parsed(Back(ParsePipe(s, i).cmd), ParsePipe(s, i).pos + 1)
  {
    hide ParsePipe, Peek, SkipSpace, GetToken;
    var first := ParsePipe(s, i);
    ClosedTail(s, first.pos + 1);
    assert Backs(s, first.pos + 1, Back(first.cmd)) == Parsed(Back(first.cmd), first.pos + 1);
  }

  lemma ListBack(s: string, i: nat, l: Tree, r: Tree, j: nat)
    requires Line(s) && Words(l) && Words(r) && i + 1 <= |s| && ParsesBack(s, i + 1, l)
    requires j == i + 2 + |Show(l)| && j + 2 <= |s| && ParsesBack(s, j + 2, r)
    requires HasBlock(s, i, l) && Has(s, j, ";") && HasBlock(s, j + 1, r) && Closed(s, j + 3 + |Show(r)|)
    ensures LineIs(s, i, j + 3 + |Show(r)|, TList(l, r))
  {
    hide ParseLine, ParsePipe, ParseExec, ParseBlock, GetToken, SkipSpace, Peek, Has, HasBlock, ShowArgs, Show, Operator, GoodWord, Words, ParseRedirs, ParseArgs;
    BothBlocks(s, i, l, ';', r, j);
    PipeOfExec(s, j + 1);
    LineOfPipe(s, j + 1);
    PipeStops(s, i);
    LineOfList(s, i);
  }

  lemma BackBack(s: string, i: nat, c: Tree)
    requires Line(s) && Words(c) && i + 1 <= |s| && ParsesBack(s, i + 1, c)
    requires HasBlock(s, i, c) && Has(s, i + 2 + |Show(c)|, "&") && Closed(s, i + 3 + |Show(c)|)
    ensures LineIs(s, i, i + 3 + |Show(c)|, TBack(c))
  {
    hide HasBlock, ParseLine, ParsePipe, ParseExec, ParseBlock, GetToken, SkipSpace, Peek, Has, ShowArgs, Show, Operator, GoodWord, Words, ParseRedirs, ParseArgs;
    var j := i + 2 + |Show(c)|;
    HasChar(s, j, "&", 0);
    SymbolAt(s, j, '&');
    BlockAlone(s, i, c);
    PipeStops(s, i);
    LineOfBack(s, i);
  }

  lemma OperatorToken(s: string, j: nat, kind: Redirection)
    requires Line(s) && Has(s, j, Operator(kind)) && j + |Operator(kind)| < |s| && IsWordChar(s[j + |Operator(kind)|])
    ensures SkipSpace(s, j) == j && Peek(s, j, "<>")
    ensures var op := GetToken(s, j);
            op.pos == j + |Operator(kind)|
            && kind == if op.kind == '<' then Input else if op.kind == '>' then Output else Append
  {
    hide Has;
    HasChar(s, j, Operator(kind), 0);
    NoSpace(s, j);
    NoSpace(s, j + |Operator(kind)|);
    if kind == Append {
      HasChar(s, j, Operator(kind), 1);
    }
  }

  lemma RedirBack(s: string, i: nat, c: Tree, kind: Redirection, file: string)
    requires Line(s) && Words(c) && GoodWord(file) && i + 1 <= |s| && ParsesBack(s, i + 1, c)
    requires var j := i + 2 + |Show(c)|;
             && HasBlock(s, i, c) && Has(s, j, Operator(kind)) && Has(s, j + |Operator(kind)|, file)
             && Closed(s, j + |Operator(kind)| + |file|)
    ensures LineIs(s, i, i + 2 + |Show(c)| + |Operator(kind)| + |file|, TRedir(c, kind, file))
  {
    hide ParseLine, ParsePipe, ParseBlock, ParseExec, GetToken, SkipSpace, Peek, Has, Show, Operator, GoodWord, Words, ParseRedirs;
    var j := i + 2 + |Show(c)|;
    OneRedir(s, j, kind, file);
    BlockBack(s, i, c);
    var tok := GetToken(s, j + |Operator(kind)|).tok;
    assert [(kind, tok)][..0] == [];
    assert Wrap(ParseLine(s, i + 1).cmd, [(kind, tok)]) == Redir(ParseLine(s, i + 1).cmd, kind, tok);
    PipeOfExec(s, i);
    LineOfPipe(s, i);
  }

  lemma OperatorStarts(kind: Redirection)
    ensures !IsSpace(Operator(kind)[0])
  {
  }

  lemma WordStarts(w: string)
    requires GoodWord(w)
    ensures w != [] && IsWordChar(w[0])
  {
  }

  lemma OneRedir(s: string, j: nat, kind: Redirection, file: string)
    requires Line(s) && GoodWord(file) && Has(s, j, Operator(kind)) && Has(s, j + |Operator(kind)|, file)
    requires Closed(s, j + |Operator(kind)| + |file|)
    ensures j < |s| && !IsSpace(s[j])
    ensures var w := GetToken(s, j + |Operator(kind)|);
            && Text(s, w.tok) == file
            && ParseRedirs(s, j, []) == Redirs([(kind, w.tok)], j + |Operator(kind)| + |file|)
  {
    hide GetToken, SkipSpace, Peek, Has, Operator, Text, GoodWord;
    var q := j + |Operator(kind)|;
    OperatorStarts(kind);
    WordStarts(file);
    HasChar(s, j, Operator(kind), 0);
    HasChar(s, q, file, 0);
    OperatorToken(s, j, kind);
    WordToken(s, q, file);
    ClosedTail(s, q + |file|);
    assert [] + [(kind, GetToken(s, q).tok)] == [(kind, GetToken(s, q).tok)];
  }

  lemma PipeOfExec(s: string, i: nat)
    requires Line(s) && i <= |s| && ParseExec(s, i).Parsed? && Closed(s, ParseExec(s, i).pos)
    ensures ParsePipe(s, i) == ParseExec(s, i)
  {
  }

  // ------------------------------------------------------------------ any command

  lemma {:induction false} ShowParsesBack(s: string, i: nat, t: Tree)
    requires Line(s) && Words(t) && Small(t) && Has(s, i, Show(t)) && Closed(s, i + |Show(t)|)
    ensures ParsesBack(s, i, t)
    decreases t
  {
    hide ParseLine, Has, HasBlock, GoodWord, Operator, Show, LineIs, ParsesBack;
    match t {
      case TExec(args) =>
        ShowExec(args);
        LineOfExec(s, i, args);
      case TRedir(c, kind, file) =>
        RedirParts(s, i, c, kind, file);
        ShowParsesBack(s, i + 1, c);
        RedirBack(s, i, c, kind, file);
      case TPipe(l, r) =>
        ShowPipe(l, r);
        TwoBlocks(s, i, l, "|", r);
        ShowParsesBack(s, i + 1, l);
        ShowParsesBack(s, i + 4 + |Show(l)|, r);
        PipeBack(s, i, l, r, i + 2 + |Show(l)|);
      case TList(l, r) =>
        ShowList(l, r);
        TwoBlocks(s, i, l, ";", r);
        ShowParsesBack(s, i + 1, l);
        ShowParsesBack(s, i + 4 + |Show(l)|, r);
        ListBack(s, i, l, r, i + 2 + |Show(l)|);
      case TBack(c) =>
        BackParts(s, i, c);
        ShowParsesBack(s, i + 1, c);
        BackBack(s, i, c);
    }
    LineIsBack(s, i, t);
  }

  lemma LineIsBack(s: string, i: nat, t: Tree)
    requires LineIs(s, i, i + |Show(t)|, t)
    ensures ParsesBack(s, i, t)
  {
  }

  lemma LineOfExec(s: string, i: nat, args: seq<string>)
    requires Line(s) && Has(s, i, ShowArgs(args)) && Closed(s, i + |ShowArgs(args)|)
    requires |args| < MAXARGS && forall k | 0 <= k < |args| :: GoodWord(args[k])
    ensures LineIs(s, i, i + |ShowArgs(args)|, TExec(args))
  {
    hide ParseLine, ParsePipe, ParseExec, Has, ShowArgs, GoodWord, Resolve;
    ExecBack(s, i, args);
    PipeOfExec(s, i);
    LineOfPipe(s, i);
  }

  lemma ShowExec(args: seq<string>)
    ensures Show(TExec(args)) == ShowArgs(args)
  {
  }

  lemma ShowPipe(l: Tree, r: Tree)
    ensures Show(TPipe(l, r)) == ("(" + Show(l) + ")") + ("|" + ("(" + Show(r) + ")"))
  {
  }

  lemma ShowList(l: Tree, r: Tree)
    ensures Show(TList(l, r)) == ("(" + Show(l) + ")") + (";" + ("(" + Show(r) + ")"))
  {
  }

  lemma RedirParts(s: string, i: nat, c: Tree, kind: Redirection, file: string)
    requires Words(c) && Has(s, i, Show(TRedir(c, kind, file)))
    ensures |Show(TRedir(c, kind, file))| == 2 + |Show(c)| + |Operator(kind)| + |file|
    ensures var j := i + 2 + |Show(c)|;
            && HasBlock(s, i, c) && Has(s, j, Operator(kind)) && Has(s, j + |Operator(kind)|, file)
            && Has(s, i + 1, Show(c)) && Closed(s, i + 1 + |Show(c)|) && j <= |s|
  {
    hide Has, Words, SkipSpace, Peek, GetToken, Operator;
    var block, op := "(" + Show(c) + ")", Operator(kind);
    assert Show(TRedir(c, kind, file)) == block + (op + file);
    HasSplit(s, i, block, op + file);
    HasSplit(s, i + |block|, op, file);
    BlockParts(s, i, c);
  }

  lemma BackParts(s: string, i: nat, c: Tree)
    requires Words(c) && Has(s, i, Show(TBack(c)))
    ensures |Show(TBack(c))| == 3 + |Show(c)|
    ensures HasBlock(s, i, c) && Has(s, i + 2 + |Show(c)|, "&")
    ensures Has(s, i + 1, Show(c)) && Closed(s, i + 1 + |Show(c)|) && i + 2 + |Show(c)| <= |s|
  {
    hide Has, Words, SkipSpace, Peek, GetToken;
    var block := "(" + Show(c) + ")";
    assert Show(TBack(c)) == block + "&";
    HasSplit(s, i, block, "&");
    BlockParts(s, i, c);
  }

  lemma TwoBlocks(s: string, i: nat, l: Tree, op: string, r: Tree)
    requires Words(l) && Words(r) && |op| == 1
    requires Has(s, i, ("(" + Show(l) + ")") + (op + ("(" + Show(r) + ")")))
    ensures var j := i + 2 + |Show(l)|;
            && HasBlock(s, i, l) && Has(s, j, op) && HasBlock(s, j + 1, r)
            && Has(s, i + 1, Show(l)) && Closed(s, i + 1 + |Show(l)|)
            && Has(s, j + 2, Show(r)) && Closed(s, j + 2 + |Show(r)|)
            && j + 3 + |Show(r)| <= |s|
  {
    hide Has, Show, Words, SkipSpace, Peek, GetToken;
    var a, b := "(" + Show(l) + ")", "(" + Show(r) + ")";
    HasSplit(s, i, a, op + b);
    HasSplit(s, i + |a|, op, b);
    BlockParts(s, i, l);
    BlockParts(s, i + |a| + 1, r);
  }

  lemma {:induction false} ShowIsLine(t: Tree)
    requires Words(t)
    ensures Line(Show(t))
    decreases t
  {
    match t
    case TExec(args) => ArgsAreLine(args);
    case TRedir(c, kind, file) => ShowIsLine(c);
    case TPipe(l, r) => ShowIsLine(l); ShowIsLine(r);
    case TList(l, r) => ShowIsLine(l); ShowIsLine(r);
    case TBack(c) => ShowIsLine(c);
  }

  lemma {:induction false} ArgsAreLine(args: seq<string>)
    requires forall k | 0 <= k < |args| :: GoodWord(args[k])
    ensures Line(ShowArgs(args))
  {
    if args != [] {
      assert GoodWord(args[0]);
      ArgsAreLine(args[1..]);
    }
  }

  /** An argument list of MAXARGS words or more is refused. */
  lemma {:induction false} TooManyArgs(s: string, i: nat, args: seq<string>, done: seq<Token>)
    requires Line(s) && Has(s, i, ShowArgs(args)) && Closed(s, i + |ShowArgs(args)|)
    requires |done| < MAXARGS <= |done| + |args| && forall k | 0 <= k < |args| :: GoodWord(args[k])
    ensures ParseArgs(s, i, done, []).Panic?
    decreases |args|
  {
    hide GetToken, Has, ShowArgs, Text, GoodWord, Peek, SkipSpace;
    FirstWord(s, i, args);
    ArgsStart(s, i, args);
    if |done| + 1 < MAXARGS {
      ArgsStart(s, i + |args[0]| + 1, args[1..]);
      TooManyArgs(s, i + |args[0]| + 1, args[1..], done + [GetToken(s, i).tok]);
    }
  }

  // ------------------------------------------------------------------ commands with too many arguments

  lemma BlockPanics(s: string, i: nat, t: Tree)
    requires Line(s) && HasBlock(s, i, t) && Words(t) && i + 1 <= |s| && ParseLine(s, i + 1).Panic?
    ensures ParsePipe(s, i).Panic? && ParseLine(s, i).Panic?
  {
    hide ParseLine, Has, Show, Words, SkipSpace, Peek, GetToken;
    BlockParts(s, i, t);
    assert ParseExec(s, i).Panic?;
    LinePanics(s, i);
  }

  lemma LinePanics(s: string, i: nat)
    requires Line(s) && i <= |s| && ParseExec(s, i).Panic?
    ensures ParsePipe(s, i).Panic? && ParseLine(s, i).Panic?
  {
    hide ParseExec;
  }

  /** The first of two blocks parses and the second does not. */
  lemma SecondPanics(s: string, i: nat, l: Tree, c: char, r: Tree, j: nat)
    requires Line(s) && Words(l) && Words(r) && i + 1 <= |s| && ParsesBack(s, i + 1, l)
    requires c == '|' || c == ';'
    requires j == i + 2 + |Show(l)| && j + 2 <= |s| && ParseLine(s, j + 2).Panic?
    requires HasBlock(s, i, l) && Has(s, j, [c]) && HasBlock(s, j + 1, r)
    ensures ParseLine(s, i).Panic?
  {
    hide ParseLine, ParsePipe, ParseExec, GetToken, SkipSpace, Peek, Has, HasBlock, Show, Words, Resolve;
    FirstBlock(s, i, l, c, r, j);
    BlockPanics(s, j + 1, r);
    if c == '|' {
      PipePanics(s, i);
    } else {
      PipeStops(s, i);
      ListPanics(s, i);
    }
  }

  lemma PipePanics(s: string, i: nat)
    requires Line(s) && i <= |s| && ParseExec(s, i).Parsed?
    requires var j := ParseExec(s, i).pos; Peek(s, j, "|") && ParsePipe(s, GetToken(s, j).pos).Panic?
    ensures ParseLine(s, i).Panic?
  {
    hide ParseExec, Peek, GetToken;
  }

  lemma ListPanics(s: string, i: nat)
    requires Line(s) && i <= |s| && ParsePipe(s, i).Parsed?
    requires var j := ParsePipe(s, i).pos;
             && !Peek(s, j, "&") && SkipSpace(s, j) == j && Peek(s, j, ";")
             && ParseLine(s, GetToken(s, j).pos).Panic?
    ensures ParseLine(s, i).Panic?
  {
    hide ParsePipe, Peek, GetToken, SkipSpace;
  }

  /** One part with MAXARGS arguments or more makes the parse of the whole panic. */
  lemma {:induction false} BigPanics(s: string, i: nat, t: Tree)
    requires Line(s) && Words(t) && !Small(t) && Has(s, i, Show(t)) && Closed(s, i + |Show(t)|)
    ensures i <= |s| && ParseLine(s, i).Panic?
    decreases t
  {
    hide ParseLine, ParsePipe, ParseExec, ParseBlock, Has, SkipSpace, Peek, GetToken, ShowArgs, GoodWord, Operator, Show, HasBlock;
    match t
    case TExec(args) =>
      ShowExec(args);
      ExecPanics(s, i, args);
    case TRedir(c, kind, file) =>
      RedirParts(s, i, c, kind, file);
      BigPanics(s, i + 1, c);
      BlockPanics(s, i, c);
    case TPipe(l, r) =>
      ShowPipe(l, r);
      TwoBlocks(s, i, l, "|", r);
      BigPart(s, i, l, '|', r);
    case TList(l, r) =>
      ShowList(l, r);
      TwoBlocks(s, i, l, ";", r);
      BigPart(s, i, l, ';', r);
    case TBack(c) =>
      BackParts(s, i, c);
      BigPanics(s, i + 1, c);
      BlockPanics(s, i, c);
  }

  lemma {:induction false} BigPart(s: string, i: nat, l: Tree, c: char, r: Tree)
    requires Line(s) && Words(l) && Words(r) && !(Small(l) && Small(r)) && (c == '|' || c == ';')
    requires HasBlock(s, i, l) && Has(s, i + 2 + |Show(l)|, [c]) && HasBlock(s, i + 3 + |Show(l)|, r)
    requires Has(s, i + 1, Show(l)) && Closed(s, i + 1 + |Show(l)|) && i + 5 + |Show(l)| + |Show(r)| <= |s|
    requires Has(s, i + 4 + |Show(l)|, Show(r)) && Closed(s, i + 4 + |Show(l)| + |Show(r)|)
    ensures ParseLine(s, i).Panic?
    decreases if c == '|' then TPipe(l, r) else TList(l, r), 0
  {
    hide ParseLine, ParsePipe, ParseExec, ParseBlock, Has, SkipSpace, Peek, GetToken, Show, HasBlock, Words, Small;
    if !Small(l) {
      BigPanics(s, i + 1, l);
      BlockPanics(s, i, l);
    } else {
      ShowParsesBack(s, i + 1, l);
      BigPanics(s, i + 4 + |Show(l)|, r);
      SecondPanics(s, i, l, c, r, i + 2 + |Show(l)|);
    }
  }

  lemma ExecPanics(s: string, i: nat, args: seq<string>)
    requires Line(s) && Has(s, i, ShowArgs(args)) && Closed(s, i + |ShowArgs(args)|)
    requires |args| >= MAXARGS && forall k | 0 <= k < |args| :: GoodWord(args[k])
    ensures i <= |s| && ParseLine(s, i).Panic?
  {
    hide ParseArgs, GetToken, SkipSpace, Has, ShowArgs, GoodWord, Peek, ParseBlock, ParseLine, ParsePipe;
    ArgsStart(s, i, args);
    TooManyArgs(s, i, args, []);
    LinePanics(s, i);
  }

  /** The round trip: parsecmd of the canonical text of a command is that command, and exactly a
      command with MAXARGS arguments somewhere is refused. */
  lemma RoundTrip(t: Tree)
    requires Words(t)
    ensures Line(Show(t))
    ensures var r := ParseCmd(Show(t));
            if Small(t) then r.Parsed? && r.pos == |Show(t)| && Resolve(Show(t), r.cmd) == t else r.Panic?
  {
    hide ParseLine, Show, Words, Small;
    var s := Show(t);
    ShowIsLine(t);
    assert Has(s, 0, s) && Closed(s, |s|);
    if Small(t) {
      ShowParsesBack(s, 0, t);
      NoSpace(s, |s|);
    } else {
      BigPanics(s, 0, t);
    }
  }
}

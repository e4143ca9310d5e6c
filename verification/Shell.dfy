/** The command parser of user/sh.c: tokens, the recursive descent, and the in-place termination
    of the words. A command holds index pairs into the line, as the C code holds pointers. */
module Shell {
  const MAXARGS: nat := 10

  predicate IsSpace(c: char) {
    c == ' ' || c == '\t' || c == '\r' || c == '\n' || c == '\U{0B}'
  }

  predicate IsSymbol(c: char) {
    c == '<' || c == '|' || c == '>' || c == '&' || c == ';' || c == '(' || c == ')'
  }

  predicate IsWordChar(c: char) {
    !IsSpace(c) && !IsSymbol(c) && c != '\0'
  }

  /** The character at i; the byte after the line is the NUL. */
  function CharAt(s: string, i: nat): (c: char) {
    if i < |s| then s[i] else '\0'
  }

  /** The line as strlen sees it: no NUL inside. */
  ghost predicate Line(s: string) {
    forall i | 0 <= i < |s| :: s[i] != '\0'
  }

  function SkipSpace(s: string, i: nat): (j: nat)
    requires i <= |s|
    ensures i <= j <= |s|
    ensures forall k | i <= k < j :: IsSpace(s[k])
    ensures j < |s| ==> !IsSpace(s[j])
    decreases |s| - i
  {
    if i < |s| && IsSpace(s[i]) then SkipSpace(s, i + 1) else i
  }

  function SkipWord(s: string, i: nat): (j: nat)
    requires i <= |s|
    ensures i <= j <= |s|
    ensures forall k | i <= k < j :: !IsSpace(s[k]) && !IsSymbol(s[k])
    ensures j < |s| ==> IsSpace(s[j]) || IsSymbol(s[j])
    decreases |s| - i
  {
    if i < |s| && !IsSpace(s[i]) && !IsSymbol(s[i]) then SkipWord(s, i + 1) else i
  }

  /** What gettoken returns: the kind, the token [q, e), and the new cursor. */
  datatype Token = Token(q: nat, e: nat)
  datatype Got = Got(kind: char, tok: Token, pos: nat)

  function GetToken(s: string, i: nat): (r: Got)
    requires i <= |s|
    ensures i <= r.tok.q <= r.tok.e <= r.pos <= |s|
    ensures r.kind != '\0' && Line(s) ==> i < r.pos
  {
    var q := SkipSpace(s, i);
    var c := CharAt(s, q);
    if c == '\0' then Got(c, Token(q, q), SkipSpace(s, q))
    else if c == '>' && CharAt(s, q + 1) == '>' then Got('+', Token(q, q + 2), SkipSpace(s, q + 2))
    else if IsSymbol(c) then Got(c, Token(q, q + 1), SkipSpace(s, q + 1))
    else var e := SkipWord(s, q); Got('a', Token(q, e), SkipSpace(s, e))
  }

  /** peek leaves the cursor at SkipSpace(s, i) and tells if one of toks is there. */
  predicate Peek(s: string, i: nat, toks: string)
    requires i <= |s|
  {
    var c := CharAt(s, SkipSpace(s, i));
    c != '\0' && c in toks
  }

  method SkipSpaceLoop(s: string, ps: nat) returns (i: nat)
    requires ps <= |s|
    ensures i == SkipSpace(s, ps)
  {
    i := ps;
    while i < |s| && IsSpace(s[i])
      invariant ps <= i <= |s| && SkipSpace(s, i) == SkipSpace(s, ps)
    {
      i := i + 1;
    }
  }

  method SkipWordLoop(s: string, q: nat) returns (i: nat)
    requires q <= |s|
    ensures i == SkipWord(s, q)
  {
    i := q;
    while i < |s| && !IsSpace(s[i]) && !IsSymbol(s[i])
      invariant q <= i <= |s| && SkipWord(s, i) == SkipWord(s, q)
    {
      i := i + 1;
    }
  }

  /** gettoken, as the loops over the line run it. */
  method GetTokenLoop(s: string, ps: nat) returns (r: Got)
    requires ps <= |s| && Line(s)
    ensures r == GetToken(s, ps)
  {
    hide SkipSpace, SkipWord;
    var i := SkipSpaceLoop(s, ps);
    var q := i;
    var ret := CharAt(s, i);
    if ret == '\0' {
    } else if ret == '|' || ret == '(' || ret == ')' || ret == ';' || ret == '&' || ret == '<' {
      i := i + 1;
    } else if ret == '>' {
      i := i + 1;
      if CharAt(s, i) == '>' {
        ret := '+';
        i := i + 1;
      }
    } else {
      ret := 'a';
      i := SkipWordLoop(s, i);
    }
    var e := i;
    i := SkipSpaceLoop(s, i);
    return Got(ret, Token(q, e), i);
  }

  method PeekLoop(s: string, ps: nat, toks: string) returns (found: bool, pos: nat)
    requires ps <= |s| && Line(s)
    ensures pos == SkipSpace(s, ps) && found == Peek(s, ps, toks)
  {
    pos := SkipSpaceLoop(s, ps);
    found := CharAt(s, pos) != '\0' && CharAt(s, pos) in toks;
  }

  // ------------------------------------------------------------------ commands

  /** < file, > file and >> file. */
  datatype Redirection = Input | Output | Append

  datatype Cmd =
    | Exec(args: seq<Token>)
    | Redir(cmd: Cmd, kind: Redirection, file: Token)
    | Pipe(left: Cmd, right: Cmd)
    | List(left: Cmd, right: Cmd)
    | Back(cmd: Cmd)

  /** A parse: the command and the cursor, or a panic. */
  datatype Parsed = Parsed(cmd: Cmd, pos: nat) | Panic

  /** The redirections of one command are wrapped around it, the first one innermost. */
  datatype Redirs = Redirs(rs: seq<(Redirection, Token)>, pos: nat) | RedirPanic

  function Wrap(cmd: Cmd, rs: seq<(Redirection, Token)>): (r: Cmd) {
    if rs == [] then cmd else Redir(Wrap(cmd, rs[..|rs| - 1]), rs[|rs| - 1].0, rs[|rs| - 1].1)
  }

  function ParseRedirs(s: string, i: nat, rs: seq<(Redirection, Token)>): (r: Redirs)
    requires i <= |s| && Line(s)
    ensures r.Redirs? ==> i <= r.pos <= |s|
    decreases |s| - i
  {
    if !Peek(s, i, "<>") then Redirs(rs, SkipSpace(s, i))
    else
      var op := GetToken(s, i);
      var w := GetToken(s, op.pos);
      if w.kind != 'a' then RedirPanic
      else
        var kind := if op.kind == '<' then Input else if op.kind == '>' then Output else Append;
        ParseRedirs(s, w.pos, rs + [(kind, w.tok)])
  }

  /** The argument loop of parseexec, after args and rs have been collected. */
  function ParseArgs(s: string, i: nat, args: seq<Token>, rs: seq<(Redirection, Token)>): (r: Parsed)
    requires i <= |s| && Line(s)
    ensures r.Parsed? ==> i <= r.pos <= |s|
    decreases |s| - i
  {
    if Peek(s, i, "|)&;") then Parsed(Wrap(Exec(args), rs), SkipSpace(s, i))
    else
      var w := GetToken(s, i);
      if w.kind == '\0' then Parsed(Wrap(Exec(args), rs), w.pos)
      else if w.kind != 'a' then Panic
      else if |args| + 1 >= MAXARGS then Panic
      else
        var more := ParseRedirs(s, w.pos, rs);
        if more.RedirPanic? then Panic
        else ParseArgs(s, more.pos, args + [w.tok], more.rs)
  }

  function ParseExec(s: string, i: nat): (r: Parsed)
    requires i <= |s| && Line(s)
    ensures r.Parsed? ==> i <= r.pos <= |s|
    decreases |s| - i, 1
  {
    if Peek(s, i, "(") then ParseBlock(s, i)
    else
      var rs := ParseRedirs(s, i, []);
      if rs.RedirPanic? then Panic else ParseArgs(s, rs.pos, [], rs.rs)
  }

  function ParseBlock(s: string, i: nat): (r: Parsed)
    requires i <= |s| && Line(s) && Peek(s, i, "(")
    ensures r.Parsed? ==> i <= r.pos <= |s|
    decreases |s| - i, 0
  {
    var body := ParseLine(s, GetToken(s, i).pos);
    if body.Panic? || !Peek(s, body.pos, ")") then Panic
    else
      var rs := ParseRedirs(s, GetToken(s, body.pos).pos, []);
      if rs.RedirPanic? then Panic else Parsed(Wrap(body.cmd, rs.rs), rs.pos)
  }

  function ParsePipe(s: string, i: nat): (r: Parsed)
    requires i <= |s| && Line(s)
    ensures r.Parsed? ==> i <= r.pos <= |s|
    decreases |s| - i, 2
  {
    var left := ParseExec(s, i);
    if left.Panic? then Panic
    else if !Peek(s, left.pos, "|") then Parsed(left.cmd, SkipSpace(s, left.pos))
    else
      var right := ParsePipe(s, GetToken(s, left.pos).pos);
      if right.Panic? then Panic else Parsed(Pipe(left.cmd, right.cmd), right.pos)
  }

  /** The loop of parseline over "&". */
  function Backs(s: string, i: nat, cmd: Cmd): (r: Parsed)
    requires i <= |s| && Line(s)
    ensures r.Parsed? && i <= r.pos <= |s|
    decreases |s| - i
  {
    if Peek(s, i, "&") then Backs(s, GetToken(s, i).pos, Back(cmd)) else Parsed(cmd, SkipSpace(s, i))
  }

  function ParseLine(s: string, i: nat): (r: Parsed)
    requires i <= |s| && Line(s)
    ensures r.Parsed? ==> i <= r.pos <= |s|
    decreases |s| - i, 3
  {
    var first := ParsePipe(s, i);
    if first.Panic? then Panic
    else
      var left := Backs(s, first.pos, first.cmd);
      if !Peek(s, left.pos, ";") then Parsed(left.cmd, SkipSpace(s, left.pos))
      else
        var right := ParseLine(s, GetToken(s, left.pos).pos);
        if right.Panic? then Panic else Parsed(List(left.cmd, right.cmd), right.pos)
  }

  /** parsecmd, up to nulterminate: everything must be consumed. */
  function ParseCmd(s: string): (r: Parsed)
    requires Line(s)
  {
    var r := ParseLine(s, 0);
    if r.Panic? || SkipSpace(s, r.pos) != |s| then Panic else r
  }

  // ------------------------------------------------------------------ tokens of a parse

  /** The token is a whole word of the line. */
  ghost predicate IsWord(s: string, t: Token) {
    && t.q < t.e <= |s|
    && (forall k | t.q <= k < t.e :: IsWordChar(s[k]))
    && (t.e < |s| ==> !IsWordChar(s[t.e]))
  }

  ghost predicate AllWords(s: string, cmd: Cmd) {
    match cmd
    case Exec(args) => forall k | 0 <= k < |args| :: IsWord(s, args[k])
    case Redir(c, _, file) => AllWords(s, c) && IsWord(s, file)
    case Pipe(l, r) => AllWords(s, l) && AllWords(s, r)
    case List(l, r) => AllWords(s, l) && AllWords(s, r)
    case Back(c) => AllWords(s, c)
  }

  ghost predicate RedirWords(s: string, rs: seq<(Redirection, Token)>) {
    forall k | 0 <= k < |rs| :: IsWord(s, rs[k].1)
  }

  lemma TokenIsWord(s: string, i: nat)
    requires i <= |s| && Line(s)
    ensures GetToken(s, i).kind == 'a' ==> IsWord(s, GetToken(s, i).tok)
  {
  }

  lemma {:induction false} WrapWords(s: string, cmd: Cmd, rs: seq<(Redirection, Token)>)
    requires AllWords(s, cmd) && RedirWords(s, rs)
    ensures AllWords(s, Wrap(cmd, rs))
  {
    if rs != [] {
      WrapWords(s, cmd, rs[..|rs| - 1]);
    }
  }

  lemma {:induction false} RedirsWords(s: string, i: nat, rs: seq<(Redirection, Token)>)
    requires i <= |s| && Line(s) && RedirWords(s, rs)
    ensures var r := ParseRedirs(s, i, rs); r.Redirs? ==> RedirWords(s, r.rs)
    decreases |s| - i
  {
    if Peek(s, i, "<>") {
      var op := GetToken(s, i);
      var w := GetToken(s, op.pos);
      if w.kind == 'a' {
        TokenIsWord(s, op.pos);
        RedirsWords(s, w.pos, rs + [(if op.kind == '<' then Input else if op.kind == '>' then Output else Append, w.tok)]);
      }
    }
  }

  lemma {:induction false} ArgsWords(s: string, i: nat, args: seq<Token>, rs: seq<(Redirection, Token)>)
    requires i <= |s| && Line(s) && AllWords(s, Exec(args)) && RedirWords(s, rs)
    ensures var r := ParseArgs(s, i, args, rs); r.Parsed? ==> AllWords(s, r.cmd)
    decreases |s| - i
  {
    WrapWords(s, Exec(args), rs);
    if !Peek(s, i, "|)&;") {
      var w := GetToken(s, i);
      TokenIsWord(s, i);
      if w.kind == 'a' && |args| + 1 < MAXARGS {
        RedirsWords(s, w.pos, rs);
        var more := ParseRedirs(s, w.pos, rs);
        if more.Redirs? {
          ArgsWords(s, more.pos, args + [w.tok], more.rs);
        }
      }
    }
  }

  lemma {:induction false} ExecWords(s: string, i: nat)
    requires i <= |s| && Line(s)
    ensures ParseExec(s, i).Parsed? ==> AllWords(s, ParseExec(s, i).cmd)
    decreases |s| - i, 1
  {
    if Peek(s, i, "(") {
      BlockWords(s, i);
    } else {
      RedirsWords(s, i, []);
      var rs := ParseRedirs(s, i, []);
      if rs.Redirs? {
        ArgsWords(s, rs.pos, [], rs.rs);
      }
    }
  }

  lemma {:induction false} BlockWords(s: string, i: nat)
    requires i <= |s| && Line(s) && Peek(s, i, "(")
    ensures ParseBlock(s, i).Parsed? ==> AllWords(s, ParseBlock(s, i).cmd)
    decreases |s| - i, 0
  {
    var start := GetToken(s, i).pos;
    LineWords(s, start);
    var body := ParseLine(s, start);
    if body.Parsed? && Peek(s, body.pos, ")") {
      var after := GetToken(s, body.pos).pos;
      RedirsWords(s, after, []);
      var rs := ParseRedirs(s, after, []);
      if rs.Redirs? {
        WrapWords(s, body.cmd, rs.rs);
      }
    }
  }

  lemma {:induction false} PipeWords(s: string, i: nat)
    requires i <= |s| && Line(s)
    ensures ParsePipe(s, i).Parsed? ==> AllWords(s, ParsePipe(s, i).cmd)
    decreases |s| - i, 2
  {
    ExecWords(s, i);
    var left := ParseExec(s, i);
    if left.Parsed? && Peek(s, left.pos, "|") {
      PipeWords(s, GetToken(s, left.pos).pos);
    }
  }

  lemma {:induction false} BacksWords(s: string, i: nat, cmd: Cmd)
    requires i <= |s| && Line(s) && AllWords(s, cmd)
    ensures AllWords(s, Backs(s, i, cmd).cmd)
    decreases |s| - i
  {
    if Peek(s, i, "&") {
      BacksWords(s, GetToken(s, i).pos, Back(cmd));
    }
  }

  lemma {:induction false} LineWords(s: string, i: nat)
    requires i <= |s| && Line(s)
    ensures ParseLine(s, i).Parsed? ==> AllWords(s, ParseLine(s, i).cmd)
    decreases |s| - i, 3
  {
    PipeWords(s, i);
    var first := ParsePipe(s, i);
    if first.Parsed? {
      BacksWords(s, first.pos, first.cmd);
      var left := Backs(s, first.pos, first.cmd);
      if Peek(s, left.pos, ";") {
        LineWords(s, GetToken(s, left.pos).pos);
      }
    }
  }

  // ------------------------------------------------------------------ nulterminate

  ghost function Ends(cmd: Cmd): (r: set<nat>) {
    match cmd
    case Exec(args) => ArgEnds(args)
    case Redir(c, _, file) => Ends(c) + {file.e}
    case Pipe(l, r) => Ends(l) + Ends(r)
    case List(l, r) => Ends(l) + Ends(r)
    case Back(c) => Ends(c)
  }

  ghost function ArgEnds(args: seq<Token>): (r: set<nat>)
    ensures forall k | 0 <= k < |args| :: args[k].e in r
  {
    if args == [] then {} else ArgEnds(args[..|args| - 1]) + {args[|args| - 1].e}
  }

  ghost function Tokens(cmd: Cmd): (r: set<Token>) {
    match cmd
    case Exec(args) => ArgTokens(args)
    case Redir(c, _, file) => Tokens(c) + {file}
    case Pipe(l, r) => Tokens(l) + Tokens(r)
    case List(l, r) => Tokens(l) + Tokens(r)
    case Back(c) => Tokens(c)
  }

  ghost function ArgTokens(args: seq<Token>): (r: set<Token>)
    ensures forall t :: t in r <==> t in args
  {
    if args == [] then {} else ArgTokens(args[..|args| - 1]) + {args[|args| - 1]}
  }

  /** NUL-terminate all the words of a command, in the line buffer itself. */
  method NulTerminate(buf: array<char>, cmd: Cmd, ghost s: string)
    requires AllWords(s, cmd) && buf.Length == |s| + 1
    modifies buf
    ensures forall k | 0 <= k < buf.Length :: buf[k] == if k in Ends(cmd) then '\0' else old(buf[k])
    decreases cmd
  {
    match cmd
    case Exec(args) =>
      var i := 0;
      while i < |args|
        invariant 0 <= i <= |args|
        invariant forall k | 0 <= k < buf.Length :: buf[k] == if k in ArgEnds(args[..i]) then '\0' else old(buf[k])
      {
        buf[args[i].e] := '\0';
        assert args[..i + 1][..i] == args[..i];
        i := i + 1;
      }
      assert args[..i] == args;
    case Redir(c, _, file) =>
      NulTerminate(buf, c, s);
      buf[file.e] := '\0';
    case Pipe(l, r) =>
      NulTerminate(buf, l, s);
      NulTerminate(buf, r, s);
    case List(l, r) =>
      NulTerminate(buf, l, s);
      NulTerminate(buf, r, s);
    case Back(c) =>
      NulTerminate(buf, c, s);
  }

  /** The C string at q: up to the first NUL. */
  ghost function CString(buf: seq<char>, q: nat): (r: string)
    requires q <= |buf|
    decreases |buf| - q
  {
    if q == |buf| || buf[q] == '\0' then [] else [buf[q]] + CString(buf, q + 1)
  }

  lemma {:induction false} CStringIs(buf: seq<char>, q: nat, e: nat)
    requires q <= e < |buf| && buf[e] == '\0' && forall k | q <= k < e :: buf[k] != '\0'
    ensures CString(buf, q) == buf[q..e]
    decreases e - q
  {
    if q < e {
      CStringIs(buf, q + 1, e);
    }
  }

  lemma {:induction false} EndsAreEnds(s: string, cmd: Cmd)
    requires AllWords(s, cmd)
    ensures forall t | t in Tokens(cmd) :: IsWord(s, t) && t.e in Ends(cmd)
    ensures forall k | k in Ends(cmd) :: k <= |s| && (k < |s| ==> !IsWordChar(s[k]))
    decreases cmd
  {
    match cmd
    case Exec(args) => ArgEndsAreEnds(s, args);
    case Redir(c, _, file) => EndsAreEnds(s, c);
    case Pipe(l, r) => EndsAreEnds(s, l); EndsAreEnds(s, r);
    case List(l, r) => EndsAreEnds(s, l); EndsAreEnds(s, r);
    case Back(c) => EndsAreEnds(s, c);
  }

  lemma {:induction false} ArgEndsAreEnds(s: string, args: seq<Token>)
    requires forall k | 0 <= k < |args| :: IsWord(s, args[k])
    ensures forall k | k in ArgEnds(args) :: k <= |s| && (k < |s| ==> !IsWordChar(s[k]))
  {
    if args != [] {
      ArgEndsAreEnds(s, args[..|args| - 1]);
    }
  }

  /** No end of a word lies inside another word, so every word survives termination: read as a C
      string from its start, it is what it was in the line. */
  lemma WordsSurvive(s: string, cmd: Cmd, buf: seq<char>, t: Token)
    requires Line(s) && AllWords(s, cmd) && t in Tokens(cmd)
    requires |buf| == |s| + 1
    requires forall k | 0 <= k < |buf| :: buf[k] == if k in Ends(cmd) then '\0' else CharAt(s, k)
    ensures t.q < t.e <= |s| && CString(buf, t.q) == s[t.q..t.e]
  {
    EndsAreEnds(s, cmd);
    assert IsWord(s, t);
    forall k | t.q <= k < t.e ensures buf[k] == s[k] && buf[k] != '\0' {
      assert IsWordChar(s[k]);
    }
    CStringIs(buf, t.q, t.e);
    assert buf[t.q..t.e] == s[t.q..t.e];
  }

  /** parsecmd: parse, then terminate the words in place. Every word of the result, read as a C
      string in the buffer, is the word of the line. */
  method ParseCommand(buf: array<char>, ghost s: string) returns (r: Parsed)
    requires Line(s) && buf.Length == |s| + 1 && buf[..|s|] == s && buf[|s|] == '\0'
    modifies buf
    ensures r == ParseCmd(s)
    ensures r.Panic? ==> buf[..] == old(buf[..])
    ensures r.Parsed? ==> forall t | t in Tokens(r.cmd) :: t.q < t.e <= |s| && CString(buf[..], t.q) == s[t.q..t.e]
  {
    var line := buf[..buf.Length - 1];
    assert line == s;
    r := ParseCmd(line);
    if r.Parsed? {
      LineWords(s, 0);
      NulTerminate(buf, r.cmd, s);
      forall k | 0 <= k < |buf[..]| ensures buf[..][k] == if k in Ends(r.cmd) then '\0' else CharAt(s, k) {
        assert old(buf[k]) == CharAt(s, k);
      }
      forall t | t in Tokens(r.cmd) ensures t.q < t.e <= |s| && CString(buf[..], t.q) == s[t.q..t.e] {
        WordsSurvive(s, r.cmd, buf[..], t);
      }
    }
  }
}

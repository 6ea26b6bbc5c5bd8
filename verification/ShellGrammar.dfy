/**
 The language of xv6/sh.c said without the parser: how a line splits into tokens, and which token lists
 stand for which command. The parser accepts exactly the lines whose tokens stand for a command, and builds
 that command.
 */
module ShellGrammar {
  import opened ShellTrees

  datatype Lexeme = Sym(c: char) | TwoArrows | Text(w: string)

  predicate Blank(c: char) {
    c in " \t\r\n\U{0B}"
  }

  predicate Special(c: char) {
    c in "<|>&;()"
  }

  /** How many characters the word at the front of s has. */
  function WordLength(s: string): (n: nat)
    ensures n <= |s|
  {
    if s == [] || Blank(s[0]) || Special(s[0]) then 0 else 1 + WordLength(s[1..])
  }

  function Lexemes(s: string): seq<Lexeme> {
    if s == [] then []
    else if Blank(s[0]) then Lexemes(s[1..])
    else if |s| >= 2 && s[0] == '>' && s[1] == '>' then [TwoArrows] + Lexemes(s[2..])
    else if Special(s[0]) then [Sym(s[0])] + Lexemes(s[1..])
    else [Text(s[..WordLength(s)])] + Lexemes(s[WordLength(s)..])
  }

  predicate IsArrow(x: Lexeme) {
    x == Sym('<') || x == Sym('>') || x == TwoArrows
  }

  /** The list ends in a redirection: "<" reads the file, ">" and ">>" write it. */
  predicate EndsInRedirection(ls: seq<Lexeme>, file: string, input: bool) {
    && |ls| >= 2 && ls[|ls| - 1] == Text(file)
    && if input then ls[|ls| - 2] == Sym('<') else ls[|ls| - 2] == Sym('>') || ls[|ls| - 2] == TwoArrows
  }

  /** One argument more for the simple command inside the redirections. */
  function WithArgument(tr: Tree, w: string): Tree {
    match tr
    case ExecT(args) => ExecT(args + [w])
    case RedirT(c, file, input) => RedirT(WithArgument(c, w), file, input)
    case _ => tr
  }

  predicate Extends(before: Tree, w: string, tr: Tree) {
    tr == WithArgument(before, w)
  }

  function Arguments(tr: Tree): seq<string> {
    match tr
    case ExecT(args) => args
    case RedirT(c, _, _) => Arguments(c)
    case _ => []
  }

  /** A simple command: fewer than ten words, with redirections before, between and after them. */
  ghost predicate IsSimple(ls: seq<Lexeme>, tr: Tree)
    decreases |ls|, 0
  {
    || (ls == [] && tr == ExecT([]))
    || (ls != [] && ls[|ls| - 1].Text? && |Arguments(tr)| < 10 && IsSimpleAnd(ls[..|ls| - 1], ls[|ls| - 1].w, tr))
    || (tr.RedirT? && EndsInRedirection(ls, tr.file, tr.input) && IsSimple(ls[..|ls| - 2], tr.cmd))
  }

  /** A simple command and one word more. */
  ghost predicate IsSimpleAnd(ls: seq<Lexeme>, w: string, tr: Tree)
    decreases |ls|, 1
  {
    exists before :: Extends(before, w, tr) && IsSimple(ls, before)
  }

  /** A line in parentheses, with redirections behind it. */
  ghost predicate IsBlock(ls: seq<Lexeme>, tr: Tree)
    decreases |ls|, 0
  {
    || (|ls| >= 2 && ls[0] == Sym('(') && ls[|ls| - 1] == Sym(')') && IsLine(ls[1..|ls| - 1], tr))
    || (tr.RedirT? && EndsInRedirection(ls, tr.file, tr.input) && IsBlock(ls[..|ls| - 2], tr.cmd))
  }

  ghost predicate IsExec(ls: seq<Lexeme>, tr: Tree)
    decreases |ls|, 1
  {
    IsSimple(ls, tr) || IsBlock(ls, tr)
  }

  ghost predicate IsPipe(ls: seq<Lexeme>, tr: Tree)
    decreases |ls|, 2
  {
    || IsExec(ls, tr)
    || (tr.PipeT? && exists k :: 0 <= k < |ls| && ls[k] == Sym('|') &&
                                 IsExec(ls[..k], tr.left) && IsPipe(ls[k + 1..], tr.right))
  }

  ghost predicate IsJob(ls: seq<Lexeme>, tr: Tree)
    decreases |ls|, 3
  {
    || IsPipe(ls, tr)
    || (tr.BackT? && ls != [] && ls[|ls| - 1] == Sym('&') && IsJob(ls[..|ls| - 1], tr.cmd))
  }

  ghost predicate IsLine(ls: seq<Lexeme>, tr: Tree)
    decreases |ls|, 4
  {
    || IsJob(ls, tr)
    || (tr.ListT? && exists k :: 0 <= k < |ls| && ls[k] == Sym(';') &&
                                 IsJob(ls[..k], tr.left) && IsLine(ls[k + 1..], tr.right))
  }
}

/** The parser and the grammar agree. */
module ShellLanguage {
  import opened ShellTokens
  import opened ShellParser
  import opened ShellTrees
  import G = ShellGrammar

  // ---- tokens

  function LexemeOf(k: Token, t: string): G.Lexeme
    requires k.span.q <= k.span.eq <= |t| && !k.kind.End?
  {
    if k.kind.Symbol? then G.Sym(k.kind.c)
    else if k.kind.Append? then G.TwoArrows
    else G.Text(t[k.span.q..k.span.eq])
  }

  /** The tokens that gettoken gives from position i on. */
  function Tokens(t: string, i: nat): seq<G.Lexeme>
    requires i <= |t|
    decreases |t| - i
  {
    var k := GetToken(t, i);
    if k.kind.End? then [] else [LexemeOf(k, t)] + Tokens(t, k.next)
  }

  lemma SameChars(c: char)
    ensures IsSpace(c) <==> G.Blank(c)
    ensures IsSymbol(c) <==> G.Special(c)
  {
  }

  lemma {:induction false} SkipBlanks(t: string, i: nat)
    requires i <= |t|
    ensures G.Lexemes(t[SkipSpaces(t, i)..]) == G.Lexemes(t[i..])
    decreases |t| - i
  {
    if i < |t| {
      SameChars(t[i]);
      if IsSpace(t[i]) {
        assert t[i..][0] == t[i] && t[i..][1..] == t[i + 1..];
        SkipBlanks(t, i + 1);
      }
    }
  }

  lemma {:induction false} WordLengthIs(t: string, i: nat)
    requires i <= |t|
    ensures G.WordLength(t[i..]) == WordEnd(t, i) - i
    decreases |t| - i
  {
    if i < |t| {
      SameChars(t[i]);
      assert t[i..][0] == t[i] && t[i..][1..] == t[i + 1..];
      if IsWordChar(t[i]) {
        WordLengthIs(t, i + 1);
      }
    }
  }

  /** The token at s is the first lexeme of what is left there. */
  ghost predicate FrontIs(t: string, s: nat)
    requires s < |t|
  {
    var k := GetToken(t, s);
    && !k.kind.End? && k.span.q == s && k.next == SkipSpaces(t, k.span.eq)
    && G.Lexemes(t[s..]) == [LexemeOf(k, t)] + G.Lexemes(t[k.span.eq..])
  }

  lemma FirstLexeme(t: string, s: nat)
    requires s < |t| && !IsSpace(t[s])
    ensures FrontIs(t, s)
  {
    hide FrontIs, IsSpace, IsSymbol;
    if t[s] == '>' && s + 1 < |t| && t[s + 1] == '>' {
      FrontArrows(t, s);
    } else if IsSymbol(t[s]) {
      FrontSymbol(t, s);
    } else {
      FrontWord(t, s);
    }
  }

  lemma FrontArrows(t: string, s: nat)
    requires s + 1 < |t| && t[s] == '>' && t[s + 1] == '>'
    ensures FrontIs(t, s)
  {
    hide G.Lexemes;
    NoSkip(t, s);
    hide SkipSpaces;
    Slices(t, s, s + 2);
    assert t[s..][0] == t[s] && t[s..][1] == t[s + 1];
    ArrowsFirst(t[s..]);
  }

  lemma FrontSymbol(t: string, s: nat)
    requires s < |t| && !IsSpace(t[s]) && IsSymbol(t[s]) && !(t[s] == '>' && s + 1 < |t| && t[s + 1] == '>')
    ensures FrontIs(t, s)
  {
    hide G.Lexemes;
    NoSkip(t, s);
    hide SkipSpaces, IsSpace, IsSymbol;
    Slices(t, s, s + 1);
    assert t[s..][0] == t[s] && (s + 1 < |t| ==> t[s..][1] == t[s + 1]);
    SymbolFirst(t[s..]);
  }

  lemma FrontWord(t: string, s: nat)
    requires s < |t| && !IsSpace(t[s]) && !IsSymbol(t[s])
    ensures FrontIs(t, s)
  {
    hide G.Lexemes, G.WordLength;
    NoSkip(t, s);
    WordEndNext(t, s);
    assert t[s] != '>';
    hide SkipSpaces, IsSpace, IsSymbol, WordEnd;
    Slices(t, s, WordEnd(t, s));
    assert t[s..][0] == t[s];
    WordLengthIs(t, s);
    WordFirst(t[s..]);
  }

  lemma NoSkip(t: string, s: nat)
    requires s < |t| && !IsSpace(t[s])
    ensures SkipSpaces(t, s) == s
  {
  }

  lemma Slices(t: string, s: nat, e: nat)
    requires s <= e <= |t|
    ensures t[s..][..e - s] == t[s..e] && t[s..][e - s..] == t[e..]
  {
  }

  lemma ArrowsFirst(u: string)
    requires |u| >= 2 && u[0] == '>' && u[1] == '>'
    ensures G.Lexemes(u) == [G.TwoArrows] + G.Lexemes(u[2..])
  {
    hide G.Blank, G.Special, G.WordLength;
    SameChars(u[0]);
  }

  lemma SymbolFirst(u: string)
    requires u != [] && IsSymbol(u[0]) && !(|u| >= 2 && u[0] == '>' && u[1] == '>')
    ensures G.Lexemes(u) == [G.Sym(u[0])] + G.Lexemes(u[1..])
  {
    hide G.Blank, G.Special, G.WordLength;
    SameChars(u[0]);
  }

  lemma WordFirst(u: string)
    requires u != [] && !IsSpace(u[0]) && !IsSymbol(u[0])
    ensures var n := G.WordLength(u); G.Lexemes(u) == [G.Text(u[..n])] + G.Lexemes(u[n..])
  {
    hide G.Blank, G.Special, G.WordLength;
    SameChars(u[0]);
    assert !(u[0] == '>');
  }

  lemma WordEndNext(t: string, s: nat)
    requires s < |t| && !IsSpace(t[s]) && !IsSymbol(t[s])
    ensures WordEnd(t, s) == WordEnd(t, s + 1)
  {
  }

  /** The tokens of gettoken are those of the definition. */
  lemma {:induction false} TokensAreLexemes(t: string, i: nat)
    requires i <= |t|
    ensures Tokens(t, i) == G.Lexemes(t[i..])
    decreases |t| - i
  {
    var s := SkipSpaces(t, i);
    SkipBlanks(t, i);
    if s < |t| {
      FirstLexeme(t, s);
      SpacesFirst(t, i);
      var k := GetToken(t, i);
      SkipBlanks(t, k.span.eq);
      TokensAreLexemes(t, k.next);
    }
  }

  lemma SpacesFirst(t: string, i: nat)
    requires i <= |t|
    ensures GetToken(t, SkipSpaces(t, i)) == GetToken(t, i)
  {
    assert SkipSpaces(t, SkipSpaces(t, i)) == SkipSpaces(t, i);
    hide SkipSpaces, WordEnd, IsSpace, IsSymbol;
  }

  // ---- what peek and gettoken see of the token list

  predicate Starts(ls: seq<G.Lexeme>, toks: string) {
    ls != [] && match ls[0] case Sym(c) => c in toks case TwoArrows => '>' in toks case _ => false
  }

  predicate SymbolsOnly(toks: string) {
    forall c :: c in toks ==> IsSymbol(c)
  }

  lemma PeekTokens(t: string, i: nat, toks: string)
    requires i <= |t| && SymbolsOnly(toks)
    ensures Tokens(t, Peek(t, i, toks).0) == Tokens(t, i) && GetToken(t, Peek(t, i, toks).0) == GetToken(t, i)
    ensures Peek(t, i, toks).1 <==> Starts(Tokens(t, i), toks)
  {
    SpacesFirst(t, i);
  }

  lemma Literals()
    ensures SymbolsOnly("<>") && SymbolsOnly("|)&;") && SymbolsOnly("(") && SymbolsOnly(")") && SymbolsOnly("|")
    ensures SymbolsOnly("&") && SymbolsOnly(";") && SymbolsOnly("")
  {
  }

  lemma TakeToken(t: string, i: nat)
    requires i <= |t|
    ensures var k := GetToken(t, i);
            && (k.kind.End? <==> Tokens(t, i) == [])
            && (Tokens(t, i) != [] ==>
                  && i < k.next && Tokens(t, i)[0] == LexemeOf(k, t) && Tokens(t, k.next) == Tokens(t, i)[1..]
                  && (k.kind.Word? <==> Tokens(t, i)[0].Text?))
            && (k.kind.Word? ==> SpanOk(k.span, t) && LexemeOf(k, t) == G.Text(SpanText(k.span, t)))
            && (k.kind.End? ==> Tokens(t, k.next) == [])
  {
    WordSpan(t, i);
  }

  // ---- simple commands: the parser's state between two items

  /** The redirections at j, and then the loop of parseexec. */
  function Continue(t: string, j: nat, argv: seq<Span>, cmd: Cmd): (r: Parsed)
    requires j <= |t|
    ensures r.Ok? ==> j <= r.i <= |t|
  {
    var r := ParseRedirs(t, j, cmd);
    if r.Panic? then Panic else ParseArgs(t, r.i, argv, r.cmd)
  }

  /** Redirections around a simple command. */
  predicate Plain(cmd: Cmd) {
    match cmd
    case ExecCmd(_) => true
    case RedirCmd(c, _, _) => Plain(c)
    case _ => false
  }

  ghost predicate StateOk(t: string, argv: seq<Span>, cmd: Cmd) {
    && Plain(cmd) && CmdOk(cmd, t) && |argv| < MAXARGS && (forall k :: 0 <= k < |argv| ==> SpanOk(argv[k], t))
    && CmdOk(SetArgs(cmd, argv), t)
  }

  lemma StartState(t: string)
    ensures StateOk(t, [], ExecCmd([])) && Text(SetArgs(ExecCmd([]), []), t) == ExecT([])
  {
  }

  lemma {:induction false} ArgAdded(t: string, cmd: Cmd, argv: seq<Span>, s: Span)
    requires StateOk(t, argv, cmd) && SpanOk(s, t) && |argv| + 1 < MAXARGS
    ensures StateOk(t, argv + [s], cmd)
    ensures G.Extends(Text(SetArgs(cmd, argv), t), SpanText(s, t), Text(SetArgs(cmd, argv + [s]), t))
    ensures |G.Arguments(Text(SetArgs(cmd, argv + [s]), t))| < 10
  {
    if cmd.RedirCmd? {
      SetArgsOk(t, cmd.cmd, argv);
      ArgAdded(t, cmd.cmd, argv, s);
    } else {
      var args := seq(|argv|, k requires 0 <= k < |argv| => SpanText(argv[k], t));
      var argv' := argv + [s];
      assert seq(|argv'|, k requires 0 <= k < |argv'| => SpanText(argv'[k], t)) == args + [SpanText(s, t)];
    }
  }

  lemma RedirAdded(t: string, cmd: Cmd, argv: seq<Span>, file: Span, input: bool)
    requires StateOk(t, argv, cmd) && SpanOk(file, t)
    ensures StateOk(t, argv, RedirCmd(cmd, file, input))
    ensures Text(SetArgs(RedirCmd(cmd, file, input), argv), t) ==
            RedirT(Text(SetArgs(cmd, argv), t), SpanText(file, t), input)
  {
  }

  lemma {:induction false} ArgumentCount(t: string, cmd: Cmd, argv: seq<Span>)
    requires StateOk(t, argv, cmd)
    ensures |G.Arguments(Text(SetArgs(cmd, argv), t))| == |argv|
  {
    if cmd.RedirCmd? {
      ArgumentCount(t, cmd.cmd, argv);
    }
  }

  /** With a redirection ahead. */
  lemma ContinueRedir(t: string, j: nat, argv: seq<Span>, cmd: Cmd)
    requires j <= |t| && StateOk(t, argv, cmd) && Starts(Tokens(t, j), "<>")
    ensures var op := GetToken(t, j); var ls := Tokens(t, j);
            && j < op.next && Tokens(t, op.next) == ls[1..] && G.IsArrow(ls[0])
            && var file := GetToken(t, op.next);
               && (|ls| < 2 || !ls[1].Text? ==> Continue(t, j, argv, cmd).Panic?)
               && (|ls| >= 2 && ls[1].Text? ==>
                     && SpanOk(file.span, t) && ls[1] == G.Text(SpanText(file.span, t))
                     && Tokens(t, file.next) == ls[2..]
                     && Continue(t, j, argv, cmd) ==
                        Continue(t, file.next, argv, RedirCmd(cmd, file.span, ls[0] == G.Sym('<'))))
  {
    Literals();
    PeekTokens(t, j, "<>");
    TakeToken(t, j);
    var op := GetToken(t, j);
    TakeToken(t, op.next);
    assert Tokens(t, j)[0] == LexemeOf(op, t);
    hide GetToken, Peek, Tokens, ParseArgs;
  }

  /** With a word ahead. */
  lemma ContinueWord(t: string, j: nat, argv: seq<Span>, cmd: Cmd)
    requires j <= |t| && StateOk(t, argv, cmd) && Tokens(t, j) != [] && Tokens(t, j)[0].Text?
    ensures var tok := GetToken(t, j);
            && j < tok.next && SpanOk(tok.span, t) && Tokens(t, j)[0] == G.Text(SpanText(tok.span, t))
            && Tokens(t, tok.next) == Tokens(t, j)[1..]
            && Continue(t, j, argv, cmd) ==
               if |argv| + 1 >= MAXARGS then Panic else Continue(t, tok.next, argv + [tok.span], cmd)
  {
    Literals();
    PeekTokens(t, j, "<>");
    TakeToken(t, j);
    var s := Peek(t, j, "<>").0;
    PeekTokens(t, s, "|)&;");
    hide GetToken, Peek, Tokens;
  }

  /** With anything else ahead: the end of the command, or an opening parenthesis, which is an error. */
  lemma ContinueEnd(t: string, j: nat, argv: seq<Span>, cmd: Cmd)
    requires j <= |t| && StateOk(t, argv, cmd)
    requires Tokens(t, j) == [] || (!Tokens(t, j)[0].Text? && !Starts(Tokens(t, j), "<>"))
    ensures Tokens(t, j) == [] || Starts(Tokens(t, j), "|)&;") ==>
              var r := Continue(t, j, argv, cmd);
              r.Ok? && r.cmd == SetArgs(cmd, argv) && Tokens(t, r.i) == Tokens(t, j)
    ensures !(Tokens(t, j) == [] || Starts(Tokens(t, j), "|)&;")) ==> Continue(t, j, argv, cmd).Panic?
  {
    Literals();
    PeekTokens(t, j, "<>");
    var s := Peek(t, j, "<>").0;
    PeekTokens(t, s, "|)&;");
    TakeToken(t, j);
    hide GetToken, Peek, Tokens;
  }

  // ---- redirections after a block

  lemma RedirAhead(t: string, j: nat, cmd: Cmd)
    requires j <= |t| && CmdOk(cmd, t) && Starts(Tokens(t, j), "<>")
    ensures var op := GetToken(t, j); var ls := Tokens(t, j);
            && j < op.next && Tokens(t, op.next) == ls[1..] && G.IsArrow(ls[0])
            && var file := GetToken(t, op.next); var next := RedirCmd(cmd, file.span, ls[0] == G.Sym('<'));
               && (|ls| < 2 || !ls[1].Text? ==> ParseRedirs(t, j, cmd).Panic?)
               && (|ls| >= 2 && ls[1].Text? ==>
                     && SpanOk(file.span, t) && ls[1] == G.Text(SpanText(file.span, t))
                     && Tokens(t, file.next) == ls[2..] && CmdOk(next, t)
                     && Text(next, t) == RedirT(Text(cmd, t), SpanText(file.span, t), ls[0] == G.Sym('<'))
                     && ParseRedirs(t, j, cmd) == ParseRedirs(t, file.next, next))
  {
    Literals();
    PeekTokens(t, j, "<>");
    TakeToken(t, j);
    var op := GetToken(t, j);
    TakeToken(t, op.next);
    hide GetToken, Peek, Tokens;
  }

  lemma NoRedirAhead(t: string, j: nat, cmd: Cmd)
    requires j <= |t| && !Starts(Tokens(t, j), "<>")
    ensures var r := ParseRedirs(t, j, cmd); r.Ok? && r.cmd == cmd && Tokens(t, r.i) == Tokens(t, j)
  {
    Literals();
    PeekTokens(t, j, "<>");
    hide GetToken, Peek, Tokens;
  }

  // ---- the rules of the grammar, one item at a time

  lemma SimpleWord(ls: seq<G.Lexeme>, w: string, before: Tree, tr: Tree)
    requires G.IsSimple(ls, before) && G.Extends(before, w, tr) && |G.Arguments(tr)| < 10
    ensures G.IsSimple(ls + [G.Text(w)], tr)
  {
    var all := ls + [G.Text(w)];
    assert all[..|all| - 1] == ls;
    assert G.IsSimpleAnd(ls, w, tr);
  }

  lemma SimpleRedir(ls: seq<G.Lexeme>, op: G.Lexeme, file: string, tr: Tree)
    requires G.IsArrow(op)
    ensures var all := ls + [op, G.Text(file)]; var next := RedirT(tr, file, op == G.Sym('<'));
            (G.IsSimple(ls, tr) ==> G.IsSimple(all, next)) && (G.IsBlock(ls, tr) ==> G.IsBlock(all, next))
  {
    var all := ls + [op, G.Text(file)];
    assert all[..|all| - 2] == ls && all[|all| - 2] == op;
  }

  // ---- what the parser builds, the tokens stand for

  lemma {:induction false} SoundSimple(t: string, j: nat, argv: seq<Span>, cmd: Cmd, ls: seq<G.Lexeme>)
    returns (more: seq<G.Lexeme>)
    requires j <= |t| && StateOk(t, argv, cmd) && G.IsSimple(ls, Text(SetArgs(cmd, argv), t))
    requires Continue(t, j, argv, cmd).Ok?
    ensures var r := Continue(t, j, argv, cmd);
            Tokens(t, j) == more + Tokens(t, r.i) && CmdOk(r.cmd, t) && G.IsSimple(ls + more, Text(r.cmd, t))
    decreases |t| - j
  {
    hide GetToken, Continue, Tokens, StateOk, SetArgs, G.IsSimple, Text, CmdOk, G.Extends, G.Arguments;
    var here := Tokens(t, j);
    StateCmd(t, argv, cmd);
    if Starts(here, "<>") {
      ContinueRedir(t, j, argv, cmd);
      var file := GetToken(t, GetToken(t, j).next);
      RedirAdded(t, cmd, argv, file.span, here[0] == G.Sym('<'));
      SimpleRedir(ls, here[0], SpanText(file.span, t), Text(SetArgs(cmd, argv), t));
      assert here[..2] == [here[0], G.Text(SpanText(file.span, t))];
      var rest := SoundSimple(t, file.next, argv, RedirCmd(cmd, file.span, here[0] == G.Sym('<')), ls + here[..2]);
      more := here[..2] + rest;
      assert ls + more == ls + here[..2] + rest;
    } else if here != [] && here[0].Text? {
      ContinueWord(t, j, argv, cmd);
      var tok := GetToken(t, j);
      ArgAdded(t, cmd, argv, tok.span);
      StateCmd(t, argv + [tok.span], cmd);
      assert here[..1] == [G.Text(SpanText(tok.span, t))];
      SimpleWord(ls, SpanText(tok.span, t), Text(SetArgs(cmd, argv), t), Text(SetArgs(cmd, argv + [tok.span]), t));
      var rest := SoundSimple(t, tok.next, argv + [tok.span], cmd, ls + here[..1]);
      more := here[..1] + rest;
      assert ls + more == ls + here[..1] + rest;
    } else {
      ContinueEnd(t, j, argv, cmd);
      more := [];
      assert ls + more == ls;
    }
  }

  lemma StateCmd(t: string, argv: seq<Span>, cmd: Cmd)
    requires StateOk(t, argv, cmd)
    ensures CmdOk(SetArgs(cmd, argv), t)
  {
  }

  lemma {:induction false} SoundRedirs(t: string, j: nat, cmd: Cmd, ls: seq<G.Lexeme>) returns (more: seq<G.Lexeme>)
    requires j <= |t| && CmdOk(cmd, t) && G.IsBlock(ls, Text(cmd, t)) && ParseRedirs(t, j, cmd).Ok?
    ensures var r := ParseRedirs(t, j, cmd);
            Tokens(t, j) == more + Tokens(t, r.i) && CmdOk(r.cmd, t) && G.IsBlock(ls + more, Text(r.cmd, t))
    decreases |t| - j
  {
    hide GetToken, ParseRedirs, Tokens, G.IsBlock, Text, CmdOk;
    var here := Tokens(t, j);
    if Starts(here, "<>") {
      RedirAhead(t, j, cmd);
      var file := GetToken(t, GetToken(t, j).next);
      SimpleRedir(ls, here[0], SpanText(file.span, t), Text(cmd, t));
      assert here[..2] == [here[0], G.Text(SpanText(file.span, t))];
      var rest := SoundRedirs(t, file.next, RedirCmd(cmd, file.span, here[0] == G.Sym('<')), ls + here[..2]);
      more := here[..2] + rest;
      assert ls + more == ls + here[..2] + rest;
    } else {
      NoRedirAhead(t, j, cmd);
      more := [];
      assert ls + more == ls;
    }
  }

  /** A symbol ahead, and gettoken past it. */
  lemma SymbolAhead(t: string, i: nat, c: char)
    requires i <= |t| && IsSymbol(c) && c != '>'
    ensures var p := Peek(t, i, [c]);
            && Tokens(t, p.0) == Tokens(t, i) && (p.1 <==> Starts(Tokens(t, i), [c]))
            && (p.1 ==> Tokens(t, i)[0] == G.Sym(c) && Tokens(t, GetToken(t, p.0).next) == Tokens(t, i)[1..])
            && (p.1 ==> p.0 < GetToken(t, p.0).next)
  {
    assert SymbolsOnly([c]);
    PeekTokens(t, i, [c]);
    TakeToken(t, Peek(t, i, [c]).0);
  }

  lemma {:induction false} SoundExec(t: string, i: nat) returns (used: seq<G.Lexeme>)
    requires i <= |t| && ParseExec(t, i).Ok?
    ensures var r := ParseExec(t, i);
            Tokens(t, i) == used + Tokens(t, r.i) && CmdOk(r.cmd, t) && G.IsExec(used, Text(r.cmd, t))
    decreases |t| - i, 3
  {
    hide GetToken, Peek, Tokens, CmdOk, Text, ParseRedirs, ParseArgs, G.IsSimple, G.IsBlock, ParseLine;
    SymbolAhead(t, i, '(');
    var (s, block) := Peek(t, i, "(");
    if !block {
      StartState(t);
      var empty: seq<G.Lexeme> := [];
      EmptySimple();
      used := SoundSimple(t, s, [], ExecCmd([]), empty);
      assert empty + used == used;
    } else {
      SymbolAhead(t, s, '(');
      var (s', _) := Peek(t, s, "(");
      var inner := GetToken(t, s').next;
      var line := ParseLine(t, inner);
      var body := SoundLine(t, inner);
      SymbolAhead(t, line.i, ')');
      var (e, close) := Peek(t, line.i, ")");
      var ls := [G.Sym('(')] + body + [G.Sym(')')];
      InParentheses(body, Text(line.cmd, t));
      var more := SoundRedirs(t, GetToken(t, e).next, line.cmd, ls);
      used := ls + more;
      assert Tokens(t, i) == [G.Sym('(')] + body + Tokens(t, line.i);
      assert Tokens(t, line.i) == [G.Sym(')')] + Tokens(t, line.i)[1..];
    }
  }

  lemma EmptySimple()
    ensures G.IsSimple([], ExecT([]))
  {
  }

  lemma InParentheses(body: seq<G.Lexeme>, tr: Tree)
    requires G.IsLine(body, tr)
    ensures G.IsBlock([G.Sym('(')] + body + [G.Sym(')')], tr)
  {
    var ls := [G.Sym('(')] + body + [G.Sym(')')];
    assert ls[1..|ls| - 1] == body;
  }

  lemma {:induction false} SoundPipe(t: string, i: nat) returns (used: seq<G.Lexeme>)
    requires i <= |t| && ParsePipe(t, i).Ok?
    ensures var r := ParsePipe(t, i);
            Tokens(t, i) == used + Tokens(t, r.i) && CmdOk(r.cmd, t) && G.IsPipe(used, Text(r.cmd, t))
    decreases |t| - i, 4
  {
    hide GetToken, Peek, Tokens, CmdOk, Text, ParseExec, G.IsExec;
    var left := SoundExec(t, i);
    var l := ParseExec(t, i);
    SymbolAhead(t, l.i, '|');
    var (s, bar) := Peek(t, l.i, "|");
    if !bar {
      used := left;
    } else {
      var next := GetToken(t, s).next;
      var right := SoundPipe(t, next);
      var r := ParsePipe(t, next);
      used := left + [G.Sym('|')] + right;
      NodeText(t, l.cmd, r.cmd);
      PipeRule(left, right, Text(l.cmd, t), Text(r.cmd, t));
      Rejoin(Tokens(t, i), left, Tokens(t, l.i), G.Sym('|'), right, Tokens(t, r.i));
    }
  }

  lemma Rejoin(whole: seq<G.Lexeme>, a: seq<G.Lexeme>, x: seq<G.Lexeme>, s: G.Lexeme, b: seq<G.Lexeme>,
               y: seq<G.Lexeme>)
    requires whole == a + x && x != [] && x[0] == s && x[1..] == b + y
    ensures whole == a + [s] + b + y
  {
    assert x == [s] + (b + y);
  }

  lemma PipeRule(left: seq<G.Lexeme>, right: seq<G.Lexeme>, l: Tree, r: Tree)
    requires G.IsExec(left, l) && G.IsPipe(right, r)
    ensures G.IsPipe(left + [G.Sym('|')] + right, PipeT(l, r))
  {
    var all := left + [G.Sym('|')] + right;
    assert all[..|left|] == left && all[|left| + 1..] == right && all[|left|] == G.Sym('|');
  }

  lemma NodeText(t: string, l: Cmd, r: Cmd)
    requires CmdOk(l, t) && CmdOk(r, t)
    ensures CmdOk(PipeCmd(l, r), t) && Text(PipeCmd(l, r), t) == PipeT(Text(l, t), Text(r, t))
    ensures CmdOk(ListCmd(l, r), t) && Text(ListCmd(l, r), t) == ListT(Text(l, t), Text(r, t))
    ensures CmdOk(BackCmd(l), t) && Text(BackCmd(l), t) == BackT(Text(l, t))
  {
  }

  lemma {:induction false} SoundBacks(t: string, i: nat, cmd: Cmd, ls: seq<G.Lexeme>) returns (more: seq<G.Lexeme>)
    requires i <= |t| && CmdOk(cmd, t) && G.IsJob(ls, Text(cmd, t))
    ensures var r := ParseBacks(t, i, cmd);
            Tokens(t, i) == more + Tokens(t, r.1) && CmdOk(r.0, t) && G.IsJob(ls + more, Text(r.0, t))
    decreases |t| - i
  {
    hide GetToken, Peek, Tokens, CmdOk, Text, G.IsJob;
    SymbolAhead(t, i, '&');
    var (s, amp) := Peek(t, i, "&");
    if !amp {
      more := [];
      assert ls + more == ls;
    } else {
      NodeText(t, cmd, cmd);
      BackRule(ls, Text(cmd, t));
      var next := GetToken(t, s).next;
      var rest := SoundBacks(t, next, BackCmd(cmd), ls + [G.Sym('&')]);
      more := [G.Sym('&')] + rest;
      assert ls + more == ls + [G.Sym('&')] + rest;
      FrontJoin(Tokens(t, i), G.Sym('&'), rest, Tokens(t, ParseBacks(t, next, BackCmd(cmd)).1));
    }
  }

  lemma FrontJoin(x: seq<G.Lexeme>, s: G.Lexeme, b: seq<G.Lexeme>, y: seq<G.Lexeme>)
    requires x != [] && x[0] == s && x[1..] == b + y
    ensures x == [s] + b + y
  {
    assert x == [s] + (b + y);
  }

  lemma BackRule(ls: seq<G.Lexeme>, tr: Tree)
    requires G.IsJob(ls, tr)
    ensures G.IsJob(ls + [G.Sym('&')], BackT(tr))
  {
    var all := ls + [G.Sym('&')];
    assert all[..|all| - 1] == ls;
  }

  lemma {:induction false} SoundLine(t: string, i: nat) returns (used: seq<G.Lexeme>)
    requires i <= |t| && ParseLine(t, i).Ok?
    ensures var r := ParseLine(t, i);
            Tokens(t, i) == used + Tokens(t, r.i) && CmdOk(r.cmd, t) && G.IsLine(used, Text(r.cmd, t))
    decreases |t| - i, 5
  {
    hide GetToken, Peek, Tokens, CmdOk, Text, ParsePipe, ParseBacks, G.IsJob;
    var first := SoundPipe(t, i);
    var p := ParsePipe(t, i);
    PipeIsJob(first, Text(p.cmd, t));
    var backs := SoundBacks(t, p.i, p.cmd, first);
    var job := first + backs;
    var (cmd, j) := ParseBacks(t, p.i, p.cmd);
    assert Tokens(t, i) == job + Tokens(t, j);
    SymbolAhead(t, j, ';');
    var (s, semi) := Peek(t, j, ";");
    if !semi {
      used := job;
    } else {
      var next := GetToken(t, s).next;
      var right := SoundLine(t, next);
      var r := ParseLine(t, next);
      used := job + [G.Sym(';')] + right;
      NodeText(t, cmd, r.cmd);
      LineRule(job, right, Text(cmd, t), Text(r.cmd, t));
      Rejoin(Tokens(t, i), job, Tokens(t, j), G.Sym(';'), right, Tokens(t, r.i));
    }
  }

  lemma PipeIsJob(ls: seq<G.Lexeme>, tr: Tree)
    requires G.IsPipe(ls, tr)
    ensures G.IsJob(ls, tr)
  {
  }

  lemma LineRule(left: seq<G.Lexeme>, right: seq<G.Lexeme>, l: Tree, r: Tree)
    requires G.IsJob(left, l) && G.IsLine(right, r)
    ensures G.IsLine(left + [G.Sym(';')] + right, ListT(l, r))
  {
    var all := left + [G.Sym(';')] + right;
    assert all[..|left|] == left && all[|left| + 1..] == right && all[|left|] == G.Sym(';');
  }

  // ---- what the tokens stand for, the parser builds

  /** The symbols that may follow a simple command or block, a pipeline, a job, a line. */
  function Stoppers(level: nat): string {
    if level == 0 then ")" else if level == 1 then ");" else if level == 2 then "&);" else "|&);"
  }

  predicate Follow(rest: seq<G.Lexeme>, level: nat) {
    rest == [] || (rest[0].Sym? && rest[0].c in Stoppers(level))
  }

  lemma FollowSym(c: char, rest: seq<G.Lexeme>, level: nat)
    requires c in Stoppers(level)
    ensures Follow([G.Sym(c)] + rest, level)
  {
  }

  lemma FollowUp(rest: seq<G.Lexeme>, level: nat, more: nat)
    requires Follow(rest, level) && level <= more <= 3
    ensures Follow(rest, more)
  {
  }

  /** What a follower is not. */
  lemma FollowIs(rest: seq<G.Lexeme>, level: nat)
    requires Follow(rest, level)
    ensures !Starts(rest, "<>") && !Starts(rest, "(") && (rest != [] ==> !rest[0].Text? && Starts(rest, "|)&;"))
    ensures level <= 2 ==> !Starts(rest, "|")
    ensures level <= 1 ==> !Starts(rest, "&")
    ensures level == 0 ==> !Starts(rest, ";")
  {
  }

  /** The parse is the command `tr`, and `rest` is left. */
  ghost predicate Gives(r: Parsed, t: string, tr: Tree, rest: seq<G.Lexeme>) {
    r.Ok? && r.i <= |t| && CmdOk(r.cmd, t) && Text(r.cmd, t) == tr && Tokens(t, r.i) == rest
  }

  lemma {:induction false} ArgumentsGrow(t: string, cmd: Cmd, argv: seq<Span>, w: string)
    requires StateOk(t, argv, cmd)
    ensures |G.Arguments(G.WithArgument(Text(SetArgs(cmd, argv), t), w))| == |argv| + 1
  {
    if cmd.RedirCmd? {
      ArgumentsGrow(t, cmd.cmd, argv, w);
    }
  }

  /** parseexec gets through the items of a simple command. */
  lemma {:induction false} CompleteSimple(t: string, i: nat, ls: seq<G.Lexeme>, tr: Tree, rest: seq<G.Lexeme>)
    returns (j: nat, argv: seq<Span>, cmd: Cmd)
    requires i <= |t| && G.IsSimple(ls, tr) && Tokens(t, i) == ls + rest
    ensures j <= |t| && Tokens(t, j) == rest && StateOk(t, argv, cmd) && CmdOk(SetArgs(cmd, argv), t)
    ensures Text(SetArgs(cmd, argv), t) == tr && Continue(t, i, [], ExecCmd([])) == Continue(t, j, argv, cmd)
    decreases |ls|
  {
    hide GetToken, Continue, Tokens, StateOk, SetArgs, Text, CmdOk, G.Arguments, G.WithArgument;
    if ls == [] {
      StartState(t);
      StateCmd(t, [], ExecCmd([]));
      assert ls + rest == rest;
      j, argv, cmd := i, [], ExecCmd([]);
    } else {
      var n := |ls|;
      if ls[n - 1].Text? && |G.Arguments(tr)| < 10 && G.IsSimpleAnd(ls[..n - 1], ls[n - 1].w, tr) {
        var before :| G.Extends(before, ls[n - 1].w, tr) && G.IsSimple(ls[..n - 1], before);
        assert ls + rest == ls[..n - 1] + ([ls[n - 1]] + rest);
        j, argv, cmd := CompleteSimple(t, i, ls[..n - 1], before, [ls[n - 1]] + rest);
        ContinueWord(t, j, argv, cmd);
        ArgumentsGrow(t, cmd, argv, ls[n - 1].w);
        var tok := GetToken(t, j);
        ArgAdded(t, cmd, argv, tok.span);
        argv := argv + [tok.span];
        StateCmd(t, argv, cmd);
        j := tok.next;
      } else {
        assert ls + rest == ls[..n - 2] + ([ls[n - 2], ls[n - 1]] + rest);
        j, argv, cmd := CompleteSimple(t, i, ls[..n - 2], tr.cmd, [ls[n - 2], ls[n - 1]] + rest);
        ContinueRedir(t, j, argv, cmd);
        var file := GetToken(t, GetToken(t, j).next);
        RedirAdded(t, cmd, argv, file.span, ls[n - 2] == G.Sym('<'));
        cmd := RedirCmd(cmd, file.span, ls[n - 2] == G.Sym('<'));
        StateCmd(t, argv, cmd);
        j := file.next;
      }
    }
  }

  lemma {:induction false} SimpleFront(ls: seq<G.Lexeme>, tr: Tree)
    requires G.IsSimple(ls, tr) && ls != []
    ensures ls[0].Text? || G.IsArrow(ls[0])
    decreases |ls|
  {
    var n := |ls|;
    if ls[n - 1].Text? && G.IsSimpleAnd(ls[..n - 1], ls[n - 1].w, tr) {
      var before :| G.Extends(before, ls[n - 1].w, tr) && G.IsSimple(ls[..n - 1], before);
      if n > 1 {
        SimpleFront(ls[..n - 1], before);
      }
    } else if n > 2 {
      SimpleFront(ls[..n - 2], tr.cmd);
    }
  }

  lemma {:induction false} CompleteExec(t: string, i: nat, ls: seq<G.Lexeme>, tr: Tree, rest: seq<G.Lexeme>)
    requires i <= |t| && G.IsExec(ls, tr) && Tokens(t, i) == ls + rest && Follow(rest, 3)
    ensures Gives(ParseExec(t, i), t, tr, rest)
    decreases |ls|, 2
  {
    hide GetToken, Peek, Tokens, CmdOk, Text, ParseRedirs, ParseArgs, G.IsSimple, G.IsBlock, ParseLine;
    FollowIs(rest, 3);
    SymbolAhead(t, i, '(');
    if G.IsSimple(ls, tr) {
      if ls != [] {
        SimpleFront(ls, tr);
        assert (ls + rest)[0] == ls[0];
      } else {
        assert ls + rest == rest;
      }
      var s := Peek(t, i, "(").0;
      var j, argv, cmd := CompleteSimple(t, s, ls, tr, rest);
      ContinueEnd(t, j, argv, cmd);
    } else {
      var j, cmd := CompleteBlock(t, i, ls, tr, rest);
      NoRedirAhead(t, j, cmd);
    }
  }

  /** parseblock gets through a block and the redirections behind it. */
  lemma {:induction false} CompleteBlock(t: string, i: nat, ls: seq<G.Lexeme>, tr: Tree, rest: seq<G.Lexeme>)
    returns (j: nat, cmd: Cmd)
    requires i <= |t| && G.IsBlock(ls, tr) && Tokens(t, i) == ls + rest
    ensures j <= |t| && Tokens(t, j) == rest && CmdOk(cmd, t) && Text(cmd, t) == tr
    ensures ParseExec(t, i) == ParseRedirs(t, j, cmd)
    decreases |ls|, 1
  {
    hide GetToken, Peek, Tokens, CmdOk, Text, ParseRedirs, ParseLine, G.IsLine;
    var n := |ls|;
    if n >= 2 && ls[0] == G.Sym('(') && ls[n - 1] == G.Sym(')') && G.IsLine(ls[1..n - 1], tr) {
      var body := ls[1..n - 1];
      var back := [G.Sym(')')] + rest;
      assert ls + rest == [G.Sym('(')] + (body + back);
      SymbolAhead(t, i, '(');
      var s := Peek(t, i, "(").0;
      SymbolAhead(t, s, '(');
      var inner := GetToken(t, Peek(t, s, "(").0).next;
      FollowSym(')', rest, 0);
      CompleteLine(t, inner, body, tr, back);
      var line := ParseLine(t, inner);
      SymbolAhead(t, line.i, ')');
      j, cmd := GetToken(t, Peek(t, line.i, ")").0).next, line.cmd;
      TokenInLine(t, Peek(t, line.i, ")").0);
    } else {
      assert ls + rest == ls[..n - 2] + ([ls[n - 2], ls[n - 1]] + rest);
      j, cmd := CompleteBlock(t, i, ls[..n - 2], tr.cmd, [ls[n - 2], ls[n - 1]] + rest);
      RedirAhead(t, j, cmd);
      var file := GetToken(t, GetToken(t, j).next);
      cmd := RedirCmd(cmd, file.span, ls[n - 2] == G.Sym('<'));
      j := file.next;
    }
  }

  lemma TokenInLine(t: string, i: nat)
    requires i <= |t|
    ensures GetToken(t, i).next <= |t|
  {
  }

  lemma {:induction false} CompletePipe(t: string, i: nat, ls: seq<G.Lexeme>, tr: Tree, rest: seq<G.Lexeme>)
    requires i <= |t| && G.IsPipe(ls, tr) && Tokens(t, i) == ls + rest && Follow(rest, 2)
    ensures Gives(ParsePipe(t, i), t, tr, rest)
    decreases |ls|, 3
  {
    hide GetToken, Peek, Tokens, CmdOk, Text, ParseExec, G.IsExec, Follow, Starts;
    if G.IsExec(ls, tr) {
      FollowUp(rest, 2, 3);
      CompleteExec(t, i, ls, tr, rest);
      FollowIs(rest, 2);
      SymbolAhead(t, ParseExec(t, i).i, '|');
    } else {
      var k :| 0 <= k < |ls| && ls[k] == G.Sym('|') && G.IsExec(ls[..k], tr.left) && G.IsPipe(ls[k + 1..], tr.right);
      var right := ls[k + 1..] + rest;
      CutAt(ls, k, rest);
      FollowSym('|', right, 3);
      CompleteExec(t, i, ls[..k], tr.left, [G.Sym('|')] + right);
      var l := ParseExec(t, i);
      SymbolAhead(t, l.i, '|');
      BarStarts(right);
      var next := GetToken(t, Peek(t, l.i, "|").0).next;
      CompletePipe(t, next, ls[k + 1..], tr.right, rest);
      NodeText(t, l.cmd, ParsePipe(t, next).cmd);
    }
  }

  lemma CutAt(ls: seq<G.Lexeme>, k: nat, rest: seq<G.Lexeme>)
    requires k < |ls|
    ensures ls + rest == ls[..k] + ([ls[k]] + (ls[k + 1..] + rest))
  {
    assert ls == ls[..k] + ([ls[k]] + ls[k + 1..]);
  }

  lemma BarStarts(rest: seq<G.Lexeme>)
    ensures Starts([G.Sym('|')] + rest, "|") && Starts([G.Sym('&')] + rest, "&") && Starts([G.Sym(';')] + rest, ";")
  {
  }

  /** The "&" loop, started after parsepipe, gets through a job. */
  lemma {:induction false} CompleteJob(t: string, i: nat, ls: seq<G.Lexeme>, tr: Tree, rest: seq<G.Lexeme>)
    returns (j: nat, c: Cmd)
    requires i <= |t| && G.IsJob(ls, tr) && Tokens(t, i) == ls + rest && Follow(rest, 2)
    ensures j <= |t| && CmdOk(c, t) && Text(c, t) == tr && Tokens(t, j) == rest
    ensures ParsePipe(t, i).Ok? && ParseBacks(t, ParsePipe(t, i).i, ParsePipe(t, i).cmd) == ParseBacks(t, j, c)
    decreases |ls|, 4
  {
    hide GetToken, Peek, Tokens, CmdOk, Text, ParsePipe, G.IsPipe, Follow, Starts;
    if G.IsPipe(ls, tr) {
      CompletePipe(t, i, ls, tr, rest);
      j, c := ParsePipe(t, i).i, ParsePipe(t, i).cmd;
    } else {
      var n := |ls|;
      assert ls + rest == ls[..n - 1] + ([G.Sym('&')] + rest);
      FollowSym('&', rest, 2);
      j, c := CompleteJob(t, i, ls[..n - 1], tr.cmd, [G.Sym('&')] + rest);
      SymbolAhead(t, j, '&');
      BarStarts(rest);
      NodeText(t, c, c);
      TokenInLine(t, Peek(t, j, "&").0);
      j, c := GetToken(t, Peek(t, j, "&").0).next, BackCmd(c);
    }
  }

  lemma {:induction false} CompleteLine(t: string, i: nat, ls: seq<G.Lexeme>, tr: Tree, rest: seq<G.Lexeme>)
    requires i <= |t| && G.IsLine(ls, tr) && Tokens(t, i) == ls + rest && Follow(rest, 0)
    ensures Gives(ParseLine(t, i), t, tr, rest)
    decreases |ls|, 5
  {
    hide GetToken, Peek, Tokens, CmdOk, Text, ParsePipe, G.IsJob, Follow, Starts;
    FollowUp(rest, 0, 2);
    FollowIs(rest, 0);
    if G.IsJob(ls, tr) {
      var j, c := CompleteJob(t, i, ls, tr, rest);
      SymbolAhead(t, j, '&');
      var p := ParsePipe(t, i);
      SymbolAhead(t, ParseBacks(t, p.i, p.cmd).1, ';');
    } else {
      var k :| 0 <= k < |ls| && ls[k] == G.Sym(';') && G.IsJob(ls[..k], tr.left) && G.IsLine(ls[k + 1..], tr.right);
      var right := ls[k + 1..] + rest;
      var semi := [G.Sym(';')] + right;
      CutAt(ls, k, rest);
      FollowSym(';', right, 1);
      FollowUp(semi, 1, 2);
      var j, c := CompleteJob(t, i, ls[..k], tr.left, semi);
      FollowIs(semi, 1);
      SymbolAhead(t, j, '&');
      var p := ParsePipe(t, i);
      var e := ParseBacks(t, p.i, p.cmd).1;
      SymbolAhead(t, e, ';');
      BarStarts(right);
      var next := GetToken(t, Peek(t, e, ";").0).next;
      CompleteLine(t, next, ls[k + 1..], tr.right, rest);
      NodeText(t, c, ParseLine(t, next).cmd);
    }
  }

  /** The parser accepts a line as a command exactly when the line's tokens stand for that command. */
  lemma AcceptsIffStands(line: string, tr: Tree)
    ensures (ParseCmd(line).Ok? && CmdOk(ParseCmd(line).cmd, line) && Text(ParseCmd(line).cmd, line) == tr) <==>
            G.IsLine(G.Lexemes(line), tr)
  {
    assert line[0..] == line;
    TokensAreLexemes(line, 0);
    var ls := Tokens(line, 0);
    var p := ParseLine(line, 0);
    if p.Ok? {
      AllUsed(line, p.i);
      LineOk(line, 0);
    }
    if ParseCmd(line).Ok? && Text(ParseCmd(line).cmd, line) == tr {
      var used := SoundLine(line, 0);
      assert used + [] == used;
    }
    if G.IsLine(ls, tr) {
      assert ls + [] == ls;
      CompleteLine(line, 0, ls, tr, []);
    }
  }

  lemma AllUsed(t: string, i: nat)
    requires i <= |t|
    ensures Peek(t, i, "").0 == |t| <==> Tokens(t, i) == []
  {
  }

  /** A panic means that no command stands for the line, and no line stands for two. */
  lemma OneMeaning(line: string, a: Tree, b: Tree)
    ensures ParseCmd(line).Panic? ==> !G.IsLine(G.Lexemes(line), a)
    ensures G.IsLine(G.Lexemes(line), a) && G.IsLine(G.Lexemes(line), b) ==> a == b
  {
    AcceptsIffStands(line, a);
    AcceptsIffStands(line, b);
  }
}

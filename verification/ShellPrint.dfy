/**
 Command trees with their words as strings, a printer for them, and the proof that
 the parser of xv6/sh.c is a left inverse of the printer on every well-formed tree.
 */
module ShellTrees {
  import opened ShellTokens
  import opened ShellParser

  datatype Tree =
    | ExecT(args: seq<string>)
    | RedirT(cmd: Tree, file: string, input: bool)
    | PipeT(left: Tree, right: Tree)
    | ListT(left: Tree, right: Tree)
    | BackT(cmd: Tree)

  predicate IsWord(w: string) {
    w != [] && forall k :: 0 <= k < |w| ==> IsWordChar(w[k])
  }

  /** A tree the shell can hold: words are words, and a command has fewer than MAXARGS of them. */
  predicate WellFormed(tr: Tree) {
    match tr
    case ExecT(args) => |args| < MAXARGS && forall k :: 0 <= k < |args| ==> IsWord(args[k])
    case RedirT(c, file, _) => WellFormed(c) && IsWord(file)
    case PipeT(l, r) => WellFormed(l) && WellFormed(r)
    case ListT(l, r) => WellFormed(l) && WellFormed(r)
    case BackT(c) => WellFormed(c)
  }

  predicate CmdOk(c: Cmd, t: string) {
    match c
    case ExecCmd(argv) => |argv| < MAXARGS && forall k :: 0 <= k < |argv| ==> SpanOk(argv[k], t)
    case RedirCmd(d, file, _) => CmdOk(d, t) && SpanOk(file, t)
    case PipeCmd(l, r) => CmdOk(l, t) && CmdOk(r, t)
    case ListCmd(l, r) => CmdOk(l, t) && CmdOk(r, t)
    case BackCmd(d) => CmdOk(d, t)
  }

  function SpanText(s: Span, t: string): string
    requires s.q <= s.eq <= |t|
  {
    t[s.q..s.eq]
  }

  /** The tree a command stands for. */
  function Text(c: Cmd, t: string): Tree
    requires CmdOk(c, t)
  {
    match c
    case ExecCmd(argv) => ExecT(seq(|argv|, k requires 0 <= k < |argv| => SpanText(argv[k], t)))
    case RedirCmd(d, file, input) => RedirT(Text(d, t), SpanText(file, t), input)
    case PipeCmd(l, r) => PipeT(Text(l, t), Text(r, t))
    case ListCmd(l, r) => ListT(Text(l, t), Text(r, t))
    case BackCmd(d) => BackT(Text(d, t))
  }

  lemma {:induction false} TextWellFormed(c: Cmd, t: string)
    requires CmdOk(c, t)
    ensures WellFormed(Text(c, t))
  {
    match c
    case ExecCmd(argv) =>
    case RedirCmd(d, _, _) => TextWellFormed(d, t);
    case PipeCmd(l, r) => TextWellFormed(l, t); TextWellFormed(r, t);
    case ListCmd(l, r) => TextWellFormed(l, t); TextWellFormed(r, t);
    case BackCmd(d) => TextWellFormed(d, t);
  }

  // ---- the parser builds well-formed commands only ----

  lemma {:induction false} RedirsOk(t: string, i: nat, cmd: Cmd)
    requires i <= |t| && CmdOk(cmd, t)
    ensures ParseRedirs(t, i, cmd).Ok? ==> CmdOk(ParseRedirs(t, i, cmd).cmd, t)
    decreases |t| - i
  {
    var (s, redir) := Peek(t, i, "<>");
    if redir {
      var op := GetToken(t, s);
      var file := GetToken(t, op.next);
      WordSpan(t, op.next);
      if file.kind.Word? {
        RedirsOk(t, file.next, RedirCmd(cmd, file.span, op.kind == Symbol('<')));
      }
    }
  }

  lemma {:induction false} SetArgsOk(t: string, cmd: Cmd, argv: seq<Span>)
    requires CmdOk(cmd, t) && CmdOk(ExecCmd(argv), t)
    ensures CmdOk(SetArgs(cmd, argv), t)
  {
    if cmd.RedirCmd? {
      SetArgsOk(t, cmd.cmd, argv);
    }
  }

  lemma {:induction false} ArgsOk(t: string, i: nat, argv: seq<Span>, cmd: Cmd)
    requires i <= |t| && CmdOk(cmd, t) && CmdOk(ExecCmd(argv), t)
    ensures ParseArgs(t, i, argv, cmd).Ok? ==> CmdOk(ParseArgs(t, i, argv, cmd).cmd, t)
    decreases |t| - i
  {
    SetArgsOk(t, cmd, argv);
    var (s, stop) := Peek(t, i, "|)&;");
    if !stop {
      var tok := GetToken(t, s);
      WordSpan(t, s);
      if tok.kind.Word? && |argv| + 1 < MAXARGS {
        RedirsOk(t, tok.next, cmd);
        var r := ParseRedirs(t, tok.next, cmd);
        if r.Ok? {
          ArgsOk(t, r.i, argv + [tok.span], r.cmd);
        }
      }
    }
  }

  lemma {:induction false} ExecOk(t: string, i: nat)
    requires i <= |t|
    ensures ParseExec(t, i).Ok? ==> CmdOk(ParseExec(t, i).cmd, t)
    decreases |t| - i, 3
  {
    var (s, block) := Peek(t, i, "(");
    if block {
      var (s', _) := Peek(t, s, "(");
      var inner := GetToken(t, s').next;
      LineOk(t, inner);
      var line := ParseLine(t, inner);
      if line.Ok? {
        var (e, close) := Peek(t, line.i, ")");
        if close {
          RedirsOk(t, GetToken(t, e).next, line.cmd);
        }
      }
    } else {
      RedirsOk(t, s, ExecCmd([]));
      var r := ParseRedirs(t, s, ExecCmd([]));
      if r.Ok? {
        ArgsOk(t, r.i, [], r.cmd);
      }
    }
  }

  lemma {:induction false} PipeOk(t: string, i: nat)
    requires i <= |t|
    ensures ParsePipe(t, i).Ok? ==> CmdOk(ParsePipe(t, i).cmd, t)
    decreases |t| - i, 4
  {
    ExecOk(t, i);
    var l := ParseExec(t, i);
    if l.Ok? {
      var (s, bar) := Peek(t, l.i, "|");
      if bar {
        PipeOk(t, GetToken(t, s).next);
      }
    }
  }

  lemma {:induction false} BacksOk(t: string, i: nat, cmd: Cmd)
    requires i <= |t| && CmdOk(cmd, t)
    ensures CmdOk(ParseBacks(t, i, cmd).0, t)
    decreases |t| - i
  {
    var (s, amp) := Peek(t, i, "&");
    if amp {
      BacksOk(t, GetToken(t, s).next, BackCmd(cmd));
    }
  }

  /** Every word of a parsed command is a whole word of the line, and no command has MAXARGS words. */
  lemma {:induction false} LineOk(t: string, i: nat)
    requires i <= |t|
    ensures ParseLine(t, i).Ok? ==> CmdOk(ParseLine(t, i).cmd, t)
    decreases |t| - i, 5
  {
    PipeOk(t, i);
    var p := ParsePipe(t, i);
    if p.Ok? {
      BacksOk(t, p.i, p.cmd);
      var (cmd, j) := ParseBacks(t, p.i, p.cmd);
      var (s, semi) := Peek(t, j, ";");
      if semi {
        LineOk(t, GetToken(t, s).next);
      }
    }
  }
}

module ShellPrinter {
  import opened ShellTokens
  import opened ShellParser
  import opened ShellTrees

  datatype Layer = Layer(file: string, input: bool)

  /** A tree without its outer redirections, and those redirections, innermost first. */
  function Core(tr: Tree): (c: Tree)
    ensures !c.RedirT? && (c == tr || c < tr)
  {
    if tr.RedirT? then Core(tr.cmd) else tr
  }

  function Layers(tr: Tree): seq<Layer> {
    if tr.RedirT? then Layers(tr.cmd) + [Layer(tr.file, tr.input)] else []
  }

  function Wrap(tr: Tree, ls: seq<Layer>): Tree
    decreases |ls|
  {
    if ls == [] then tr else Wrap(RedirT(tr, ls[0].file, ls[0].input), ls[1..])
  }

  predicate LayersOk(ls: seq<Layer>) {
    forall k :: 0 <= k < |ls| ==> IsWord(ls[k].file)
  }

  predicate WordsOk(ws: seq<string>) {
    forall k :: 0 <= k < |ws| ==> IsWord(ws[k])
  }

  // ---- the printer; each function puts its text in front of `rest` ----

  function PutSymbol(c: char, rest: string): string {
    [c] + rest
  }

  function PutWord(w: string, rest: string): string {
    w + (" " + rest)
  }

  function PutWords(ws: seq<string>, rest: string): string {
    if ws == [] then rest else PutWord(ws[0], PutWords(ws[1..], rest))
  }

  function Arrow(l: Layer): (c: char)
    ensures IsSymbol(c) && (l.input <==> c == '<')
  {
    if l.input then '<' else '>'
  }

  function PutLayers(ls: seq<Layer>, rest: string): string {
    if ls == [] then rest
    else PutSymbol(Arrow(ls[0]), PutWord(ls[0].file, PutLayers(ls[1..], rest)))
  }

  /** Which of parseline, its "&" loop, parsepipe and parseexec builds this kind of node. */
  function Level(tr: Tree): nat {
    match tr
    case ListT(_, _) => 0
    case BackT(_) => 1
    case PipeT(_, _) => 2
    case _ => 3
  }

  /** The text of a tree where the parser is at `level`; a tree of a lower level goes in parentheses. */
  function Put(tr: Tree, level: nat, rest: string): string
    requires level <= 3
    decreases tr, if level <= Level(tr) then Level(tr) - level else 10 - level
  {
    if level == 0 then
      if tr.ListT? then Put(tr.left, 1, PutSymbol(';', Put(tr.right, 0, rest))) else Put(tr, 1, rest)
    else if level == 1 then
      if tr.BackT? then Put(tr.cmd, 1, PutSymbol('&', rest)) else Put(tr, 2, rest)
    else if level == 2 then
      if tr.PipeT? then Put(tr.left, 3, PutSymbol('|', Put(tr.right, 2, rest))) else Put(tr, 3, rest)
    else
      var c := Core(tr);
      var tail := PutLayers(Layers(tr), rest);
      if c.ExecT? then PutWords(c.args, tail) else PutSymbol('(', Put(c, 0, PutSymbol(')', tail)))
  }

  function Print(tr: Tree): string {
    Put(tr, 0, "")
  }

  // ---- parts of a tree ----

  lemma {:induction false} PartsOk(tr: Tree)
    requires WellFormed(tr)
    ensures WellFormed(Core(tr)) && LayersOk(Layers(tr))
  {
    if tr.RedirT? {
      PartsOk(tr.cmd);
    }
  }

  lemma {:induction false} WrapLast(tr: Tree, ls: seq<Layer>, l: Layer)
    ensures Wrap(tr, ls + [l]) == RedirT(Wrap(tr, ls), l.file, l.input)
    decreases |ls|
  {
    if ls != [] {
      assert (ls + [l])[1..] == ls[1..] + [l];
      WrapLast(RedirT(tr, ls[0].file, ls[0].input), ls[1..], l);
    }
  }

  lemma {:induction false} CoreAndLayers(tr: Tree)
    ensures Wrap(Core(tr), Layers(tr)) == tr
  {
    if tr.RedirT? {
      CoreAndLayers(tr.cmd);
      WrapLast(Core(tr.cmd), Layers(tr.cmd), Layer(tr.file, tr.input));
    }
  }

  // ---- the first character of printed text ----

  predicate NoSpaceAhead(s: string) {
    s == [] || !IsSpace(s[0])
  }

  lemma WordAhead(w: string, rest: string)
    requires IsWord(w)
    ensures NoSpaceAhead(PutWord(w, rest))
  {
    assert PutWord(w, rest)[0] == w[0];
  }

  lemma LayersAhead(ls: seq<Layer>, rest: string)
    requires NoSpaceAhead(rest)
    ensures NoSpaceAhead(PutLayers(ls, rest))
  {
  }

  lemma WordsAhead(ws: seq<string>, rest: string)
    requires WordsOk(ws) && NoSpaceAhead(rest)
    ensures NoSpaceAhead(PutWords(ws, rest))
  {
    if ws != [] {
      WordAhead(ws[0], PutWords(ws[1..], rest));
    }
  }

  lemma {:induction false} PutAhead(tr: Tree, level: nat, rest: string)
    requires level <= 3 && WellFormed(tr) && NoSpaceAhead(rest)
    ensures NoSpaceAhead(Put(tr, level, rest))
    decreases tr, if level <= Level(tr) then Level(tr) - level else 10 - level
  {
    if level == 0 {
      if tr.ListT? {
        PutAhead(tr.left, 1, PutSymbol(';', Put(tr.right, 0, rest)));
      } else {
        PutAhead(tr, 1, rest);
      }
    } else if level == 1 {
      if tr.BackT? {
        PutAhead(tr.cmd, 1, PutSymbol('&', rest));
      } else {
        PutAhead(tr, 2, rest);
      }
    } else if level == 2 {
      if tr.PipeT? {
        PutAhead(tr.left, 3, PutSymbol('|', Put(tr.right, 2, rest)));
      } else {
        PutAhead(tr, 3, rest);
      }
    } else {
      PartsOk(tr);
      LayersAhead(Layers(tr), rest);
      if Core(tr).ExecT? {
        WordsAhead(Core(tr).args, PutLayers(Layers(tr), rest));
      }
    }
  }

  // ---- tokens of the printed text ----

  /** What is left of the line at position i. */
  predicate Ahead(t: string, i: nat, s: string) {
    i <= |t| && t[i..] == s
  }

  /** The characters that may follow a command printed at `level`. */
  predicate Stops(c: char, level: nat) {
    c == ')' || (level >= 1 && c == ';') || (level >= 2 && c == '&') || (level >= 3 && c == '|')
  }

  predicate Follow(s: string, level: nat) {
    s == [] || Stops(s[0], level)
  }

  lemma FollowSymbol(c: char, rest: string, level: nat)
    requires Stops(c, level)
    ensures Follow(PutSymbol(c, rest), level) && NoSpaceAhead(PutSymbol(c, rest))
  {
  }

  lemma FollowAhead(s: string, level: nat)
    requires Follow(s, level)
    ensures NoSpaceAhead(s)
  {
  }

  lemma PeekAhead(t: string, i: nat, s: string, toks: string)
    requires Ahead(t, i, s) && NoSpaceAhead(s)
    ensures i <= |t| && Peek(t, i, toks) == (i, s != [] && s[0] in toks)
  {
    if s != [] {
      assert t[i..][0] == t[i];
    }
  }

  lemma PeekSymbol(t: string, i: nat, c: char, rest: string, toks: string)
    requires Ahead(t, i, PutSymbol(c, rest)) && IsSymbol(c)
    ensures i <= |t| && Peek(t, i, toks) == (i, c in toks)
  {
    PeekAhead(t, i, PutSymbol(c, rest), toks);
  }

  lemma PeekWord(t: string, i: nat, w: string, rest: string)
    requires Ahead(t, i, PutWord(w, rest)) && IsWord(w)
    ensures i <= |t| && Peek(t, i, "<>") == (i, false) &&
            Peek(t, i, "(") == (i, false) && Peek(t, i, "|)&;") == (i, false)
  {
    WordAhead(w, rest);
    assert PutWord(w, rest)[0] == w[0];
    PeekAhead(t, i, PutWord(w, rest), "<>");
    PeekAhead(t, i, PutWord(w, rest), "(");
    PeekAhead(t, i, PutWord(w, rest), "|)&;");
  }

  /** What the parser sees after a command printed at `level`. */
  lemma PeekFollow(t: string, i: nat, s: string, level: nat)
    requires Ahead(t, i, s) && Follow(s, level)
    ensures i <= |t| && Peek(t, i, "<>") == (i, false) && Peek(t, i, "(") == (i, false)
    ensures Peek(t, i, "|)&;") == (i, s != []) && (s == [] ==> GetToken(t, i).kind.End? && GetToken(t, i).next == i)
    ensures level <= 2 ==> Peek(t, i, "|") == (i, false)
    ensures level <= 1 ==> Peek(t, i, "&") == (i, false)
    ensures level == 0 ==> Peek(t, i, ";") == (i, false)
  {
    PeekAhead(t, i, s, "<>");
    PeekAhead(t, i, s, "(");
    PeekAhead(t, i, s, "|)&;");
    PeekAhead(t, i, s, "|");
    PeekAhead(t, i, s, "&");
    PeekAhead(t, i, s, ";");
  }

  lemma SymbolToken(t: string, i: nat, c: char, rest: string)
    requires Ahead(t, i, PutSymbol(c, rest))
    requires IsSymbol(c) && NoSpaceAhead(rest) && (c == '>' ==> rest == [] || rest[0] != '>')
    ensures i <= |t| && GetToken(t, i) == Token(Symbol(c), Span(i, i + 1), i + 1)
    ensures Ahead(t, i + 1, rest)
  {
    assert t[i..][0] == t[i];
    assert t[i + 1..] == t[i..][1..] == rest;
    if rest != [] {
      assert t[i + 1] == t[i + 1..][0] == rest[0];
    }
  }

  lemma WordToken(t: string, i: nat, w: string, rest: string)
    requires Ahead(t, i, PutWord(w, rest)) && IsWord(w) && NoSpaceAhead(rest)
    ensures i <= |t| && GetToken(t, i) == Token(Word, Span(i, i + |w|), i + |w| + 1)
    ensures SpanOk(Span(i, i + |w|), t) && SpanText(Span(i, i + |w|), t) == w
    ensures Ahead(t, i + |w| + 1, rest)
  {
    var s := PutWord(w, rest);
    assert |t[i..]| == |w| + 1 + |rest|;
    forall k | i <= k < i + |w|
      ensures t[k] == w[k - i] && IsWordChar(t[k])
    {
      assert t[k] == t[i..][k - i] == s[k - i];
    }
    assert t[i + |w|] == t[i..][|w|] == s[|w|] == ' ';
    assert t[i + |w| + 1..] == t[i..][|w| + 1..] == rest;
    assert t[i..i + |w|] == w;
    WordEndsAt(t, i, i + |w|, rest);
  }

  lemma WordEndsAt(t: string, i: nat, e: nat, rest: string)
    requires i < e < |t| && t[e] == ' ' && t[e + 1..] == rest && NoSpaceAhead(rest)
    requires forall k :: i <= k < e ==> IsWordChar(t[k])
    ensures GetToken(t, i) == Token(Word, Span(i, e), e + 1)
  {
    assert SkipSpaces(t, i) == i;
    WordEndSpans(t, i + 1);
    assert WordEnd(t, i + 1) == e;
    if rest != [] {
      assert t[e + 1] == t[e + 1..][0] == rest[0];
    }
    assert SkipSpaces(t, e) == e + 1;
  }

  // ---- the parser reads the printed text back ----

  /** The command `c` is the tree `tr`, and `rest` is left of the line at position j. */
  predicate IsTree(t: string, c: Cmd, tr: Tree, j: nat, rest: string) {
    CmdOk(c, t) && Text(c, t) == tr && Ahead(t, j, rest)
  }

  predicate Reads(r: Parsed, t: string, tr: Tree, rest: string) {
    r.Ok? && IsTree(t, r.cmd, tr, r.i, rest)
  }

  /** The two tokens of a printed redirection. */
  lemma RedirTokens(t: string, i: nat, l: Layer, rest: string)
    requires IsWord(l.file) && NoSpaceAhead(rest)
    requires Ahead(t, i, PutSymbol(Arrow(l), PutWord(l.file, rest)))
    ensures i + 1 <= |t| && Peek(t, i, "<>") == (i, true)
    ensures GetToken(t, i) == Token(Symbol(Arrow(l)), Span(i, i + 1), i + 1)
    ensures GetToken(t, i + 1) == Token(Word, Span(i + 1, i + 1 + |l.file|), i + |l.file| + 2)
    ensures SpanOk(Span(i + 1, i + 1 + |l.file|), t) && SpanText(Span(i + 1, i + 1 + |l.file|), t) == l.file
    ensures i + |l.file| + 2 <= |t| && Ahead(t, i + |l.file| + 2, rest)
  {
    var after := PutWord(l.file, rest);
    assert after[0] == l.file[0] && after[0] != '>';
    WordAhead(l.file, rest);
    PeekSymbol(t, i, Arrow(l), after, "<>");
    SymbolToken(t, i, Arrow(l), after);
    hide GetToken, Peek, PutWord, PutSymbol, IsWord;
    WordToken(t, i + 1, l.file, rest);
  }

  lemma RedirStep(t: string, i: nat, cmd: Cmd, l: Layer, rest: string)
    requires CmdOk(cmd, t) && IsWord(l.file) && NoSpaceAhead(rest)
    requires Ahead(t, i, PutSymbol(Arrow(l), PutWord(l.file, rest)))
    ensures var next := RedirCmd(cmd, Span(i + 1, i + 1 + |l.file|), l.input);
            && IsTree(t, next, RedirT(Text(cmd, t), l.file, l.input), i + |l.file| + 2, rest)
            && i + |l.file| + 2 <= |t| && ParseRedirs(t, i, cmd) == ParseRedirs(t, i + |l.file| + 2, next)
  {
    hide Peek, GetToken, PutSymbol, PutWord, IsWord, NoSpaceAhead, SpanOk, SpanText, Ahead;
    RedirTokens(t, i, l, rest);
  }

  lemma {:induction false} RedirsTrip(t: string, i: nat, cmd: Cmd, ls: seq<Layer>, rest: string)
    requires CmdOk(cmd, t) && Ahead(t, i, PutLayers(ls, rest)) && LayersOk(ls) && Follow(rest, 3)
    ensures i <= |t| && Reads(ParseRedirs(t, i, cmd), t, Wrap(Text(cmd, t), ls), rest)
    decreases |ls|
  {
    hide CmdOk, Text, IsWord, Ahead, Follow, NoSpaceAhead, Peek, GetToken;
    if ls == [] {
      PeekFollow(t, i, rest, 3);
    } else {
      hide ParseRedirs;
      FollowAhead(rest, 3);
      LayersAhead(ls[1..], rest);
      RedirStep(t, i, cmd, ls[0], PutLayers(ls[1..], rest));
      RedirsTrip(t, i + |ls[0].file| + 2, RedirCmd(cmd, Span(i + 1, i + 1 + |ls[0].file|), ls[0].input), ls[1..], rest);
    }
  }

  /** Redirections can be parsed before or after the arguments are filled in. */
  lemma {:induction false} RedirsCommute(t: string, i: nat, cmd: Cmd, argv: seq<Span>)
    requires i <= |t|
    ensures ParseRedirs(t, i, cmd).Ok? ==>
              ParseRedirs(t, i, SetArgs(cmd, argv)) ==
              Ok(SetArgs(ParseRedirs(t, i, cmd).cmd, argv), ParseRedirs(t, i, cmd).i)
    ensures ParseRedirs(t, i, cmd).Panic? <==> ParseRedirs(t, i, SetArgs(cmd, argv)).Panic?
    decreases |t| - i
  {
    var (s, redir) := Peek(t, i, "<>");
    if redir {
      var op := GetToken(t, s);
      var file := GetToken(t, op.next);
      if file.kind.Word? {
        var next := RedirCmd(cmd, file.span, op.kind == Symbol('<'));
        RedirsCommute(t, file.next, next, argv);
        assert SetArgs(next, argv) == RedirCmd(SetArgs(cmd, argv), file.span, op.kind == Symbol('<'));
      }
    }
  }

  /** After the last word: the redirections, then the end of the command. */
  lemma LastArg(t: string, j: nat, argv: seq<Span>, ls: seq<Layer>, rest: string)
    requires CmdOk(ExecCmd(argv), t) && Ahead(t, j, PutLayers(ls, rest)) && LayersOk(ls) && Follow(rest, 3)
    ensures j <= |t|
    ensures var r := ParseRedirs(t, j, ExecCmd([]));
            r.Ok? && Reads(ParseArgs(t, r.i, argv, r.cmd), t, Wrap(Text(ExecCmd(argv), t), ls), rest)
  {
    RedirsTrip(t, j, ExecCmd([]), ls, rest);
    RedirsTrip(t, j, ExecCmd(argv), ls, rest);
    RedirsCommute(t, j, ExecCmd([]), argv);
    var r := ParseRedirs(t, j, ExecCmd([]));
    PeekFollow(t, r.i, rest, 3);
    hide Peek, GetToken, ParseRedirs, Text, Ahead, Follow, LayersOk;
  }

  lemma ArgText(t: string, argv: seq<Span>, s: Span)
    requires |argv| + 1 < MAXARGS && CmdOk(ExecCmd(argv), t) && SpanOk(s, t)
    ensures CmdOk(ExecCmd(argv + [s]), t)
    ensures Text(ExecCmd(argv + [s]), t).args == Text(ExecCmd(argv), t).args + [SpanText(s, t)]
  {
    hide IsWord, SpanText;
  }

  lemma ArgStep(t: string, i: nat, argv: seq<Span>, w: string, rest: string)
    requires |argv| + 1 < MAXARGS && CmdOk(ExecCmd(argv), t)
    requires Ahead(t, i, PutWord(w, rest)) && IsWord(w) && NoSpaceAhead(rest)
    ensures var j := i + |w| + 1; var argv' := argv + [Span(i, i + |w|)];
            && i <= j <= |t| && Ahead(t, j, rest)
            && CmdOk(ExecCmd(argv'), t) && Text(ExecCmd(argv'), t).args == Text(ExecCmd(argv), t).args + [w]
            && var r := ParseRedirs(t, j, ExecCmd([]));
               ParseArgs(t, i, argv, ExecCmd([])) == if r.Panic? then Panic else ParseArgs(t, r.i, argv', r.cmd)
  {
    hide Peek, GetToken, PutWord, IsWord, NoSpaceAhead, ParseRedirs, SpanOk, SpanText, Ahead, CmdOk;
    PeekWord(t, i, w, rest);
    WordToken(t, i, w, rest);
    AheadBound(t, i + |w| + 1, rest);
    ArgText(t, argv, Span(i, i + |w|));
  }

  /** With another word ahead, no redirection is read. */
  lemma NoRedirs(t: string, j: nat, w: string, rest: string, cmd: Cmd)
    requires Ahead(t, j, PutWord(w, rest)) && IsWord(w)
    ensures j <= |t| && ParseRedirs(t, j, cmd) == Ok(cmd, j)
  {
    hide Peek, GetToken, PutWord, IsWord, Ahead;
    PeekWord(t, j, w, rest);
  }

  /** The words that are left are the arguments that are left, and the redirections come last. */
  lemma {:induction false} ArgsTrip(t: string, i: nat, argv: seq<Span>, ws: seq<string>, ls: seq<Layer>, rest: string)
    requires ws != [] && |argv| + |ws| < MAXARGS && WordsOk(ws) && LayersOk(ls) && Follow(rest, 3)
    requires CmdOk(ExecCmd(argv), t) && Ahead(t, i, PutWords(ws, PutLayers(ls, rest)))
    ensures i <= |t|
    ensures Reads(ParseArgs(t, i, argv, ExecCmd([])), t, Wrap(ExecT(Text(ExecCmd(argv), t).args + ws), ls), rest)
    decreases |ws|
  {
    hide ParseRedirs, ParseArgs, CmdOk, IsWord, NoSpaceAhead, SpanOk, PutLayers, PutWord, Peek, GetToken, Ahead, Follow;
    hide Wrap, LayersOk;
    var w := ws[0];
    var tail := PutLayers(ls, rest);
    FollowAhead(rest, 3);
    LayersAhead(ls, rest);
    WordsAhead(ws[1..], tail);
    ArgStep(t, i, argv, w, PutWords(ws[1..], tail));
    var j := i + |w| + 1;
    var argv' := argv + [Span(i, i + |w|)];
    if |ws| > 1 {
      NoRedirs(t, j, ws[1], PutWords(ws[1..][1..], tail), ExecCmd([]));
      ArgsTrip(t, j, argv', ws[1..], ls, rest);
      assert Text(ExecCmd(argv), t).args + ws == Text(ExecCmd(argv'), t).args + ws[1..];
    } else {
      LastArg(t, j, argv', ls, rest);
      assert Text(ExecCmd(argv), t).args + ws == Text(ExecCmd(argv'), t).args;
    }
  }

  lemma PutParts(tr: Tree, rest: string)
    ensures Core(tr).ExecT? ==> Put(tr, 3, rest) == PutWords(Core(tr).args, PutLayers(Layers(tr), rest))
    ensures !Core(tr).ExecT? ==>
              Put(tr, 3, rest) == PutSymbol('(', Put(Core(tr), 0, PutSymbol(')', PutLayers(Layers(tr), rest))))
    ensures tr.PipeT? ==> Put(tr, 2, rest) == Put(tr.left, 3, PutSymbol('|', Put(tr.right, 2, rest)))
    ensures !tr.PipeT? ==> Put(tr, 2, rest) == Put(tr, 3, rest)
  {
  }

  lemma PutLine(tr: Tree, rest: string)
    ensures tr.ListT? ==> Put(tr, 0, rest) == Put(tr.left, 1, PutSymbol(';', Put(tr.right, 0, rest)))
    ensures !tr.ListT? ==> Put(tr, 0, rest) == Put(tr, 1, rest)
  {
  }

  lemma FollowMore(s: string, level: nat, more: nat)
    requires Follow(s, level) && level <= more
    ensures Follow(s, more)
  {
  }

  /** A simple command with its redirections. */
  lemma SimpleTrip(tr: Tree, t: string, i: nat, rest: string)
    requires WellFormed(tr) && Core(tr).ExecT? && Ahead(t, i, Put(tr, 3, rest)) && Follow(rest, 3)
    ensures i <= |t| && Reads(ParseExec(t, i), t, tr, rest)
  {
    assert CmdOk(ExecCmd([]), t) && Text(ExecCmd([]), t) == ExecT([]);
    hide Put, ParseRedirs, ParseArgs, Peek, GetToken, Ahead, Follow, Wrap, LayersOk, Text, CmdOk, IsWord;
    hide Core, Layers, PutWord, PutLayers;
    var args := Core(tr).args;
    var ls := Layers(tr);
    PartsOk(tr);
    CoreAndLayers(tr);
    PutParts(tr, rest);
    NoBlock(t, i, args, ls, rest);
    if args == [] {
      LastArg(t, i, [], ls, rest);
    } else {
      NoRedirs(t, i, args[0], PutWords(args[1..], PutLayers(ls, rest)), ExecCmd([]));
      ArgsTrip(t, i, [], args, ls, rest);
      assert Text(ExecCmd([]), t).args + args == args;
    }
  }

  /** A printed simple command does not start with a parenthesis. */
  lemma NoBlock(t: string, i: nat, ws: seq<string>, ls: seq<Layer>, rest: string)
    requires WordsOk(ws) && Ahead(t, i, PutWords(ws, PutLayers(ls, rest))) && Follow(rest, 3)
    ensures i <= |t| && Peek(t, i, "(") == (i, false)
  {
    if ws != [] {
      hide Peek, Ahead, PutWord;
      PeekWord(t, i, ws[0], PutWords(ws[1..], PutLayers(ls, rest)));
    } else if ls != [] {
      hide Peek, Ahead, PutWord, PutSymbol;
      PeekSymbol(t, i, Arrow(ls[0]), PutWord(ls[0].file, PutLayers(ls[1..], rest)), "(");
    } else {
      hide Peek, Ahead;
      PeekFollow(t, i, rest, 3);
    }
  }

  /** parseexec reads back what is printed for it. */
  lemma {:induction false} ExecTrip(tr: Tree, t: string, i: nat, rest: string)
    requires WellFormed(tr) && Ahead(t, i, Put(tr, 3, rest)) && Follow(rest, 3)
    ensures i <= |t| && Reads(ParseExec(t, i), t, tr, rest)
    decreases tr, if 3 <= Level(tr) then 0 else 7
  {
    hide Put, Peek, GetToken, Ahead, Follow, Wrap, LayersOk, Text, CmdOk, IsWord, PutSymbol, NoSpaceAhead;
    hide ParseRedirs, ParseLine, ParseArgs, PutLayers, Layers, WellFormed;
    var core := Core(tr);
    if core.ExecT? {
      hide ParseExec, Core;
      SimpleTrip(tr, t, i, rest);
    } else {
      hide Core;
      var tail := PutLayers(Layers(tr), rest);
      var close := PutSymbol(')', tail);
      var inner := Put(core, 0, close);
      PutParts(tr, rest);
      PartsOk(tr);
      CoreAndLayers(tr);
      FollowSymbol(')', tail, 0);
      FollowAhead(rest, 3);
      LayersAhead(Layers(tr), rest);
      PutAhead(core, 0, close);
      PeekSymbol(t, i, '(', inner, "(");
      SymbolToken(t, i, '(', inner);
      LineTrip(core, t, i + 1, close);
      var line := ParseLine(t, i + 1);
      PeekSymbol(t, line.i, ')', tail, ")");
      SymbolToken(t, line.i, ')', tail);
      RedirsTrip(t, line.i + 1, line.cmd, Layers(tr), rest);
    }
  }

  /** parsepipe reads back what is printed for it. */
  lemma {:induction false} PipeTrip(tr: Tree, t: string, i: nat, rest: string)
    requires WellFormed(tr) && Ahead(t, i, Put(tr, 2, rest)) && Follow(rest, 2)
    ensures i <= |t| && Reads(ParsePipe(t, i), t, tr, rest)
    decreases tr, if 2 <= Level(tr) then Level(tr) - 2 else 8
  {
    hide Put, Peek, GetToken, Ahead, Follow, PutSymbol, NoSpaceAhead, ParseExec, CmdOk, Text;
    PutParts(tr, rest);
    if tr.PipeT? {
      var right := Put(tr.right, 2, rest);
      FollowSymbol('|', right, 3);
      FollowAhead(rest, 2);
      PutAhead(tr.right, 2, rest);
      ExecTrip(tr.left, t, i, PutSymbol('|', right));
      var l := ParseExec(t, i);
      PeekSymbol(t, l.i, '|', right, "|");
      SymbolToken(t, l.i, '|', right);
      PipeTrip(tr.right, t, l.i + 1, rest);
      PipeNode(t, l.cmd, tr.left, ParsePipe(t, l.i + 1).cmd, tr.right);
    } else {
      FollowMore(rest, 2, 3);
      ExecTrip(tr, t, i, rest);
      PeekFollow(t, ParseExec(t, i).i, rest, 2);
    }
  }

  lemma PipeNode(t: string, l: Cmd, tl: Tree, r: Cmd, tr: Tree)
    requires CmdOk(l, t) && CmdOk(r, t) && Text(l, t) == tl && Text(r, t) == tr
    ensures CmdOk(PipeCmd(l, r), t) && Text(PipeCmd(l, r), t) == PipeT(tl, tr)
    ensures CmdOk(ListCmd(l, r), t) && Text(ListCmd(l, r), t) == ListT(tl, tr)
    ensures CmdOk(BackCmd(l), t) && Text(BackCmd(l), t) == BackT(tl)
  {
  }

  /** The "&" loop, started after parsepipe, reaches the whole printed command. */
  lemma {:induction false} BackTrip(tr: Tree, t: string, i: nat, rest: string) returns (j: nat, c: Cmd)
    requires WellFormed(tr) && Ahead(t, i, Put(tr, 1, rest)) && Follow(rest, 2)
    ensures i <= |t| && j <= |t| && IsTree(t, c, tr, j, rest)
    ensures ParsePipe(t, i).Ok? && ParseBacks(t, ParsePipe(t, i).i, ParsePipe(t, i).cmd) == ParseBacks(t, j, c)
    decreases tr, if 1 <= Level(tr) then Level(tr) - 1 else 9
  {
    FollowAhead(rest, 2);
    if tr.BackT? {
      FollowSymbol('&', rest, 2);
      hide Put, Peek, GetToken, Ahead, Follow, ParsePipe, CmdOk, Text, PutSymbol, NoSpaceAhead;
      j, c := BackTrip(tr.cmd, t, i, PutSymbol('&', rest));
      PeekSymbol(t, j, '&', rest, "&");
      SymbolToken(t, j, '&', rest);
      PipeNode(t, c, tr.cmd, c, tr.cmd);
      j, c := j + 1, BackCmd(c);
      AheadBound(t, j, rest);
    } else {
      hide Put, Peek, GetToken, Ahead, Follow, ParsePipe, ParseBacks;
      PipeTrip(tr, t, i, rest);
      j, c := ParsePipe(t, i).i, ParsePipe(t, i).cmd;
    }
  }

  lemma AheadBound(t: string, j: nat, rest: string)
    requires Ahead(t, j, rest)
    ensures j <= |t|
  {
  }

  /** parseline reads back what is printed for it. */
  lemma {:induction false} LineTrip(tr: Tree, t: string, i: nat, rest: string)
    requires WellFormed(tr) && Ahead(t, i, Put(tr, 0, rest)) && Follow(rest, 0)
    ensures i <= |t| && Reads(ParseLine(t, i), t, tr, rest)
    decreases tr, Level(tr)
  {
    hide Put, Peek, GetToken, Ahead, Follow, ParsePipe, CmdOk, Text, PutSymbol, NoSpaceAhead;
    PutLine(tr, rest);
    FollowAhead(rest, 0);
    if tr.ListT? {
      var right := Put(tr.right, 0, rest);
      FollowSymbol(';', right, 1);
      FollowSymbol(';', right, 2);
      PutAhead(tr.right, 0, rest);
      var j, c := BackTrip(tr.left, t, i, PutSymbol(';', right));
      PeekFollow(t, j, PutSymbol(';', right), 1);
      PeekSymbol(t, j, ';', right, ";");
      SymbolToken(t, j, ';', right);
      LineTrip(tr.right, t, j + 1, rest);
      PipeNode(t, c, tr.left, ParseLine(t, j + 1).cmd, tr.right);
    } else {
      FollowMore(rest, 0, 2);
      var j, c := BackTrip(tr, t, i, rest);
      PeekFollow(t, j, rest, 0);
    }
  }

  /** Every well-formed tree is what the shell parses from its printed line, all of which is used. */
  lemma RoundTrip(tr: Tree)
    requires WellFormed(tr)
    ensures var line := Print(tr); var r := ParseCmd(line);
            r.Ok? && r.i == |line| && CmdOk(r.cmd, line) && Text(r.cmd, line) == tr
  {
    var line := Print(tr);
    assert line[0..] == line;
    LineTrip(tr, line, 0, "");
    var p := ParseLine(line, 0);
    assert |line[p.i..]| == 0;
  }

  /** The trees the shell can build are exactly the well-formed ones. */
  lemma BuildableIffWellFormed(tr: Tree)
    ensures WellFormed(tr) <==> exists line :: Builds(line, tr)
  {
    if WellFormed(tr) {
      RoundTrip(tr);
      assert Builds(Print(tr), tr);
    }
    forall line | Builds(line, tr)
      ensures WellFormed(tr)
    {
      TextWellFormed(ParseCmd(line).cmd, line);
    }
  }

  predicate Builds(line: string, tr: Tree) {
    var r := ParseCmd(line);
    r.Ok? && CmdOk(r.cmd, line) && Text(r.cmd, line) == tr
  }

  /** Whatever line was accepted, printing its tree gives a line with the same meaning. */
  lemma Normalizes(line: string)
    requires ParseCmd(line).Ok?
    ensures exists tr :: Builds(line, tr) && Builds(Print(tr), tr)
  {
    LineOk(line, 0);
    var tr := Text(ParseCmd(line).cmd, line);
    TextWellFormed(ParseCmd(line).cmd, line);
    RoundTrip(tr);
    assert Builds(line, tr) && Builds(Print(tr), tr);
  }
}

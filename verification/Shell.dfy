/**
 The tokenizer and the recursive-descent parser of xv6/sh.c.

 The command line is a string without NUL; the C code reads a NUL at its end. A
 token is a span of positions, as the C code keeps pointers into the buffer.
 */
module ShellTokens {

  predicate IsSpace(c: char) {
    c == ' ' || c == '\t' || c == '\r' || c == '\n' || c == '\U{0B}'
  }

  predicate IsSymbol(c: char) {
    c == '<' || c == '|' || c == '>' || c == '&' || c == ';' || c == '(' || c == ')'
  }

  predicate IsWordChar(c: char) {
    !IsSpace(c) && !IsSymbol(c)
  }

  /** The token kinds: end of input, one of the symbols, ">>", or a word ('a' in the source). */
  datatype Kind = End | Symbol(c: char) | Append | Word

  datatype Span = Span(q: nat, eq: nat)
  datatype Token = Token(kind: Kind, span: Span, next: nat)

  function SkipSpaces(t: string, i: nat): (j: nat)
    requires i <= |t|
    ensures i <= j <= |t| && (j < |t| ==> !IsSpace(t[j]))
    decreases |t| - i
  {
    if i < |t| && IsSpace(t[i]) then SkipSpaces(t, i + 1) else i
  }

  function WordEnd(t: string, i: nat): (j: nat)
    requires i <= |t|
    ensures i <= j <= |t| && (j < |t| ==> !IsWordChar(t[j]))
    decreases |t| - i
  {
    if i < |t| && IsWordChar(t[i]) then WordEnd(t, i + 1) else i
  }

  /** gettoken */
  function GetToken(t: string, i: nat): (r: Token)
    requires i <= |t|
    ensures i <= r.span.q <= r.span.eq <= r.next <= |t|
    ensures r.kind.End? <==> r.span.q == |t|
    ensures !r.kind.End? ==> r.span.q < r.span.eq
  {
    var s := SkipSpaces(t, i);
    if s == |t| then Token(End, Span(s, s), s)
    else if t[s] == '>' && s + 1 < |t| && t[s + 1] == '>' then Token(Append, Span(s, s + 2), SkipSpaces(t, s + 2))
    else if IsSymbol(t[s]) then Token(Symbol(t[s]), Span(s, s + 1), SkipSpaces(t, s + 1))
    else
      var e := WordEnd(t, s + 1);
      Token(Word, Span(s, e), SkipSpaces(t, e))
  }

  /** peek: the position after spaces, and whether one of `toks` is there. */
  function Peek(t: string, i: nat, toks: string): (r: (nat, bool))
    requires i <= |t|
    ensures i <= r.0 <= |t| && (r.1 ==> r.0 < |t| && t[r.0] in toks)
  {
    var s := SkipSpaces(t, i);
    (s, s < |t| && t[s] in toks)
  }

  /** The span is a whole word of the line: it cannot be made longer on either side of its end. */
  predicate SpanOk(s: Span, t: string) {
    s.q < s.eq <= |t| && (forall k :: s.q <= k < s.eq ==> IsWordChar(t[k])) &&
    (s.eq < |t| ==> !IsWordChar(t[s.eq]))
  }

  lemma {:induction false} WordEndSpans(t: string, i: nat)
    requires i <= |t|
    ensures forall k :: i <= k < WordEnd(t, i) ==> IsWordChar(t[k])
    decreases |t| - i
  {
    if i < |t| && IsWordChar(t[i]) {
      WordEndSpans(t, i + 1);
    }
  }

  lemma WordSpan(t: string, i: nat)
    requires i <= |t|
    ensures GetToken(t, i).kind.Word? ==> SpanOk(GetToken(t, i).span, t)
  {
    var s := SkipSpaces(t, i);
    if s < |t| {
      WordEndSpans(t, s + 1);
    }
  }

  /** The loop over white space, which gettoken has twice and peek once. */
  method SkipLoop(t: string, i: nat) returns (s: nat)
    requires i <= |t|
    ensures s == SkipSpaces(t, i)
  {
    s := i;
    while s < |t| && IsSpace(t[s])
      invariant i <= s <= |t| && SkipSpaces(t, s) == SkipSpaces(t, i)
      decreases |t| - s
    {
      s := s + 1;
    }
  }

  /** The loop over a word in gettoken. */
  method WordLoop(t: string, i: nat) returns (s: nat)
    requires i <= |t|
    ensures s == WordEnd(t, i)
  {
    s := i;
    while s < |t| && !IsSpace(t[s]) && !IsSymbol(t[s])
      invariant i <= s <= |t| && WordEnd(t, s) == WordEnd(t, i)
      decreases |t| - s
    {
      s := s + 1;
    }
  }

  /** gettoken */
  method NextToken(t: string, i: nat) returns (r: Token)
    requires i <= |t|
    ensures r == GetToken(t, i)
  {
    var s := SkipLoop(t, i);
    var q := s;
    var kind;
    if s == |t| {
      kind := End;
    } else if t[s] == '|' || t[s] == '(' || t[s] == ')' || t[s] == ';' || t[s] == '&' || t[s] == '<' {
      kind := Symbol(t[s]);
      s := s + 1;
    } else if t[s] == '>' {
      kind := Symbol('>');
      s := s + 1;
      if s < |t| && t[s] == '>' {
        kind := Append;
        s := s + 1;
      }
    } else {
      kind := Word;
      s := WordLoop(t, s);
    }
    var next := SkipLoop(t, s);
    r := Token(kind, Span(q, s), next);
  }

  /** peek */
  method LookAhead(t: string, i: nat, toks: string) returns (j: nat, found: bool)
    requires i <= |t|
    ensures (j, found) == Peek(t, i, toks)
  {
    j := SkipLoop(t, i);
    found := j < |t| && t[j] in toks;
  }
}

module ShellParser {
  import opened ShellTokens

  const MAXARGS: nat := 10

  /** Commands with spans of the buffer for words. `input` tells "<" from ">" (and ">>", which is the same). */
  datatype Cmd =
    | ExecCmd(argv: seq<Span>)
    | RedirCmd(cmd: Cmd, file: Span, input: bool)
    | PipeCmd(left: Cmd, right: Cmd)
    | ListCmd(left: Cmd, right: Cmd)
    | BackCmd(cmd: Cmd)

  /** panic() ends the shell. */
  datatype Parsed = Panic | Ok(cmd: Cmd, i: nat)

  /** parseredirs */
  function ParseRedirs(t: string, i: nat, cmd: Cmd): (r: Parsed)
    requires i <= |t|
    ensures r.Ok? ==> i <= r.i <= |t|
    decreases |t| - i
  {
    var (s, redir) := Peek(t, i, "<>");
    if !redir then Ok(cmd, s)
    else
      var op := GetToken(t, s);
      var file := GetToken(t, op.next);
      if !file.kind.Word? then Panic
      else ParseRedirs(t, file.next, RedirCmd(cmd, file.span, op.kind == Symbol('<')))
  }

  /** Replace the arguments of the simple command inside the redirections. */
  function SetArgs(cmd: Cmd, argv: seq<Span>): Cmd {
    match cmd
    case RedirCmd(c, file, input) => RedirCmd(SetArgs(c, argv), file, input)
    case _ => ExecCmd(argv)
  }

  /** The loop of parseexec; `cmd` is what has been built, around the simple command with `argv`. */
  function ParseArgs(t: string, i: nat, argv: seq<Span>, cmd: Cmd): (r: Parsed)
    requires i <= |t|
    ensures r.Ok? ==> i <= r.i <= |t|
    decreases |t| - i
  {
    var (s, stop) := Peek(t, i, "|)&;");
    if stop then Ok(SetArgs(cmd, argv), s)
    else
      var tok := GetToken(t, s);
      if tok.kind.End? then Ok(SetArgs(cmd, argv), tok.next)
      else if !tok.kind.Word? || |argv| + 1 >= MAXARGS then Panic
      else
        var r := ParseRedirs(t, tok.next, cmd);
        if r.Panic? then Panic else ParseArgs(t, r.i, argv + [tok.span], r.cmd)
  }

  /** parseexec */
  function ParseExec(t: string, i: nat): (r: Parsed)
    requires i <= |t|
    ensures r.Ok? ==> i <= r.i <= |t|
    decreases |t| - i, 3
  {
    var (s, block) := Peek(t, i, "(");
    if block then ParseBlock(t, s)
    else
      var r := ParseRedirs(t, s, ExecCmd([]));
      if r.Panic? then Panic else ParseArgs(t, r.i, [], r.cmd)
  }

  /** parseblock */
  function ParseBlock(t: string, i: nat): (r: Parsed)
    requires i <= |t|
    ensures r.Ok? ==> i <= r.i <= |t|
    decreases |t| - i, 2
  {
    var (s, open) := Peek(t, i, "(");
    if !open then Panic
    else
      var line := ParseLine(t, GetToken(t, s).next);
      if line.Panic? then Panic
      else
        var (e, close) := Peek(t, line.i, ")");
        if !close then Panic else ParseRedirs(t, GetToken(t, e).next, line.cmd)
  }

  /** parsepipe */
  function ParsePipe(t: string, i: nat): (r: Parsed)
    requires i <= |t|
    ensures r.Ok? ==> i <= r.i <= |t|
    decreases |t| - i, 4
  {
    var l := ParseExec(t, i);
    if l.Panic? then Panic
    else
      var (s, bar) := Peek(t, l.i, "|");
      if !bar then Ok(l.cmd, s)
      else
        var r := ParsePipe(t, GetToken(t, s).next);
        if r.Panic? then Panic else Ok(PipeCmd(l.cmd, r.cmd), r.i)
  }

  /** The "&" loop of parseline. */
  function ParseBacks(t: string, i: nat, cmd: Cmd): (r: (Cmd, nat))
    requires i <= |t|
    ensures i <= r.1 <= |t|
    decreases |t| - i
  {
    var (s, amp) := Peek(t, i, "&");
    if !amp then (cmd, s) else ParseBacks(t, GetToken(t, s).next, BackCmd(cmd))
  }

  /** parseline */
  function ParseLine(t: string, i: nat): (r: Parsed)
    requires i <= |t|
    ensures r.Ok? ==> i <= r.i <= |t|
    decreases |t| - i, 5
  {
    var p := ParsePipe(t, i);
    if p.Panic? then Panic
    else
      var (cmd, j) := ParseBacks(t, p.i, p.cmd);
      var (s, semi) := Peek(t, j, ";");
      if !semi then Ok(cmd, s)
      else
        var r := ParseLine(t, GetToken(t, s).next);
        if r.Panic? then Panic else Ok(ListCmd(cmd, r.cmd), r.i)
  }

  /** parsecmd: the whole line has to be used up. */
  function ParseCmd(t: string): (r: Parsed) {
    var p := ParseLine(t, 0);
    if p.Panic? then Panic
    else
      var (s, _) := Peek(t, p.i, "");
      if s != |t| then Panic else Ok(p.cmd, s)
  }
}

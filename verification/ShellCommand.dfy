/**
 The parser of xv6/sh.c as it moves through the line, and the NUL-termination of
 the words in the line's buffer.
 */
module ShellCommand {
  import opened ShellTokens
  import opened ShellParser
  import opened ShellTrees
  import opened ShellLanguage
  import G = ShellGrammar

  /** parseredirs */
  method ReadRedirs(t: string, i: nat, cmd: Cmd) returns (r: Parsed)
    requires i <= |t|
    ensures r == ParseRedirs(t, i, cmd)
  {
    hide GetToken;
    var ret := cmd;
    var s, redir := LookAhead(t, i, "<>");
    ghost var at := i;
    while redir
      invariant at <= |t| && (s, redir) == Peek(t, at, "<>")
      invariant ParseRedirs(t, i, cmd) == ParseRedirs(t, at, ret)
      decreases |t| - at
    {
      var op := NextToken(t, s);
      var file := NextToken(t, op.next);
      if !file.kind.Word? {
        return Panic;
      }
      ret := RedirCmd(ret, file.span, op.kind == Symbol('<'));
      at := file.next;
      s, redir := LookAhead(t, file.next, "<>");
    }
    r := Ok(ret, s);
  }

  /** parseexec; the words go into the simple command, which redirections wrap. */
  method ReadExec(t: string, i: nat) returns (r: Parsed)
    requires i <= |t|
    ensures r == ParseExec(t, i)
    decreases |t| - i, 3
  {
    hide GetToken, ParseRedirs;
    var s, block := LookAhead(t, i, "(");
    if block {
      r := ReadBlock(t, s);
      return;
    }
    var ret := ReadRedirs(t, s, ExecCmd([]));
    if ret.Panic? {
      return Panic;
    }
    var argv: seq<Span> := [];
    var stop;
    s, stop := LookAhead(t, ret.i, "|)&;");
    while !stop
      invariant ret.Ok? && ret.i <= |t| && (s, stop) == Peek(t, ret.i, "|)&;")
      invariant ParseExec(t, i) == ParseArgs(t, ret.i, argv, ret.cmd)
      decreases |t| - ret.i
    {
      var tok := NextToken(t, s);
      if tok.kind.End? {
        return Ok(SetArgs(ret.cmd, argv), tok.next);
      }
      if !tok.kind.Word? {
        return Panic;
      }
      if |argv| + 1 >= MAXARGS {
        return Panic;
      }
      ret := ReadRedirs(t, tok.next, ret.cmd);
      if ret.Panic? {
        return Panic;
      }
      argv := argv + [tok.span];
      s, stop := LookAhead(t, ret.i, "|)&;");
    }
    r := Ok(SetArgs(ret.cmd, argv), s);
  }

  /** parseblock */
  method ReadBlock(t: string, i: nat) returns (r: Parsed)
    requires i <= |t|
    ensures r == ParseBlock(t, i)
    decreases |t| - i, 2
  {
    hide ParseRedirs;
    var s, open := LookAhead(t, i, "(");
    if !open {
      return Panic;
    }
    var tok := NextToken(t, s);
    var line := ReadLine(t, tok.next);
    if line.Panic? {
      return Panic;
    }
    var e, close := LookAhead(t, line.i, ")");
    if !close {
      return Panic;
    }
    tok := NextToken(t, e);
    r := ReadRedirs(t, tok.next, line.cmd);
  }

  /** parsepipe */
  method ReadPipe(t: string, i: nat) returns (r: Parsed)
    requires i <= |t|
    ensures r == ParsePipe(t, i)
    decreases |t| - i, 4
  {
    hide ParseExec;
    var l := ReadExec(t, i);
    if l.Panic? {
      return Panic;
    }
    var s, bar := LookAhead(t, l.i, "|");
    if !bar {
      return Ok(l.cmd, s);
    }
    var tok := NextToken(t, s);
    var right := ReadPipe(t, tok.next);
    if right.Panic? {
      return Panic;
    }
    r := Ok(PipeCmd(l.cmd, right.cmd), right.i);
  }

  /** parseline */
  method ReadLine(t: string, i: nat) returns (r: Parsed)
    requires i <= |t|
    ensures r == ParseLine(t, i)
    decreases |t| - i, 5
  {
    hide ParsePipe;
    var p := ReadPipe(t, i);
    if p.Panic? {
      return Panic;
    }
    var cmd, at := p.cmd, p.i;
    var s, amp := LookAhead(t, at, "&");
    while amp
      invariant at <= |t| && i <= at && (s, amp) == Peek(t, at, "&")
      invariant ParseBacks(t, p.i, p.cmd) == ParseBacks(t, at, cmd)
      decreases |t| - at
    {
      var tok := NextToken(t, s);
      at := tok.next;
      cmd := BackCmd(cmd);
      s, amp := LookAhead(t, at, "&");
    }
    var semi;
    s, semi := LookAhead(t, s, ";");
    if !semi {
      return Ok(cmd, s);
    }
    var tok := NextToken(t, s);
    var right := ReadLine(t, tok.next);
    if right.Panic? {
      return Panic;
    }
    r := Ok(ListCmd(cmd, right.cmd), right.i);
  }

  // ---- words become C strings in place ----

  const NUL: char := '\0'

  /** The words of a command, and where they end. */
  function Spans(c: Cmd): set<Span> {
    match c
    case ExecCmd(argv) => set s | s in argv
    case RedirCmd(d, file, _) => Spans(d) + {file}
    case PipeCmd(l, r) => Spans(l) + Spans(r)
    case ListCmd(l, r) => Spans(l) + Spans(r)
    case BackCmd(d) => Spans(d)
  }

  ghost predicate IsEnd(c: Cmd, k: nat) {
    exists s :: s in Spans(c) && s.eq == k
  }

  lemma {:induction false} SpansOk(c: Cmd, t: string, s: Span)
    requires CmdOk(c, t) && s in Spans(c)
    ensures SpanOk(s, t)
  {
    match c
    case ExecCmd(argv) =>
    case RedirCmd(d, file, _) => if s in Spans(d) { SpansOk(d, t, s); }
    case PipeCmd(l, r) => if s in Spans(l) { SpansOk(l, t, s); } else { SpansOk(r, t, s); }
    case ListCmd(l, r) => if s in Spans(l) { SpansOk(l, t, s); } else { SpansOk(r, t, s); }
    case BackCmd(d) => SpansOk(d, t, s);
  }

  /** The bytes up to the first NUL. */
  function CString(b: seq<char>, q: nat): string
    requires q <= |b|
    decreases |b| - q
  {
    if q == |b| || b[q] == NUL then [] else [b[q]] + CString(b, q + 1)
  }

  lemma {:induction false} CStringIs(b: seq<char>, q: nat, e: nat)
    requires q <= e < |b| && b[e] == NUL
    requires forall k :: q <= k < e ==> b[k] != NUL
    ensures CString(b, q) == b[q..e]
    decreases e - q
  {
    if q < e {
      CStringIs(b, q + 1, e);
      assert b[q..e] == [b[q]] + b[q + 1..e];
    }
  }

  /** The line's buffer with every word's end overwritten. */
  ghost predicate Terminated(c: Cmd, was: seq<char>, now: seq<char>) {
    |was| == |now| && forall k: nat :: k < |was| ==> now[k] == if IsEnd(c, k) then NUL else was[k]
  }

  /** After NUL-termination every word of the command reads back as that word. */
  lemma WordsReadBack(c: Cmd, t: string, now: seq<char>, s: Span)
    requires CmdOk(c, t) && NUL !in t && Terminated(c, t + [NUL], now) && s in Spans(c)
    ensures s.q <= s.eq <= |t| && CString(now, s.q) == SpanText(s, t)
  {
    SpansOk(c, t, s);
    assert IsEnd(c, s.eq);
    forall k | s.q <= k < s.eq
      ensures now[k] == t[k] && now[k] != NUL
    {
      if IsEnd(c, k) {
        var o :| o in Spans(c) && o.eq == k;
        SpansOk(c, t, o);
        assert false;
      }
      assert t[k] in t;
    }
    CStringIs(now, s.q, s.eq);
    assert now[s.q..s.eq] == t[s.q..s.eq];
  }

  lemma TerminatedTwice(l: Cmd, r: Cmd, both: Cmd, was: seq<char>, mid: seq<char>, now: seq<char>)
    requires Terminated(l, was, mid) && Terminated(r, mid, now)
    requires Spans(both) == Spans(l) + Spans(r)
    ensures Terminated(both, was, now)
  {
    forall k: nat | k < |was|
      ensures IsEnd(both, k) <==> IsEnd(l, k) || IsEnd(r, k)
    {
      if IsEnd(l, k) {
        var s :| s in Spans(l) && s.eq == k;
        assert s in Spans(both);
      }
      if IsEnd(r, k) {
        var s :| s in Spans(r) && s.eq == k;
        assert s in Spans(both);
      }
    }
  }

  lemma SameSpans(c: Cmd, d: Cmd, was: seq<char>, now: seq<char>)
    requires Terminated(c, was, now) && Spans(c) == Spans(d)
    ensures Terminated(d, was, now)
  {
    assert forall k: nat :: IsEnd(c, k) <==> IsEnd(d, k);
  }

  lemma TerminatedMore(argv: seq<Span>, n: nat, was: seq<char>, mid: seq<char>, now: seq<char>)
    requires n < |argv| && Terminated(ExecCmd(argv[..n]), was, mid)
    requires argv[n].eq < |mid| && now == mid[argv[n].eq := NUL]
    ensures Terminated(ExecCmd(argv[..n + 1]), was, now)
  {
    var l, r := ExecCmd(argv[..n]), ExecCmd([argv[n]]);
    assert argv[..n + 1] == argv[..n] + [argv[n]];
    assert argv[n] in Spans(r);
    forall k: nat
      ensures IsEnd(r, k) <==> k == argv[n].eq
    {
    }
    assert Terminated(r, mid, now);
    TerminatedTwice(l, r, ExecCmd(argv[..n + 1]), was, mid, now);
  }

  /** nulterminate */
  method NulTerminate(c: Cmd, ghost t: string, buf: array<char>)
    requires CmdOk(c, t) && buf.Length == |t| + 1
    modifies buf
    ensures Terminated(c, old(buf[..]), buf[..])
    decreases c
  {
    hide CmdOk, Spans, Terminated;
    match c
    case ExecCmd(argv) =>
      NulTerminateArgs(argv, t, buf);
    case RedirCmd(d, file, _) =>
      assert CmdOk(d, t) && SpanOk(file, t) by { RedirParts(c, t); }
      NulTerminate(d, t, buf);
      ghost var mid := buf[..];
      buf[file.eq] := NUL;
      RedirEnds(c, old(buf[..]), mid, buf[..]);
    case PipeCmd(l, r) =>
      BothParts(c, t);
      NulTerminate(l, t, buf);
      ghost var mid := buf[..];
      NulTerminate(r, t, buf);
      TerminatedTwice(l, r, c, old(buf[..]), mid, buf[..]);
    case ListCmd(l, r) =>
      BothParts(c, t);
      NulTerminate(l, t, buf);
      ghost var mid := buf[..];
      NulTerminate(r, t, buf);
      TerminatedTwice(l, r, c, old(buf[..]), mid, buf[..]);
    case BackCmd(d) =>
      BackParts(c, t);
      NulTerminate(d, t, buf);
      SameSpans(d, c, old(buf[..]), buf[..]);
  }

  lemma RedirParts(c: Cmd, t: string)
    requires c.RedirCmd? && CmdOk(c, t)
    ensures CmdOk(c.cmd, t) && SpanOk(c.file, t)
  {
  }

  lemma BothParts(c: Cmd, t: string)
    requires (c.PipeCmd? || c.ListCmd?) && CmdOk(c, t)
    ensures CmdOk(c.left, t) && CmdOk(c.right, t) && Spans(c) == Spans(c.left) + Spans(c.right)
  {
  }

  lemma BackParts(c: Cmd, t: string)
    requires c.BackCmd? && CmdOk(c, t)
    ensures CmdOk(c.cmd, t) && Spans(c) == Spans(c.cmd)
  {
  }

  lemma RedirEnds(c: Cmd, was: seq<char>, mid: seq<char>, now: seq<char>)
    requires c.RedirCmd? && Terminated(c.cmd, was, mid)
    requires c.file.eq < |mid| && now == mid[c.file.eq := NUL]
    ensures Terminated(c, was, now)
  {
    var r := ExecCmd([c.file]);
    assert Spans(r) == {c.file};
    assert Terminated(r, mid, now) by {
      forall k: nat
        ensures IsEnd(r, k) <==> k == c.file.eq
      {
        assert c.file in Spans(r);
      }
    }
    TerminatedTwice(c.cmd, r, c, was, mid, now);
  }

  /** The loop over eargv in nulterminate. */
  method NulTerminateArgs(argv: seq<Span>, ghost t: string, buf: array<char>)
    requires CmdOk(ExecCmd(argv), t) && buf.Length == |t| + 1
    modifies buf
    ensures Terminated(ExecCmd(argv), old(buf[..]), buf[..])
  {
    ghost var was := buf[..];
    var i := 0;
    assert argv[..0] == [];
    while i < |argv|
      invariant 0 <= i <= |argv|
      invariant Terminated(ExecCmd(argv[..i]), was, buf[..])
    {
      ghost var mid := buf[..];
      assert SpanOk(argv[i], t);
      buf[argv[i].eq] := NUL;
      TerminatedMore(argv, i, was, mid, buf[..]);
      i := i + 1;
    }
    assert argv[..|argv|] == argv;
  }

  /** parsecmd: parse the line in the buffer and make its words C strings. */
  method ReadCommand(buf: array<char>, n: nat) returns (r: Parsed)
    requires n + 1 == buf.Length && buf[n] == NUL && NUL !in buf[..n]
    modifies buf
    ensures r == ParseCmd(old(buf[..n]))
    ensures r.Panic? ==> buf[..] == old(buf[..]) && forall tr :: !G.IsLine(G.Lexemes(old(buf[..n])), tr)
    ensures r.Ok? ==> CmdOk(r.cmd, old(buf[..n]))
    ensures r.Ok? ==> forall tr :: G.IsLine(G.Lexemes(old(buf[..n])), tr) <==> tr == Text(r.cmd, old(buf[..n]))
    ensures r.Ok? ==> CmdOk(r.cmd, old(buf[..n])) && Terminated(r.cmd, old(buf[..]), buf[..])
    ensures r.Ok? ==> forall s :: s in Spans(r.cmd) ==>
              s.q <= s.eq <= n && CString(buf[..], s.q) == SpanText(s, old(buf[..n]))
  {
    hide ParseLine, CmdOk, Terminated, CString, SpanText, Spans, Text, G.IsLine, G.Lexemes;
    var t := buf[..n];
    forall tr
      ensures G.IsLine(G.Lexemes(t), tr) <==>
              ParseCmd(t).Ok? && CmdOk(ParseCmd(t).cmd, t) && Text(ParseCmd(t).cmd, t) == tr
    {
      AcceptsIffStands(t, tr);
    }
    assert buf[..] == t + [NUL];
    var p := ReadLine(t, 0);
    if p.Panic? {
      return Panic;
    }
    var s, found := LookAhead(t, p.i, "");
    if s != |t| {
      return Panic;
    }
    r := Ok(p.cmd, s);
    LineOk(t, 0);
    NulTerminate(r.cmd, t, buf);
    forall w | w in Spans(r.cmd)
      ensures w.q <= w.eq <= n && CString(buf[..], w.q) == SpanText(w, t)
    {
      SpansOk(r.cmd, t, w);
      WordsReadBack(r.cmd, t, buf[..], w);
    }
  }
}

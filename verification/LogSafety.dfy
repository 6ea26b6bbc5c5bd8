/**
 Crash safety, atomicity and log-space accounting of xv6/log.c, for every run of
 the step system in LogModel.
 */
module LogSafety {
  import opened Sequences
  import opened LogModel

  // ---- how single block writes change the meaning of a disk

  lemma EncodeDecode(old_: Block, lh: seq<nat>)
    requires |lh| < WORDS
    ensures EncodeHeader(old_, lh)[0] == |lh|
    ensures DecodeHeader(EncodeHeader(old_, lh)) == lh
  {
  }

  lemma WriteLogBlock(l: Layout, d: Disk, t: nat, x: Block)
    requires DiskOk(l, d) && 1 <= t < l.size
    ensures DiskOk(l, d[l.start + t := x])
    ensures Header(l, d[l.start + t := x]) == Header(l, d)
    ensures Home(l, d[l.start + t := x]) == Home(l, d)
  {
    HeaderOkFrame(l, d, d[l.start + t := x], Header(l, d));
  }

  lemma WriteHeader(l: Layout, d: Disk, lh: seq<nat>)
    requires Fits(l, d) && HeaderOk(l, d, lh)
    ensures var d' := d[l.start := EncodeHeader(d[l.start], lh)];
      DiskOk(l, d') && Header(l, d') == lh && Home(l, d') == Home(l, d) && Logged(l, d', lh) == Logged(l, d, lh)
  {
    EncodeDecode(d[l.start], lh);
    HeaderOkFrame(l, d, d[l.start := EncodeHeader(d[l.start], lh)], lh);
  }

  lemma WriteHome(l: Layout, d: Disk, b: nat, x: Block)
    requires DiskOk(l, d) && IsHome(l, d, b)
    ensures var d' := d[b := x];
      DiskOk(l, d') && Header(l, d') == Header(l, d) && Home(l, d') == Home(l, d)[b := x]
      && Logged(l, d', Header(l, d)) == Logged(l, d, Header(l, d))
  {
    HeaderOkFrame(l, d, d[b := x], Header(l, d));
  }

  lemma HeaderOkFrame(l: Layout, d: Disk, d': Disk, lh: seq<nat>)
    requires HeaderOk(l, d, lh) && |d| == |d'|
    ensures HeaderOk(l, d', lh)
  {
  }

  /** Installing a logged block at home, at any moment, does not change what recovery yields. */
  lemma InstallKeepsRecovered(l: Layout, d: Disk, t: nat)
    requires DiskOk(l, d) && t < |Header(l, d)|
    ensures var d' := d[Header(l, d)[t] := d[l.start + 1 + t]];
      DiskOk(l, d') && Header(l, d') == Header(l, d) && Recovered(l, d') == Recovered(l, d)
  {
    var b, x := Header(l, d)[t], d[l.start + 1 + t];
    WriteHome(l, d, b, x);
    assert Logged(l, d, Header(l, d))[b] == x;
  }

  /** Once every logged block is at home, the log adds nothing. */
  lemma AllInstalled(l: Layout, d: Disk)
    requires DiskOk(l, d)
    requires forall i :: 0 <= i < |Header(l, d)| ==> d[Header(l, d)[i]] == d[l.start + 1 + i]
    ensures Recovered(l, d) == Home(l, d)
  {
    forall b | b in Logged(l, d, Header(l, d))
      ensures b in Home(l, d) && Home(l, d)[b] == Logged(l, d, Header(l, d))[b]
    {
    }
  }

  lemma AllInstalledWhenEmpty(l: Layout, d: Disk)
    requires DiskOk(l, d)
    ensures Header(l, d) == [] ==> Recovered(l, d) == Home(l, d)
  {
    if Header(l, d) == [] {
      AllInstalled(l, d);
    }
  }

  lemma ReplayAppend(m: Files, ws: seq<Write>, w: Write)
    ensures Replay(m, ws + [w]) == Replay(m, ws)[w.block := w.data]
  {
    assert (ws + [w])[..|ws|] == ws;
  }

  lemma FlattenAppend(gs: seq<seq<Write>>, g: seq<Write>)
    ensures Flatten(gs + [g]) == Flatten(gs) + g
  {
    assert (gs + [g])[..|gs|] == gs;
  }

  // ---- the crash invariant

  predicate Committing(p: Phase) {
    p.LogBlocks? || p.CommitHead? || p.Install? || p.Erase? || p.Finish?
  }

  /** The file contents made durable so far, and those the open operations see. */
  ghost function Durable(init: Files, s: State): Files {
    Replay(init, Flatten(s.groups))
  }

  ghost function Current(init: Files, s: State): Files {
    Replay(init, Flatten(s.groups) + s.cur)
  }

  ghost predicate Shape(l: Layout, s: State) {
    && DiskOk(l, s.disk)
    && HeaderOk(l, s.disk, s.lh)
    && (s.committing <==> Committing(s.phase))
    && (s.outstanding != [] ==> s.phase.Running?)
  }

  /** The pinned buffers are exactly the logged blocks. */
  ghost predicate Pinned(s: State) {
    && (forall i :: 0 <= i < |s.lh| ==> s.lh[i] in s.cache)
    && (forall b :: b in s.cache ==> b in s.lh)
  }

  /** Nothing is committed beyond what is at home; the pinned buffers hold the open group. */
  ghost predicate Buffered(l: Layout, init: Files, s: State)
    requires Shape(l, s)
  {
    && Header(l, s.disk) == []
    && Pinned(s)
    && (s.lh == [] ==> s.cur == [])
    && Home(l, s.disk) + s.cache == Current(init, s)
  }

  ghost predicate Copied(l: Layout, s: State, n: nat)
    requires Shape(l, s) && n <= |s.lh| && Pinned(s)
  {
    forall i :: 0 <= i < n ==> s.disk[l.start + 1 + i] == s.cache[s.lh[i]]
  }

  ghost predicate Installed(l: Layout, s: State, n: nat)
    requires Shape(l, s) && n <= |s.lh|
  {
    forall i :: 0 <= i < n ==> s.disk[s.lh[i]] == s.disk[l.start + 1 + i]
  }

  ghost predicate PhaseInv(l: Layout, init: Files, s: State)
    requires Shape(l, s)
  {
    match s.phase
    case Running => Buffered(l, init, s)
    case LogBlocks(t) => Buffered(l, init, s) && t < |s.lh| && Copied(l, s, t)
    case CommitHead => Buffered(l, init, s) && s.lh != [] && Copied(l, s, |s.lh|)
    case Install(t) =>
      && s.lh == Header(l, s.disk) && t < |s.lh| && Installed(l, s, t) && s.cur == []
      && (forall b :: b in s.cache ==> b in s.lh[t..])
    case Erase => Home(l, s.disk) == Durable(init, s) && s.cache == map[] && s.cur == []
    case Finish => Buffered(l, init, s) && s.lh == [] && s.cur == []
    case ReadHead => s.cache == map[] && s.cur == []
    case RecoverInstall(t) =>
      s.lh == Header(l, s.disk) && t < |s.lh| && Installed(l, s, t) && s.cache == map[] && s.cur == []
    case RecoverErase => Home(l, s.disk) == Durable(init, s) && s.cache == map[] && s.cur == []
  }

  /** Recovery from the disk as it is now would restore exactly the committed groups. */
  ghost predicate CrashInv(l: Layout, init: Files, s: State) {
    && Shape(l, s)
    && Recovered(l, s.disk) == Durable(init, s)
    && PhaseInv(l, init, s)
  }

  lemma InitialCrashInv(l: Layout, d: Disk)
    requires DiskOk(l, d)
    ensures CrashInv(l, Recovered(l, d), Initial(d))
  {
  }

  lemma OverlayUpdate(m: Files, c: Files, b: nat, x: Block)
    ensures m + c[b := x] == (m + c)[b := x]
  {
  }

  lemma AddBlockOk(l: Layout, d: Disk, lh: seq<nat>, b: nat)
    requires HeaderOk(l, d, lh) && IsHome(l, d, b) && !LogFull(l, lh)
    ensures HeaderOk(l, d, AddBlock(lh, b)) && b in AddBlock(lh, b)
    ensures forall x :: x in AddBlock(lh, b) <==> x in lh || x == b
  {
  }

  lemma LogWriteKeepsCrashInv(l: Layout, init: Files, s: State, i: nat, b: nat, data: Block)
    requires CrashInv(l, init, s) && Enabled(l, s, LogWrite(i, b, data))
    ensures CrashInv(l, init, Next(l, s, LogWrite(i, b, data)))
  {
    hide Recovered, Home, Replay, Flatten, Header;
    var s' := Next(l, s, LogWrite(i, b, data));
    var w := Write(s.outstanding[i].id, b, data);
    AddBlockOk(l, s.disk, s.lh, b);
    assert Shape(l, s');
    assert Current(init, s') == Current(init, s)[b := data] by {
      assert Flatten(s.groups) + s'.cur == (Flatten(s.groups) + s.cur) + [w];
      ReplayAppend(init, Flatten(s.groups) + s.cur, w);
    }
    OverlayUpdate(Home(l, s.disk), s.cache, b, data);
    assert Buffered(l, init, s');
  }

  lemma CopyOne(l: Layout, s: State, s': State, t: nat)
    requires Shape(l, s) && Shape(l, s') && Pinned(s) && t < |s.lh| && Copied(l, s, t)
    requires s'.lh == s.lh && s'.cache == s.cache
    requires s'.disk == s.disk[l.start + 1 + t := s.cache[s.lh[t]]]
    ensures Copied(l, s', t + 1)
  {
  }

  lemma LogBlocksKeepsCrashInv(l: Layout, init: Files, s: State)
    requires CrashInv(l, init, s) && s.phase.LogBlocks?
    ensures CanAdvance(l, s) && CrashInv(l, init, NextAdvance(l, s))
  {
    var t := s.phase.tail;
    assert s.lh[t] in s.cache && IsHome(l, s.disk, s.lh[t]);
    var s' := NextAdvance(l, s);
    WriteLogBlock(l, s.disk, 1 + t, s.cache[s.lh[t]]);
    assert Shape(l, s') by { HeaderOkFrame(l, s.disk, s'.disk, s.lh); }
    AllInstalledWhenEmpty(l, s.disk);
    AllInstalledWhenEmpty(l, s'.disk);
    CopyOne(l, s, s', t);
  }

  lemma CopiedIsLogged(l: Layout, s: State)
    requires Shape(l, s) && Pinned(s) && Copied(l, s, |s.lh|)
    ensures Logged(l, s.disk, s.lh) == s.cache
  {
  }

  lemma CommitKeepsCrashInv(l: Layout, init: Files, s: State)
    requires CrashInv(l, init, s) && s.phase.CommitHead?
    ensures CanAdvance(l, s) && CrashInv(l, init, NextAdvance(l, s))
  {
    var s' := NextAdvance(l, s);
    WriteHeader(l, s.disk, s.lh);
    assert Shape(l, s') by { HeaderOkFrame(l, s.disk, s'.disk, s.lh); }
    assert Recovered(l, s'.disk) == Durable(init, s') by {
      CopiedIsLogged(l, s);
      FlattenAppend(s.groups, s.cur);
    }
    assert Installed(l, s', 0);
    assert s.lh[0..] == s.lh;
  }

  lemma UnpinInstalled(lh: seq<nat>, t: nat, cache: Files)
    requires t < |lh| && forall b :: b in cache ==> b in lh[t..]
    ensures forall b :: b in cache - {lh[t]} ==> b in lh[t + 1..]
    ensures t + 1 == |lh| ==> cache - {lh[t]} == map[]
  {
    assert lh[t..] == [lh[t]] + lh[t + 1..];
  }

  lemma InstallOne(l: Layout, s: State, s': State, t: nat)
    requires Shape(l, s) && Shape(l, s') && s.lh == s'.lh && t < |s.lh| && Installed(l, s, t)
    requires s'.disk == s.disk[s.lh[t] := s.disk[l.start + 1 + t]]
    ensures Installed(l, s', t + 1)
  {
    assert !InLog(l, s.lh[t]);
  }

  lemma InstallKeepsShape(l: Layout, s: State, s': State, t: nat)
    requires Shape(l, s) && t < |s.lh| && s.lh == Header(l, s.disk) && s.outstanding == []
    requires s'.disk == s.disk[s.lh[t] := s.disk[l.start + 1 + t]] && s'.lh == s.lh && s'.outstanding == []
    requires s'.committing <==> Committing(s'.phase)
    ensures Shape(l, s') && Header(l, s'.disk) == s.lh && Recovered(l, s'.disk) == Recovered(l, s.disk)
  {
    InstallKeepsRecovered(l, s.disk, t);
    HeaderOkFrame(l, s.disk, s'.disk, s.lh);
  }

  lemma InstallKeepsCrashInv(l: Layout, init: Files, s: State)
    requires CrashInv(l, init, s) && s.phase.Install?
    ensures CanAdvance(l, s) && CrashInv(l, init, NextAdvance(l, s))
  {
    hide Recovered, Home, Replay, Flatten, Header;
    var t := s.phase.tail;
    assert IsHome(l, s.disk, s.lh[t]);
    var s' := NextAdvance(l, s);
    InstallKeepsShape(l, s, s', t);
    InstallOne(l, s, s', t);
    UnpinInstalled(s.lh, t, s.cache);
    if t + 1 == |s.lh| {
      AllInstalled(l, s'.disk);
    }
  }

  lemma EraseKeepsCrashInv(l: Layout, init: Files, s: State)
    requires CrashInv(l, init, s) && (s.phase.Erase? || s.phase.RecoverErase?)
    ensures CanAdvance(l, s) && CrashInv(l, init, NextAdvance(l, s))
  {
    var s' := NextAdvance(l, s);
    WriteHeader(l, s.disk, []);
    AllInstalled(l, s'.disk);
    assert Flatten(s'.groups) + s'.cur == Flatten(s'.groups);
    assert Home(l, s'.disk) + s'.cache == Home(l, s'.disk);
  }

  lemma RecoverKeepsCrashInv(l: Layout, init: Files, s: State)
    requires CrashInv(l, init, s) && (s.phase.ReadHead? || s.phase.RecoverInstall?)
    ensures CanAdvance(l, s) && CrashInv(l, init, NextAdvance(l, s))
  {
    var s' := NextAdvance(l, s);
    if s.phase.ReadHead? {
      AllInstalledWhenEmpty(l, s.disk);
    } else {
      var t := s.phase.tail;
      InstallKeepsShape(l, s, s', t);
      InstallOne(l, s, s', t);
      if t + 1 == |s.lh| {
        AllInstalled(l, s'.disk);
      }
    }
  }

  /** From every state that satisfies the invariant, a started commit or recovery can take its next step. */
  lemma AdvanceKeepsCrashInv(l: Layout, init: Files, s: State)
    requires CrashInv(l, init, s) && !s.phase.Running?
    ensures CanAdvance(l, s) && CrashInv(l, init, NextAdvance(l, s))
  {
    match s.phase
    case LogBlocks(_) => LogBlocksKeepsCrashInv(l, init, s);
    case CommitHead => CommitKeepsCrashInv(l, init, s);
    case Install(_) => InstallKeepsCrashInv(l, init, s);
    case Erase => EraseKeepsCrashInv(l, init, s);
    case Finish =>
    case ReadHead => RecoverKeepsCrashInv(l, init, s);
    case RecoverInstall(_) => RecoverKeepsCrashInv(l, init, s);
    case RecoverErase => EraseKeepsCrashInv(l, init, s);
  }

  lemma StepKeepsCrashInv(l: Layout, init: Files, s: State, step: Step)
    requires CrashInv(l, init, s) && Enabled(l, s, step)
    ensures CrashInv(l, init, Next(l, s, step))
  {
    match step
    case BeginOp =>
      assert s.phase.Running?;
    case LogWrite(i, b, data) => LogWriteKeepsCrashInv(l, init, s, i, b, data);
    case EndOp(i) =>
    case Advance => AdvanceKeepsCrashInv(l, init, s);
    case Crash =>
  }

  // ---- log space

  /** New block numbers the open operations may still add. */
  ghost function Unused(ops: seq<Op>): int {
    if ops == [] then 0 else Unused(ops[..|ops| - 1]) + MAXOPBLOCKS - ops[|ops| - 1].added
  }

  ghost predicate BudgetInv(s: State) {
    && (forall i :: 0 <= i < |s.outstanding| ==> s.outstanding[i].added <= MAXOPBLOCKS)
    && |s.lh| + Unused(s.outstanding) <= LOGSIZE
  }

  lemma {:induction false} UnusedBounds(ops: seq<Op>)
    requires forall i :: 0 <= i < |ops| ==> ops[i].added <= MAXOPBLOCKS
    ensures 0 <= Unused(ops) <= |ops| * MAXOPBLOCKS
  {
    if ops != [] {
      UnusedBounds(ops[..|ops| - 1]);
    }
  }

  lemma {:induction false} UnusedConcat(a: seq<Op>, b: seq<Op>)
    ensures Unused(a + b) == Unused(a) + Unused(b)
  {
    if b == [] {
      assert a + b == a;
    } else {
      assert (a + b)[..|a + b| - 1] == a + b[..|b| - 1];
      UnusedConcat(a, b[..|b| - 1]);
    }
  }

  /** Splitting off one element tells what it contributes. */
  lemma UnusedSplit(ops: seq<Op>, i: nat)
    requires i < |ops|
    ensures Unused(ops) == Unused(Without(ops, i)) + MAXOPBLOCKS - ops[i].added
    ensures forall x: Op :: Unused(ops[i := x]) == Unused(Without(ops, i)) + MAXOPBLOCKS - x.added
  {
    forall x: Op ensures Unused(ops[i := x]) == Unused(Without(ops, i)) + MAXOPBLOCKS - x.added {
      assert ops[i := x] == ops[..i] + [x] + ops[i + 1..];
      UnusedConcat(ops[..i] + [x], ops[i + 1..]);
      UnusedConcat(ops[..i], [x]);
      assert [x][..0] == [];
      UnusedConcat(ops[..i], ops[i + 1..]);
    }
    assert ops[i := ops[i]] == ops;
  }

  lemma LogWriteKeepsBudget(s: State, s': State, i: nat, b: nat)
    requires BudgetInv(s) && i < |s.outstanding| && WithinBudget(s, i, b)
    requires s'.lh == AddBlock(s.lh, b)
    requires s'.outstanding == s.outstanding[i :=
      Op(s.outstanding[i].id, s.outstanding[i].added + if b in s.lh then 0 else 1)]
    ensures BudgetInv(s')
  {
    UnusedSplit(s.outstanding, i);
    assert Unused(s'.outstanding) == Unused(Without(s.outstanding, i)) + MAXOPBLOCKS - s'.outstanding[i].added;
  }

  lemma BeginKeepsBudget(s: State, s': State, op: Op)
    requires BudgetInv(s) && HasRoom(s.lh, |s.outstanding|) && op.added == 0
    requires s'.lh == s.lh && s'.outstanding == s.outstanding + [op]
    ensures BudgetInv(s')
  {
    UnusedBounds(s.outstanding);
    UnusedConcat(s.outstanding, [op]);
    assert [op][..0] == [];
  }

  lemma EndKeepsBudget(s: State, s': State, i: nat)
    requires BudgetInv(s) && i < |s.outstanding|
    requires s'.lh == s.lh && s'.outstanding == Without(s.outstanding, i)
    ensures BudgetInv(s')
  {
    UnusedSplit(s.outstanding, i);
  }

  /** Commit and recovery run with no operation open, and the log they work on is not too long. */
  lemma NoOpsInBudget(l: Layout, init: Files, s: State)
    requires CrashInv(l, init, s) && s.outstanding == []
    ensures BudgetInv(s)
  {
  }

  lemma AdvanceHasNoOps(l: Layout, init: Files, s: State)
    requires CrashInv(l, init, s) && CanAdvance(l, s)
    ensures s.outstanding == [] && NextAdvance(l, s).outstanding == []
  {
    hide EncodeHeader, Header, Read;
  }

  /** The log space account is kept by every step that stays within its operation's budget. */
  lemma StepKeepsBudget(l: Layout, init: Files, s: State, step: Step)
    requires CrashInv(l, init, s) && BudgetInv(s) && Enabled(l, s, step) && StepInBudget(l, s, step)
    ensures BudgetInv(Next(l, s, step))
  {
    hide CrashInv, BudgetInv, CanAdvance, NextAdvance;
    var s' := Next(l, s, step);
    match step
    case BeginOp => BeginKeepsBudget(s, s', Op(s.nextId, 0));
    case LogWrite(i, b, data) => LogWriteKeepsBudget(s, s', i, b);
    case EndOp(i) => EndKeepsBudget(s, s', i);
    case Advance =>
      AdvanceHasNoOps(l, init, s);
      StepKeepsCrashInv(l, init, s, step);
      NoOpsInBudget(l, init, s');
    case Crash =>
      StepKeepsCrashInv(l, init, s, step);
      NoOpsInBudget(l, init, s');
  }

  // ---- atomicity of operations

  /** Has all of its writes in the committed groups. */
  ghost predicate Committed(s: State, op: nat) {
    && WritesOf(Flatten(s.groups), op) == WritesOf(s.issued, op)
    && WritesOf(s.cur, op) == []
  }

  /** Has all of its writes in the open group. */
  ghost predicate Active(s: State, op: nat) {
    && WritesOf(Flatten(s.groups), op) == []
    && WritesOf(s.cur, op) == WritesOf(s.issued, op)
  }

  /** Left no trace: a crash dropped it. */
  ghost predicate Lost(s: State, op: nat) {
    && WritesOf(Flatten(s.groups), op) == []
    && WritesOf(s.cur, op) == []
  }

  ghost predicate AtomInv(s: State) {
    && (forall op :: Committed(s, op) || Active(s, op) || Lost(s, op))
    && (forall op :: op >= s.nextId ==> WritesOf(s.issued, op) == [])
    && (forall i :: 0 <= i < |s.outstanding| ==> s.outstanding[i].id < s.nextId && Active(s, s.outstanding[i].id))
  }

  lemma {:induction false} WritesOfConcat(a: seq<Write>, b: seq<Write>, op: nat)
    ensures WritesOf(a + b, op) == WritesOf(a, op) + WritesOf(b, op)
  {
    if b == [] {
      assert a + b == a;
    } else {
      assert (a + b)[..|a + b| - 1] == a + b[..|b| - 1];
      WritesOfConcat(a, b[..|b| - 1], op);
    }
  }

  lemma WritesOfOne(w: Write, op: nat)
    ensures WritesOf([w], op) == if w.op == op then [w] else []
  {
    assert [w][..0] == [];
  }

  lemma LogWriteKeepsAtom(l: Layout, s: State, i: nat, b: nat, data: Block)
    requires AtomInv(s) && Enabled(l, s, LogWrite(i, b, data))
    ensures AtomInv(Next(l, s, LogWrite(i, b, data)))
  {
    hide WritesOf, LogFull, AddBlock;
    var s' := Next(l, s, LogWrite(i, b, data));
    var w := Write(s.outstanding[i].id, b, data);
    forall op
      ensures WritesOf(s'.cur, op) == WritesOf(s.cur, op) + (if op == w.op then [w] else [])
      ensures WritesOf(s'.issued, op) == WritesOf(s.issued, op) + (if op == w.op then [w] else [])
    {
      WritesOfConcat(s.cur, [w], op);
      WritesOfConcat(s.issued, [w], op);
      WritesOfOne(w, op);
    }
    assert Active(s, w.op) && Active(s', w.op);
    forall op ensures Committed(s', op) || Active(s', op) || Lost(s', op) {
      assert Committed(s, op) || Active(s, op) || Lost(s, op);
    }
    forall j | 0 <= j < |s'.outstanding|
      ensures s'.outstanding[j].id < s'.nextId && Active(s', s'.outstanding[j].id)
    {
      assert s'.outstanding[j].id == s.outstanding[j].id;
    }
  }

  lemma CommitKeepsAtom(l: Layout, s: State)
    requires AtomInv(s) && s.phase.CommitHead? && CanAdvance(l, s) && s.outstanding == []
    ensures AtomInv(NextAdvance(l, s))
  {
    var s' := NextAdvance(l, s);
    forall op ensures Committed(s', op) || Active(s', op) || Lost(s', op) {
      assert Committed(s, op) || Active(s, op) || Lost(s, op);
      FlattenAppend(s.groups, s.cur);
      WritesOfConcat(Flatten(s.groups), s.cur, op);
    }
  }

  lemma StepKeepsAtom(l: Layout, init: Files, s: State, step: Step)
    requires CrashInv(l, init, s) && AtomInv(s) && Enabled(l, s, step)
    ensures AtomInv(Next(l, s, step))
  {
    hide Recovered, Replay, Home, Flatten, Header;
    var s' := Next(l, s, step);
    match step
    case LogWrite(i, b, data) => LogWriteKeepsAtom(l, s, i, b, data);
    case Advance =>
      if s.phase.CommitHead? {
        CommitKeepsAtom(l, s);
      } else {
        assert s'.groups == s.groups && s'.cur == s.cur && s'.issued == s.issued;
        forall op ensures Committed(s', op) || Active(s', op) || Lost(s', op) {
          assert Committed(s, op) || Active(s, op) || Lost(s, op);
        }
      }
    case BeginOp =>
      assert s.phase.Running?;
      FreshIsActive(s);
      SameHistory(s, s');
    case EndOp(i) => SameHistory(s, s');
    case Crash =>
      forall op ensures Committed(s', op) || Active(s', op) || Lost(s', op) {
        assert Committed(s, op) || Active(s, op) || Lost(s, op);
      }
  }

  lemma FreshIsActive(s: State)
    requires AtomInv(s)
    ensures Active(s, s.nextId)
  {
    var op := s.nextId;
    assert WritesOf(s.issued, op) == [];
    assert Committed(s, op) || Active(s, op) || Lost(s, op);
  }

  lemma SameHistory(s: State, s': State)
    requires s'.groups == s.groups && s'.cur == s.cur && s'.issued == s.issued
    ensures forall op :: (Committed(s', op) <==> Committed(s, op)) && (Active(s', op) <==> Active(s, op))
                         && (Lost(s', op) <==> Lost(s, op))
  {
  }

  // ---- main results

  ghost predicate LogInv(l: Layout, init: Files, s: State) {
    CrashInv(l, init, s) && AtomInv(s)
  }

  lemma GroupsGrow(l: Layout, s: State, step: Step)
    requires Enabled(l, s, step)
    ensures s.groups <= Next(l, s, step).groups
  {
  }

  lemma StepKeepsLogInv(l: Layout, init: Files, s: State, step: Step)
    requires LogInv(l, init, s) && Enabled(l, s, step)
    ensures LogInv(l, init, Next(l, s, step))
    ensures s.groups <= Next(l, s, step).groups
  {
    hide CrashInv, AtomInv, Enabled, Next;
    GroupsGrow(l, s, step);
    StepKeepsCrashInv(l, init, s, step);
    StepKeepsAtom(l, init, s, step);
  }

  lemma {:induction false} RunKeepsLogInv(l: Layout, init: Files, s: State, steps: seq<Step>)
    requires LogInv(l, init, s) && Exec(l, s, steps).Reached?
    ensures LogInv(l, init, Exec(l, s, steps).state)
    ensures s.groups <= Exec(l, s, steps).state.groups
  {
    if steps != [] {
      var front := steps[..|steps| - 1];
      RunKeepsLogInv(l, init, s, front);
      StepKeepsLogInv(l, init, Exec(l, s, front).state, steps[|steps| - 1]);
    }
  }

  lemma {:induction false} RunKeepsBudget(l: Layout, init: Files, s: State, steps: seq<Step>)
    requires LogInv(l, init, s) && BudgetInv(s) && Exec(l, s, steps).Reached? && RunInBudget(l, s, steps)
    ensures BudgetInv(Exec(l, s, steps).state)
  {
    hide LogInv, BudgetInv, Enabled, Next;
    if steps != [] {
      var front := steps[..|steps| - 1];
      RunKeepsBudget(l, init, s, front);
      RunKeepsLogInv(l, init, s, front);
      LogInvIsCrashInv(l, init, Exec(l, s, front).state);
      StepKeepsBudget(l, init, Exec(l, s, front).state, steps[|steps| - 1]);
    }
  }

  lemma LogInvIsCrashInv(l: Layout, init: Files, s: State)
    requires LogInv(l, init, s)
    ensures CrashInv(l, init, s)
  {
  }

  lemma InitialLogInv(l: Layout, d: Disk)
    requires DiskOk(l, d)
    ensures LogInv(l, Recovered(l, d), Initial(d))
  {
    InitialCrashInv(l, d);
    var s := Initial(d);
    forall op ensures Lost(s, op) {
    }
  }
}

/**
 The guarantees of xv6/log.c, stated over whole runs.
 */
module LogTheorems {
  import opened Sequences
  import opened LogModel
  import opened LogSafety

  /**
   Crash safety. Start from any disk with a well-formed log and take any run:
   operations interleaved in any way, power lost between any two block writes, any
   number of times. What recovery would restore is the initial contents with a
   whole number of committed groups applied, in order; and each operation has
   either all of its writes in those groups or none of them.
   */
  lemma CrashSafety(l: Layout, d: Disk, steps: seq<Step>, op: nat)
    requires DiskOk(l, d) && Exec(l, Initial(d), steps).Reached?
    ensures var s := Exec(l, Initial(d), steps).state;
      && DiskOk(l, s.disk)
      && Recovered(l, s.disk) == Replay(Recovered(l, d), Flatten(s.groups))
      && (WritesOf(Flatten(s.groups), op) == WritesOf(s.issued, op) || WritesOf(Flatten(s.groups), op) == [])
  {
    InitialLogInv(l, d);
    RunKeepsLogInv(l, Recovered(l, d), Initial(d), steps);
    var s := Exec(l, Initial(d), steps).state;
    assert Committed(s, op) || Active(s, op) || Lost(s, op);
  }

  /** While no commit is under way, operations see the committed groups and then their own writes. */
  lemma OperationsSeeTheirWrites(l: Layout, d: Disk, steps: seq<Step>)
    requires DiskOk(l, d) && Exec(l, Initial(d), steps).Reached?
    ensures var s := Exec(l, Initial(d), steps).state;
      s.phase.Running? ==>
        && Home(l, s.disk) == Replay(Recovered(l, d), Flatten(s.groups))
        && Home(l, s.disk) + s.cache == Replay(Recovered(l, d), Flatten(s.groups) + s.cur)
  {
    InitialLogInv(l, d);
    RunKeepsLogInv(l, Recovered(l, d), Initial(d), steps);
    var s := Exec(l, Initial(d), steps).state;
    if s.phase.Running? {
      AllInstalledWhenEmpty(l, s.disk);
    }
  }

  // ---- recovery

  predicate OnlyRecovery(steps: seq<Step>) {
    forall i :: 0 <= i < |steps| ==> steps[i].Advance? || steps[i].Crash?
  }

  lemma {:induction false} RecoveryKeepsGroups(l: Layout, init: Files, s: State, steps: seq<Step>)
    requires LogInv(l, init, s) && Recovering(s) && OnlyRecovery(steps) && Exec(l, s, steps).Reached?
    ensures var s' := Exec(l, s, steps).state;
      (Recovering(s') || s'.phase.Running?) && s'.groups == s.groups && s'.issued == s.issued
  {
    hide LogInv, EncodeHeader, Header;
    if steps != [] {
      var front := steps[..|steps| - 1];
      RecoveryKeepsGroups(l, init, s, front);
    }
  }

  /**
   Whatever the state at the moment power is lost, and however often recovery is
   itself interrupted: when recovery gets to its end, the home blocks hold exactly
   the groups that were committed at that moment, and the log is empty.
   */
  lemma RecoveryRestoresCommitted(l: Layout, init: Files, s: State, steps: seq<Step>)
    requires LogInv(l, init, s) && OnlyRecovery(steps)
    requires Exec(l, Boot(s), steps).Reached? && Exec(l, Boot(s), steps).state.phase.Running?
    ensures var s' := Exec(l, Boot(s), steps).state;
      && Home(l, s'.disk) == Replay(init, Flatten(s.groups))
      && s'.cache == map[] && DiskOk(l, s'.disk) && Header(l, s'.disk) == []
  {
    hide LogInv, Exec, Replay, Flatten, Home, Header, Recovered, DiskOk, OnlyRecovery;
    StepKeepsLogInv(l, init, s, Crash);
    RunKeepsLogInv(l, init, Boot(s), steps);
    RecoveryKeepsGroups(l, init, Boot(s), steps);
    RecoveryLeavesNothingPinned(l, init, Boot(s), steps);
    RunningIsInstalled(l, init, Exec(l, Boot(s), steps).state);
  }

  lemma RunningIsInstalled(l: Layout, init: Files, s: State)
    requires LogInv(l, init, s) && s.phase.Running?
    ensures DiskOk(l, s.disk) && Header(l, s.disk) == [] && Home(l, s.disk) == Replay(init, Flatten(s.groups))
  {
    AllInstalledWhenEmpty(l, s.disk);
  }

  lemma {:induction false} RecoveryLeavesNothingPinned(l: Layout, init: Files, s: State, steps: seq<Step>)
    requires LogInv(l, init, s) && Recovering(s) && OnlyRecovery(steps) && Exec(l, s, steps).Reached?
    ensures Exec(l, s, steps).state.cache == map[]
  {
    if steps != [] {
      var front := steps[..|steps| - 1];
      RecoveryLeavesNothingPinned(l, init, s, front);
      RecoveryKeepsGroups(l, init, s, front);
    }
  }

  /** Block writes left until a commit or recovery is done. */
  function Remaining(l: Layout, s: State): nat
    requires Fits(l, s.disk)
  {
    match s.phase
    case Running => 0
    case Finish => 1
    case Erase => 2
    case Install(t) => 2 + (if t <= |s.lh| then |s.lh| - t else 0)
    case CommitHead => 3 + |s.lh|
    case LogBlocks(t) => 3 + |s.lh| + (if t <= |s.lh| then |s.lh| - t else 0)
    case RecoverErase => 1
    case RecoverInstall(t) => 2 + (if t <= |s.lh| then |s.lh| - t else 0)
    case ReadHead => 3 + |Header(l, s.disk)|
  }

  lemma AdvanceKeepsShape(l: Layout, s: State)
    requires CanAdvance(l, s)
    ensures NextAdvance(l, s).outstanding == s.outstanding && |NextAdvance(l, s).disk| == |s.disk|
  {
    hide EncodeHeader, Header, Read;
  }

  lemma AdvanceIsCloser(l: Layout, s: State)
    requires CanAdvance(l, s)
    ensures Fits(l, NextAdvance(l, s).disk)
    ensures Remaining(l, NextAdvance(l, s)) < Remaining(l, s)
  {
    hide EncodeHeader, Header, Read;
    assert Fits(l, NextAdvance(l, s).disk) by {
      hide NextAdvance, CanAdvance, Remaining;
      assert Fits(l, s.disk) by { CanAdvanceFits(l, s); }
      AdvanceKeepsShape(l, s);
    }
    hide Fits;
  }

  lemma CanAdvanceFits(l: Layout, s: State)
    requires CanAdvance(l, s)
    ensures Fits(l, s.disk)
  {
  }

  lemma AdvanceDecreases(l: Layout, init: Files, s: State)
    requires LogInv(l, init, s) && !s.phase.Running?
    ensures CanAdvance(l, s) && Fits(l, NextAdvance(l, s).disk)
    ensures Remaining(l, NextAdvance(l, s)) < Remaining(l, s)
  {
    hide NextAdvance, Remaining, CanAdvance;
    AdvanceKeepsCrashInv(l, init, s);
    AdvanceIsCloser(l, s);
  }

  lemma {:induction false} ExecConcat(l: Layout, s: State, a: seq<Step>, b: seq<Step>)
    requires Exec(l, s, a).Reached?
    ensures Exec(l, s, a + b) == Exec(l, Exec(l, s, a).state, b)
  {
    if b == [] {
      assert a + b == a;
    } else {
      assert (a + b)[..|a + b| - 1] == a + b[..|b| - 1];
      ExecConcat(l, s, a, b[..|b| - 1]);
    }
  }

  lemma ExecAppend(l: Layout, s: State, steps: seq<Step>, step: Step)
    requires Exec(l, s, steps).Reached? && Enabled(l, Exec(l, s, steps).state, step)
    ensures Exec(l, s, steps + [step]) == Reached(Next(l, Exec(l, s, steps).state, step))
  {
    assert (steps + [step])[..|steps|] == steps;
  }

  lemma {:induction false} BudgetConcat(l: Layout, s: State, a: seq<Step>, b: seq<Step>)
    requires Exec(l, s, a).Reached? && RunInBudget(l, s, a) && RunInBudget(l, Exec(l, s, a).state, b)
    ensures RunInBudget(l, s, a + b)
  {
    hide Enabled, Next, StepInBudget;
    if b == [] {
      assert a + b == a;
    } else {
      var front := b[..|b| - 1];
      assert (a + b)[..|a + b| - 1] == a + front && (a + b)[|a + b| - 1] == b[|b| - 1];
      BudgetConcat(l, s, a, front);
      ExecConcat(l, s, a, front);
    }
  }

  /** Steps that log nothing use no budget. */
  lemma {:induction false} NoWritesInBudget(l: Layout, s: State, steps: seq<Step>)
    requires forall i :: 0 <= i < |steps| ==> !steps[i].LogWrite?
    ensures RunInBudget(l, s, steps)
  {
    if steps != [] {
      NoWritesInBudget(l, s, steps[..|steps| - 1]);
    }
  }

  lemma OneInBudget(l: Layout, s: State, step: Step)
    requires Enabled(l, s, step) && StepInBudget(l, s, step)
    ensures RunInBudget(l, s, [step])
  {
    hide Enabled, Next, StepInBudget;
    assert [step][..|[step]| - 1] == [];
    assert Exec(l, s, []) == Reached(s) && RunInBudget(l, s, []);
  }

  lemma ExecOne(l: Layout, s: State, step: Step)
    requires Enabled(l, s, step)
    ensures Exec(l, s, [step]) == Reached(Next(l, s, step))
  {
    assert [step][..0] == [];
  }

  /** Recovery, and a started commit, always run to their end: no step of theirs gets stuck. */
  lemma {:induction false} CommitAndRecoveryFinish(l: Layout, init: Files, s: State) returns (steps: seq<Step>)
    requires LogInv(l, init, s)
    ensures |steps| <= Remaining(l, s) && OnlyRecovery(steps) && Crash !in steps
    ensures Exec(l, s, steps).Reached? && Exec(l, s, steps).state.phase.Running?
    decreases Remaining(l, s)
  {
    if s.phase.Running? {
      steps := [];
    } else {
      AdvanceDecreases(l, init, s);
      StepKeepsLogInv(l, init, s, Advance);
      var rest := CommitAndRecoveryFinish(l, init, NextAdvance(l, s));
      ExecOne(l, s, Advance);
      ExecConcat(l, s, [Advance], rest);
      steps := [Advance] + rest;
    }
  }

  // ---- log space

  /**
   In every interleaving the log holds at most LOGSIZE distinct block numbers, and a commit runs only when
   no operation is open, so end_op never panics. If no operation exceeds its budget, there is also room
   left for what the open operations may still add.
   */
  lemma LogSpace(l: Layout, d: Disk, steps: seq<Step>)
    requires DiskOk(l, d) && Exec(l, Initial(d), steps).Reached?
    ensures var s := Exec(l, Initial(d), steps).state;
      && |s.lh| <= LOGSIZE && Distinct(s.lh)
      && (s.committing ==> s.outstanding == [])
      && (RunInBudget(l, Initial(d), steps) ==> BudgetInv(s))
  {
    InitialLogInv(l, d);
    RunKeepsLogInv(l, Recovered(l, d), Initial(d), steps);
    if RunInBudget(l, Initial(d), steps) {
      RunKeepsBudget(l, Recovered(l, d), Initial(d), steps);
    }
  }

  /**
   A run in which every operation keeps its budget lets one of them add a new block that its budget
   still has room for, and log_write panics.
   */
  ghost predicate CanOverflow(l: Layout, d: Disk, steps: seq<Step>, i: nat, b: nat) {
    && Exec(l, Initial(d), steps).Reached? && RunInBudget(l, Initial(d), steps)
    && var s := Exec(l, Initial(d), steps).state;
       InOperation(l, s, i, b) && WithinBudget(s, i, b) && b !in s.lh && LogFull(l, s.lh)
  }

  lemma {:induction false} UnusedIsPositive(ops: seq<Op>, i: nat)
    requires i < |ops| && ops[i].added < MAXOPBLOCKS
    requires forall j :: 0 <= j < |ops| ==> ops[j].added <= MAXOPBLOCKS
    ensures Unused(ops) > 0
  {
    UnusedSplit(ops, i);
    UnusedBounds(Without(ops, i));
  }

  lemma BigLogNeverOverflows(l: Layout, d: Disk, steps: seq<Step>, i: nat, b: nat)
    requires DiskOk(l, d) && LOGSIZE < l.size
    ensures !CanOverflow(l, d, steps, i, b)
  {
    if CanOverflow(l, d, steps, i, b) {
      LogSpace(l, d, steps);
      UnusedIsPositive(Exec(l, Initial(d), steps).state.outstanding, i);
    }
  }

  lemma LoggedIsPinned(s: State)
    requires Pinned(s) && s.lh != []
    ensures s.cache != map[]
  {
    assert s.lh[0] in s.cache;
  }

  lemma NothingPinnedNothingLogged(l: Layout, init: Files, s: State)
    requires CrashInv(l, init, s) && s.phase.Running? && s.cache == map[]
    ensures s.lh == [] && !s.committing
  {
    if s.lh != [] {
      LoggedIsPinned(s);
    }
  }

  lemma BootToRunning(l: Layout, d: Disk) returns (steps: seq<Step>)
    requires DiskOk(l, d)
    ensures Exec(l, Initial(d), steps).Reached? && RunInBudget(l, Initial(d), steps)
    ensures var s := Exec(l, Initial(d), steps).state;
      s.phase.Running? && !s.committing && s.lh == [] && s.outstanding == [] && |s.disk| == |d|
  {
    var init, s0 := Recovered(l, d), Initial(d);
    InitialLogInv(l, d);
    steps := CommitAndRecoveryFinish(l, init, s0);
    var s := Exec(l, s0, steps).state;
    assert LogInv(l, init, s) by { RunKeepsLogInv(l, init, s0, steps); }
    assert s.cache == map[] by { RecoveryLeavesNothingPinned(l, init, s0, steps); }
    NothingPinnedNothingLogged(l, init, s);
    RecoveryHasNoOps(l, s0, steps);
    NoWritesInBudget(l, s0, steps);
  }

  lemma {:induction false} RecoveryHasNoOps(l: Layout, s: State, steps: seq<Step>)
    requires s.outstanding == [] && OnlyRecovery(steps) && Exec(l, s, steps).Reached?
    ensures Exec(l, s, steps).state.outstanding == []
    ensures |Exec(l, s, steps).state.disk| == |s.disk|
  {
    hide NextAdvance, CanAdvance;
    if steps != [] {
      RecoveryHasNoOps(l, s, steps[..|steps| - 1]);
      if steps[|steps| - 1].Advance? {
        AdvanceKeepsShape(l, Exec(l, s, steps[..|steps| - 1]).state);
      }
    }
  }

  /** begin_op admits whenever the room left is a whole budget for each open operation and for the new one. */
  lemma AdmitsWhenRoom(l: Layout, d: Disk, steps: seq<Step>)
    requires DiskOk(l, d) && Exec(l, Initial(d), steps).Reached?
    ensures var s := Exec(l, Initial(d), steps).state;
            !Recovering(s) && !s.committing ==>
              (Enabled(l, s, BeginOp) <==> LOGSIZE - |s.lh| >= MAXOPBLOCKS * |s.outstanding| + MAXOPBLOCKS) &&
              (s.lh == [] ==> (Enabled(l, s, BeginOp) <==> |s.outstanding| < 3))
  {
  }

  /** How much of the budget of the j-th of three operations is used after k writes. */
  function Share(k: nat, j: nat): nat {
    if k <= j * MAXOPBLOCKS then 0
    else if k <= (j + 1) * MAXOPBLOCKS then k - j * MAXOPBLOCKS
    else MAXOPBLOCKS
  }

  predicate Filled(l: Layout, s: State, home: seq<nat>, k: nat)
    requires k <= |home|
  {
    && !Recovering(s) && !s.committing && s.lh == home[..k]
    && |s.outstanding| == 3
    && forall j :: 0 <= j < 3 ==> s.outstanding[j].added == Share(k, j)
  }

  ghost predicate HomeBlocks(l: Layout, d: Disk, home: seq<nat>) {
    |home| == LOGSIZE && Distinct(home) && forall i :: 0 <= i < |home| ==> IsHome(l, d, home[i])
  }

  lemma BeginThree(l: Layout, s: State, home: seq<nat>)
    requires s.phase.Running? && !s.committing && s.lh == [] && s.outstanding == []
    ensures Exec(l, s, [BeginOp, BeginOp, BeginOp]).Reached?
    ensures Filled(l, Exec(l, s, [BeginOp, BeginOp, BeginOp]).state, home, 0)
    ensures Exec(l, s, [BeginOp, BeginOp, BeginOp]).state.disk == s.disk
  {
    ExecOne(l, s, BeginOp);
    var s1 := Next(l, s, BeginOp);
    assert [BeginOp, BeginOp] == [BeginOp] + [BeginOp];
    ExecConcat(l, s, [BeginOp], [BeginOp]);
    ExecOne(l, s1, BeginOp);
    var s2 := Next(l, s1, BeginOp);
    assert [BeginOp, BeginOp, BeginOp] == [BeginOp, BeginOp] + [BeginOp];
    ExecConcat(l, s, [BeginOp, BeginOp], [BeginOp]);
    ExecOne(l, s2, BeginOp);
  }

  /** Three operations can log any k distinct home blocks, as long as the log region has room. */
  lemma FillNext(l: Layout, s: State, home: seq<nat>, k: nat, x: Block)
    requires HomeBlocks(l, s.disk, home) && 0 < k <= LOGSIZE && k < l.size && Filled(l, s, home, k - 1)
    ensures var step := LogWrite((k - 1) / MAXOPBLOCKS, home[k - 1], x);
            && Enabled(l, s, step) && StepInBudget(l, s, step)
            && Filled(l, Next(l, s, step), home, k) && Next(l, s, step).disk == s.disk
  {
    assert home[..k] == home[..k - 1] + [home[k - 1]];
  }

  lemma {:induction false} Fill(l: Layout, s: State, home: seq<nat>, k: nat, x: Block) returns (steps: seq<Step>)
    requires Filled(l, s, home, 0) && HomeBlocks(l, s.disk, home) && k <= LOGSIZE && k < l.size
    ensures Exec(l, s, steps).Reached? && Filled(l, Exec(l, s, steps).state, home, k)
    ensures Exec(l, s, steps).state.disk == s.disk && RunInBudget(l, s, steps)
  {
    if k == 0 {
      steps := [];
    } else {
      var before := Fill(l, s, home, k - 1, x);
      var m := Exec(l, s, before).state;
      var step := LogWrite((k - 1) / MAXOPBLOCKS, home[k - 1], x);
      FillNext(l, m, home, k, x);
      hide Enabled, Next, StepInBudget, Filled, Share, HomeBlocks, Exec, RunInBudget;
      ExecOne(l, m, step);
      ExecConcat(l, s, before, [step]);
      OneInBudget(l, m, step);
      BudgetConcat(l, s, before, [step]);
      steps := before + [step];
    }
  }

  lemma ReachFilled(l: Layout, d: Disk, home: seq<nat>, k: nat) returns (steps: seq<Step>)
    requires DiskOk(l, d) && HomeBlocks(l, d, home) && k <= LOGSIZE && k < l.size
    ensures Exec(l, Initial(d), steps).Reached? && RunInBudget(l, Initial(d), steps)
    ensures Filled(l, Exec(l, Initial(d), steps).state, home, k)
    ensures |Exec(l, Initial(d), steps).state.disk| == |d|
  {
    var boot := BootToRunning(l, d);
    var s := Exec(l, Initial(d), boot).state;
    BeginThree(l, s, home);
    var begins := [BeginOp, BeginOp, BeginOp];
    var s3 := Exec(l, s, begins).state;
    var fill := Fill(l, s3, home, k, d[0]);
    ExecConcat(l, Initial(d), boot, begins);
    ExecConcat(l, Initial(d), boot + begins, fill);
    NoWritesInBudget(l, s, begins);
    BudgetConcat(l, Initial(d), boot, begins);
    BudgetConcat(l, Initial(d), boot + begins, fill);
    steps := boot + begins + fill;
  }

  /**
   The exact condition for log_write never to reject a new block of an operation
   that stays within MAXOPBLOCKS: the on-disk log has a header and LOGSIZE data
   blocks. The file system that mkfs builds has log.size == LOGSIZE, one short.
   */
  lemma NoOverflowIffLogFits(l: Layout, d: Disk, home: seq<nat>)
    requires DiskOk(l, d) && HomeBlocks(l, d, home)
    ensures (forall steps, i, b :: !CanOverflow(l, d, steps, i, b)) <==> LOGSIZE < l.size
  {
    if LOGSIZE < l.size {
      forall steps, i, b ensures !CanOverflow(l, d, steps, i, b) {
        BigLogNeverOverflows(l, d, steps, i, b);
      }
    } else {
      var k := l.size - 1;
      var steps := ReachFilled(l, d, home, k);
      var s := Exec(l, Initial(d), steps).state;
      assert home[k] !in home[..k];
      assert IsHome(l, s.disk, home[k]);
      assert CanOverflow(l, d, steps, k / MAXOPBLOCKS, home[k]);
    }
  }

  /**
   log_write tests for room before it looks for the block in the log, so a full log
   rejects even a block that is already logged and would need no room.
   */
  lemma AbsorbedWriteCanPanic(l: Layout, d: Disk, home: seq<nat>) returns (steps: seq<Step>)
    requires DiskOk(l, d) && HomeBlocks(l, d, home) && LOGSIZE < l.size
    ensures Exec(l, Initial(d), steps).Reached? && RunInBudget(l, Initial(d), steps)
    ensures var s := Exec(l, Initial(d), steps).state;
      InOperation(l, s, 0, home[0]) && home[0] in s.lh && LogFull(l, s.lh)
  {
    steps := ReachFilled(l, d, home, LOGSIZE);
    var s := Exec(l, Initial(d), steps).state;
    assert s.lh[0] == home[0];
    assert IsHome(l, s.disk, home[0]);
  }

  /** The first of three operations alone can log any k distinct home blocks: nothing stops it at its budget. */
  lemma {:induction false} FillByOne(l: Layout, s: State, home: seq<nat>, k: nat, x: Block) returns (steps: seq<Step>)
    requires Filled(l, s, home, 0) && HomeBlocks(l, s.disk, home) && k <= LOGSIZE && k < l.size
    ensures Exec(l, s, steps).Reached?
    ensures var s' := Exec(l, s, steps).state;
      && s'.lh == home[..k] && s'.disk == s.disk && |s'.outstanding| == 3
      && s'.outstanding[0].added == k && s'.outstanding[1].added == 0
  {
    if k == 0 {
      steps := [];
    } else {
      var before := FillByOne(l, s, home, k - 1, x);
      var m := Exec(l, s, before).state;
      var step := LogWrite(0, home[k - 1], x);
      assert home[..k] == home[..k - 1] + [home[k - 1]];
      ExecOne(l, m, step);
      ExecConcat(l, s, before, [step]);
      steps := before + [step];
    }
  }

  /**
   The budget is needed: in every log with room for more than one operation's budget, one operation that
   exceeds it can fill the log, and then log_write rejects the first block of one that has added none.
   */
  lemma GreedyOperationStarvesAnother(l: Layout, d: Disk, home: seq<nat>, b: nat) returns (steps: seq<Step>)
    requires DiskOk(l, d) && HomeBlocks(l, d, home) && MAXOPBLOCKS + 1 < l.size && IsHome(l, d, b) && b !in home
    ensures Exec(l, Initial(d), steps).Reached? && !RunInBudget(l, Initial(d), steps)
    ensures var s := Exec(l, Initial(d), steps).state;
      InOperation(l, s, 1, b) && s.outstanding[1].added == 0 && b !in s.lh && LogFull(l, s.lh)
  {
    var boot := BootToRunning(l, d);
    var s := Exec(l, Initial(d), boot).state;
    BeginThree(l, s, home);
    var begins := [BeginOp, BeginOp, BeginOp];
    var s3 := Exec(l, s, begins).state;
    var k := if LOGSIZE < l.size then LOGSIZE else l.size - 1;
    var fill := FillByOne(l, s3, home, k, d[0]);
    ExecConcat(l, Initial(d), boot, begins);
    ExecConcat(l, Initial(d), boot + begins, fill);
    steps := boot + begins + fill;
    var s' := Exec(l, Initial(d), steps).state;
    assert b !in home[..k];
    LogSpace(l, d, steps);
    assert s'.outstanding[0].added == k;
  }
}

/**
 xv6/log.c as imperative code: the log structure with its fields, and the
 functions that update it. Every block write and every change of the operation
 count is recorded as a step of LogModel, so each method call is a run of the step
 system and inherits its guarantees.
 */
module LogDevice {
  import opened Sequences
  import opened LogModel
  import opened LogSafety
  import opened LogTheorems

  /** The loop of write_head: fill in the header block that was read from disk. */
  method BuildHeader(old_: Block, lh: seq<nat>) returns (hb: Block)
    requires |lh| < WORDS
    ensures hb == EncodeHeader(old_, lh)
    ensures DecodeHeader(hb) == lh
    ensures hb[0] == |lh| && (forall i :: 0 <= i < |lh| ==> hb[1 + i] == lh[i])
    ensures forall i :: |lh| < i < WORDS ==> hb[i] == old_[i]
  {
    hb := old_[0 := |lh|];
    for i := 0 to |lh|
      invariant hb[0] == |lh|
      invariant forall j :: 0 <= j < i ==> hb[1 + j] == lh[j]
      invariant forall j :: 1 + i <= j < WORDS ==> hb[j] == old_[j]
    {
      hb := hb[1 + i := lh[i]];
    }
    EncodeDecode(old_, lh);
  }

  /** The loop of read_head. */
  method ParseHeader(b: Block) returns (lh: seq<nat>)
    requires b[0] < WORDS
    ensures lh == DecodeHeader(b)
    ensures |lh| == b[0] && forall i :: 0 <= i < |lh| ==> lh[i] == b[1 + i]
  {
    lh := [];
    for i := 0 to b[0]
      invariant lh == b[1..1 + i]
    {
      lh := lh + [b[1 + i]];
    }
  }

  /** The search of log_write for a block that is already logged ("log absorbtion"). */
  method FindBlock(lh: seq<nat>, b: nat) returns (i: nat)
    ensures i <= |lh|
    ensures i < |lh| ==> lh[i] == b
    ensures i == |lh| <==> b !in lh
  {
    i := 0;
    while i < |lh| && lh[i] != b
      invariant i <= |lh|
      invariant b !in lh[..i]
    {
      i := i + 1;
    }
    assert lh[..|lh|] == lh;
  }

  /** The state reached from the first boot of disk `d`. */
  ghost predicate Reaches(l: Layout, d: Disk, steps: seq<Step>, s: State) {
    DiskOk(l, d) && Exec(l, Initial(d), steps) == Reached(s)
  }

  lemma ReachesInv(l: Layout, d: Disk, steps: seq<Step>, s: State)
    requires Reaches(l, d, steps, s)
    ensures LogInv(l, Recovered(l, d), s)
  {
    InitialLogInv(l, d);
    RunKeepsLogInv(l, Recovered(l, d), Initial(d), steps);
  }

  /** Block i of the log, counted from behind the header, holds the pinned contents of the i-th logged block. */
  predicate LogCopied(l: Layout, disk: Disk, cache: Files, lh: seq<nat>) {
    forall i :: 0 <= i < |lh| ==>
      l.start + 1 + i < |disk| && lh[i] in cache && disk[l.start + 1 + i] == cache[lh[i]]
  }

  /** When the header is about to be written, the log has all logged blocks. */
  lemma LogHolds(l: Layout, d: Disk, steps: seq<Step>, s: State)
    requires Reaches(l, d, steps, s) && s.phase.CommitHead?
    ensures LogCopied(l, s.disk, s.cache, s.lh)
  {
    hide Exec, Replay, Flatten, Home, Recovered, AtomInv, Header, Distinct;
    ReachesInv(l, d, steps, s);
  }

  lemma ReachesNext(l: Layout, d: Disk, steps: seq<Step>, s: State, step: Step)
    requires Reaches(l, d, steps, s) && Enabled(l, s, step)
    ensures Reaches(l, d, steps + [step], Next(l, s, step))
  {
    ExecAppend(l, Initial(d), steps, step);
  }

  /** A started commit or recovery takes its next step; during recovery nothing is pinned. */
  lemma ReachesAdvance(l: Layout, d: Disk, steps: seq<Step>, s: State)
    requires Reaches(l, d, steps, s) && !s.phase.Running?
    ensures CanAdvance(l, s) && Reaches(l, d, steps + [Advance], NextAdvance(l, s))
    ensures Recovering(s) ==> s.cache == map[]
    ensures DiskOk(l, s.disk)
  {
    hide Exec;
    ReachesInv(l, d, steps, s);
    AdvanceKeepsCrashInv(l, Recovered(l, d), s);
    ReachesNext(l, d, steps, s, Advance);
  }

  lemma ReachesNotCommitting(l: Layout, d: Disk, steps: seq<Step>, s: State)
    requires Reaches(l, d, steps, s) && s.outstanding != []
    ensures !s.committing && s.phase.Running? && (s.lh == [] ==> s.cur == [])
  {
    ReachesInv(l, d, steps, s);
  }

  lemma ReachesDurable(l: Layout, d: Disk, steps: seq<Step>, s: State)
    requires Reaches(l, d, steps, s)
    ensures DiskOk(l, s.disk) && Recovered(l, s.disk) == Replay(Recovered(l, d), Flatten(s.groups))
    ensures s.phase.Running? ==> Header(l, s.disk) == [] && Home(l, s.disk) == Recovered(l, s.disk)
    ensures s.phase.Running? ==> Home(l, s.disk) + s.cache == Replay(Recovered(l, d), Flatten(s.groups) + s.cur)
  {
    ReachesInv(l, d, steps, s);
    AllInstalledWhenEmpty(l, s.disk);
  }

  /** Ending the last operation makes durable exactly what the operations saw. */
  lemma CommitEffect(l: Layout, d: Disk, steps: seq<Step>, s: State, steps': seq<Step>, s': State)
    requires Reaches(l, d, steps, s) && s.phase.Running? && (s.lh == [] ==> s.cur == [])
    requires Reaches(l, d, steps', s') && s'.phase.Running?
    requires s'.groups == if s.lh == [] then s.groups else s.groups + [s.cur]
    ensures Home(l, s'.disk) == Home(l, s.disk) + s.cache
  {
    hide Exec, Reaches, Recovered, Home, Header, Replay, Flatten;
    ReachesDurable(l, d, steps, s);
    ReachesDurable(l, d, steps', s');
    FlattenAppend(s.groups, s.cur);
    assert Flatten(s.groups) + [] == Flatten(s.groups);
  }

  lemma RecoveryEffect(l: Layout, d: Disk, steps: seq<Step>, s: State, steps': seq<Step>, s': State)
    requires Reaches(l, d, steps, s) && Reaches(l, d, steps', s') && s'.phase.Running? && s'.groups == s.groups
    ensures DiskOk(l, s.disk) && DiskOk(l, s'.disk)
    ensures Header(l, s'.disk) == [] && Home(l, s'.disk) == Recovered(l, s.disk)
  {
    ReachesDurable(l, d, steps, s);
    ReachesDurable(l, d, steps', s');
  }

  /** The phase of a commit (or of recovery) after `t` of `n` blocks have been installed. */
  ghost function InstallPhase(recovering: bool, n: nat, t: nat): Phase {
    if recovering then (if t == n then RecoverErase else RecoverInstall(t))
    else (if t == n then Erase else Phase.Install(t))
  }

  lemma InstallStep(l: Layout, d: Disk, steps: seq<Step>, s: State, recovering: bool, t: nat)
    requires Reaches(l, d, steps, s) && t < |s.lh| && s.phase == InstallPhase(recovering, |s.lh|, t)
    ensures s.lh[t] < |s.disk| && l.start + 1 + t < |s.disk|
    ensures Reaches(l, d, steps + [Advance],
      s.(disk := s.disk[s.lh[t] := s.disk[l.start + 1 + t]], cache := s.cache - {s.lh[t]},
         phase := InstallPhase(recovering, |s.lh|, t + 1)))
  {
    ReachesAdvance(l, d, steps, s);
    assert recovering ==> s.cache - {s.lh[t]} == s.cache;
  }

  lemma WriteLogStep(l: Layout, d: Disk, steps: seq<Step>, s: State, t: nat)
    requires Reaches(l, d, steps, s) && t < |s.lh| && s.phase == LogBlocks(t)
    ensures s.lh[t] < |s.disk| && l.start + 1 + t < |s.disk|
    ensures Reaches(l, d, steps + [Advance],
      s.(disk := s.disk[l.start + 1 + t := Read(s.disk, s.cache, s.lh[t])],
         phase := if t + 1 == |s.lh| then CommitHead else LogBlocks(t + 1)))
  {
    ReachesAdvance(l, d, steps, s);
  }

  class Log {
    const l: Layout
    ghost const origin: Disk

    var disk: Disk
    var cache: Files
    var lh: seq<nat>
    var outstanding: nat
    var committing: bool
    ghost var steps: seq<Step>

    /** `model` is the state of the step system after `steps`, and agrees with the fields. */
    ghost var model: State

    ghost predicate Valid()
      reads this
    {
      && Reaches(l, origin, steps, model)
      && model.disk == disk && model.cache == cache && model.lh == lh
      && |model.outstanding| == outstanding && model.committing == committing
    }

    /** Power-on: memory is zero, the disk is what it was. */
    constructor (l: Layout, d: Disk)
      requires DiskOk(l, d)
      ensures Valid() && this.l == l && origin == d && steps == []
      ensures model == Initial(d)
    {
      this.l := l;
      origin := d;
      disk, cache, lh, outstanding, committing := d, map[], [], 0, false;
      steps := [];
      model := Initial(d);
    }

    method WriteHead()
      requires Fits(l, disk) && |lh| < WORDS
      modifies this`disk
      ensures disk == old(disk)[l.start := EncodeHeader(old(disk)[l.start], lh)]
    {
      var hb := BuildHeader(disk[l.start], lh);
      disk := disk[l.start := hb];
    }

    method InstallTrans(ghost recovering: bool)
      requires Valid() && lh != [] && model.phase == InstallPhase(recovering, |lh|, 0)
      modifies this`disk, this`cache, this`steps, this`model
      ensures Valid() && model.phase == InstallPhase(recovering, |lh|, |lh|)
      ensures model == old(model).(disk := disk, cache := cache, phase := model.phase)
    {
      hide Exec;
      var tail := 0;
      while tail < |lh|
        invariant tail <= |lh|
        invariant model == old(model).(disk := disk, cache := cache, phase := model.phase)
        invariant Valid() && model.phase == InstallPhase(recovering, |lh|, tail)
      {
        InstallStep(l, origin, steps, model, recovering, tail);
        disk := disk[lh[tail] := disk[l.start + 1 + tail]];
        cache := cache - {lh[tail]};
        model := model.(disk := disk, cache := cache, phase := InstallPhase(recovering, |lh|, tail + 1));
        steps := steps + [Advance];
        tail := tail + 1;
      }
    }

    method WriteLog()
      requires Valid() && lh != [] && model.phase == LogBlocks(0)
      modifies this`disk, this`steps, this`model
      ensures Valid() && model.phase == CommitHead
      ensures model == old(model).(disk := disk, phase := CommitHead)
      ensures LogCopied(l, disk, cache, lh)
    {
      hide Exec;
      var tail := 0;
      while tail < |lh|
        invariant tail <= |lh|
        invariant model == old(model).(disk := disk, phase := model.phase)
        invariant Valid() && model.phase == (if tail == |lh| then CommitHead else LogBlocks(tail))
      {
        WriteLogStep(l, origin, steps, model, tail);
        disk := disk[l.start + 1 + tail := Read(disk, cache, lh[tail])];
        model := model.(disk := disk, phase := if tail + 1 == |lh| then CommitHead else LogBlocks(tail + 1));
        steps := steps + [Advance];
        tail := tail + 1;
      }
      LogHolds(l, origin, steps, model);
    }

    /** recover_from_log: afterwards the home blocks hold what the disk at power-on promised. */
    method RecoverFromLog()
      requires Valid() && model.phase.ReadHead?
      modifies this
      ensures Valid() && model.phase.Running? && lh == [] && cache == map[]
      ensures model.groups == old(model.groups)
      ensures DiskOk(l, disk) && Header(l, disk) == []
      ensures DiskOk(l, old(disk)) && Home(l, disk) == Recovered(l, old(disk))
    {
      hide Exec;
      ReachesAdvance(l, origin, steps, model);
      lh := ParseHeader(disk[l.start]);
      model := NextAdvance(l, model);
      steps := steps + [Advance];
      if lh != [] {
        InstallTrans(true);
      }
      ReachesAdvance(l, origin, steps, model);
      lh := [];
      WriteHead();
      model := NextAdvance(l, model);
      steps := steps + [Advance];
      RecoveryEffect(l, origin, old(steps), old(model), steps, model);
    }

    /** begin_op: `ok` is false where the C code would sleep and try again. */
    method Begin() returns (ok: bool)
      requires Valid() && !Recovering(model)
      modifies this
      ensures Valid() && ok == (!old(committing) && HasRoom(old(lh), old(outstanding)))
      ensures ok <==> !old(committing) && LOGSIZE - |old(lh)| >= MAXOPBLOCKS * (old(outstanding) + 1)
      ensures model == if ok then Next(l, old(model), BeginOp) else old(model)
      ensures outstanding == if ok then old(outstanding) + 1 else old(outstanding)
    {
      if committing {
        return false;
      } else if |lh| + (outstanding + 1) * MAXOPBLOCKS > LOGSIZE {
        return false;
      }
      ReachesNext(l, origin, steps, model, BeginOp);
      outstanding := outstanding + 1;
      model := Next(l, model, BeginOp);
      steps := steps + [BeginOp];
      return true;
    }

    /**
     log_write of block `b` with contents `data` by the i-th open operation; `ok` is
     false where the C code panics: the log is full, or no operation is open.
     */
    method WriteBlock(ghost i: nat, b: nat, data: Block) returns (ok: bool)
      requires Valid() && IsHome(l, disk, b) && (outstanding > 0 ==> i < outstanding)
      modifies this
      ensures Valid() && ok == (!LogFull(l, old(lh)) && old(outstanding) > 0)
      ensures ok <==> |old(lh)| < LOGSIZE && |old(lh)| + 1 < l.size && old(outstanding) > 0
      ensures ok ==> lh == if b in old(lh) then old(lh) else old(lh) + [b]
      ensures model == if ok then Next(l, old(model), LogWrite(i, b, data)) else old(model)
      ensures ok ==> b in lh && cache == old(cache)[b := data] && disk == old(disk)
    {
      if |lh| >= LOGSIZE || |lh| >= l.size - 1 || outstanding < 1 {
        return false;
      }
      ReachesNext(l, origin, steps, model, LogWrite(i, b, data));
      var k := FindBlock(lh, b);
      lh := if k == |lh| then lh + [b] else lh[k := b];
      cache := cache[b := data];
      model := Next(l, model, LogWrite(i, b, data));
      steps := steps + [LogWrite(i, b, data)];
      return true;
    }

    /** commit: makes the open group durable and moves it home. */
    method Commit()
      requires Valid() && committing
      requires model.phase == if lh == [] then Finish else LogBlocks(0)
      modifies this
      ensures Valid() && model.phase.Finish? && lh == [] && committing && outstanding == old(outstanding)
      ensures model.groups == if old(lh) == [] then old(model.groups) else old(model.groups) + [old(model.cur)]
    {
      hide Exec;
      if |lh| > 0 {
        WriteLog();
        ReachesAdvance(l, origin, steps, model);
        WriteHead();
        model := NextAdvance(l, model);
        steps := steps + [Advance];
        InstallTrans(false);
        ReachesAdvance(l, origin, steps, model);
        lh := [];
        WriteHead();
        model := NextAdvance(l, model);
        steps := steps + [Advance];
      }
    }

    /** end_op: the last operation to end commits the group before it returns. */
    method End(ghost i: nat)
      requires Valid() && i < |model.outstanding|
      modifies this
      ensures Valid() && outstanding == old(outstanding) - 1 && model.phase.Running?
      ensures Enabled(l, old(model), EndOp(i))
      ensures outstanding > 0 ==> model == Next(l, old(model), EndOp(i))
      ensures outstanding == 0 ==>
        && lh == []
        && Home(l, disk) == Home(l, old(disk)) + old(cache)
        && model.groups == if old(lh) == [] then old(model.groups) else old(model.groups) + [old(model.cur)]
    {
      hide Exec;
      ReachesNotCommitting(l, origin, steps, model);
      ReachesNext(l, origin, steps, model, EndOp(i));
      outstanding := outstanding - 1;
      model := Next(l, model, EndOp(i));
      steps := steps + [EndOp(i)];
      if outstanding == 0 {
        committing := true;
        Commit();
        ReachesAdvance(l, origin, steps, model);
        committing := false;
        model := NextAdvance(l, model);
        steps := steps + [Advance];
        CommitEffect(l, origin, old(steps), old(model), steps, model);
      }
    }
  }
}

/**
 The process table of xv6/proc.c. Each section that holds ptable.lock is one step.
 */
module ProcTable {

  const NPROC: nat := 64
  /** A null parent. */
  const NULL: int := -1
  /** The slot userinit gets. */
  const INIT: nat := 0

  datatype PState = UNUSED | EMBRYO | SLEEPING | RUNNABLE | RUNNING | ZOMBIE

  /** Sleep channels: none, a process's own address (wait sleeps there), or any other address. */
  datatype Chan = NoChan | ProcAt(i: nat) | Elsewhere(a: int)

  datatype Proc = Proc(state: PState, pid: nat, parent: int, killed: bool, chan: Chan)

  /** wakeup1 on one process. */
  function Wake(p: Proc, c: Chan): Proc {
    if p.state == SLEEPING && p.chan == c then p.(state := RUNNABLE) else p
  }

  /** wakeup1 */
  predicate Woken(ps: seq<Proc>, c: Chan, ps': seq<Proc>) {
    |ps'| == |ps| && forall i :: 0 <= i < |ps| ==> ps'[i] == Wake(ps[i], c)
  }

  /** wakeup1, field by field: the sleepers of the channel become runnable, and nothing else changes. */
  lemma WokenMeans(ps: seq<Proc>, c: Chan, ps': seq<Proc>, i: nat)
    requires Woken(ps, c, ps') && i < |ps|
    ensures |ps'| == |ps| && (ps[i].state == SLEEPING && ps[i].chan == c ==> ps'[i] == ps[i].(state := RUNNABLE))
    ensures ps[i].state != SLEEPING || ps[i].chan != c ==> ps'[i] == ps[i]
  {
  }

  predicate ZombieChild(ps: seq<Proc>, p: nat, i: nat)
    requires i < |ps|
  {
    ps[i].parent == p && ps[i].state == ZOMBIE
  }

  ghost predicate HasZombie(ps: seq<Proc>, p: nat) {
    exists i: nat :: i < |ps| && ZombieChild(ps, p, i)
  }

  ghost predicate HasKid(ps: seq<Proc>, p: nat) {
    exists i: nat :: i < |ps| && ps[i].parent == p
  }

  function ParentChan(p: Proc): Chan {
    if p.parent < 0 then NoChan else ProcAt(p.parent)
  }

  /** What exit leaves of slot i when p exits. */
  function ExitAt(x: Proc, me: bool, p: nat, wakeInit: bool, up: Chan): Proc {
    var a := Wake(x, up);
    var b := if wakeInit then Wake(a, ProcAt(INIT)) else a;
    var c := if b.parent == p then b.(parent := INIT) else b;
    if me then c.(state := ZOMBIE) else c
  }

  /** exit's locked section: wake the parent, hand the children to init, become a zombie. */
  ghost predicate Exited(ps: seq<Proc>, p: nat, ps': seq<Proc>)
    requires p < |ps|
  {
    |ps'| == |ps| &&
    forall i :: 0 <= i < |ps| ==> ps'[i] == ExitAt(ps[i], i == p, p, HasZombie(ps, p), ParentChan(ps[p]))
  }

  datatype Waited = Reap(pid: nat) | NoChildren | Asleep

  /** wait's locked section: one scan of the table, up to a return or a sleep. */
  ghost predicate Waits(ps: seq<Proc>, p: nat, r: Waited, at: nat, ps': seq<Proc>)
    requires p < |ps|
  {
    match r
    case Reap(pid) =>
      && at < |ps| && ZombieChild(ps, p, at) && (forall i: nat :: i < at ==> !ZombieChild(ps, p, i))
      && pid == ps[at].pid && ps' == ps[at := ps[at].(state := UNUSED, pid := 0, parent := NULL, killed := false)]
    case NoChildren =>
      !HasZombie(ps, p) && (!HasKid(ps, p) || ps[p].killed) && ps' == ps
    case Asleep =>
      !HasZombie(ps, p) && HasKid(ps, p) && !ps[p].killed &&
      ps' == ps[p := ps[p].(state := SLEEPING, chan := ProcAt(p))]
  }

  predicate FirstUnused(ps: seq<Proc>, at: nat) {
    at <= |ps| && (at < |ps| ==> ps[at].state == UNUSED) && forall i :: 0 <= i < at ==> ps[i].state != UNUSED
  }

  predicate FirstPid(ps: seq<Proc>, pid: nat, at: nat) {
    at <= |ps| && (at < |ps| ==> ps[at].pid == pid) && forall i :: 0 <= i < at ==> ps[i].pid != pid
  }

  class Table {
    var proc: seq<Proc>
    var nextpid: nat

    ghost predicate Valid()
      reads this
    {
      |proc| == NPROC
    }

    /** The table as the kernel starts with it. */
    constructor ()
      ensures Valid() && nextpid == 1 && forall i :: 0 <= i < NPROC ==> proc[i] == Proc(UNUSED, 0, NULL, false, NoChan)
    {
      proc := seq(NPROC, _ => Proc(UNUSED, 0, NULL, false, NoChan));
      nextpid := 1;
    }

    /** wakeup1 */
    method Wakeup1(c: Chan)
      requires Valid()
      modifies this`proc
      ensures Valid() && Woken(old(proc), c, proc)
    {
      var i := 0;
      while i < NPROC
        invariant 0 <= i <= NPROC && |proc| == NPROC
        invariant forall k :: 0 <= k < i ==> proc[k] == Wake(old(proc)[k], c)
        invariant forall k :: i <= k < NPROC ==> proc[k] == old(proc)[k]
      {
        if proc[i].state == SLEEPING && proc[i].chan == c {
          proc := proc[i := proc[i].(state := RUNNABLE)];
        }
        i := i + 1;
      }
    }

    /** The first loop of allocproc and what it does to the slot found. */
    method Allocate() returns (slot: nat)
      requires Valid()
      modifies this
      ensures Valid() && FirstUnused(old(proc), slot)
      ensures slot == NPROC ==> proc == old(proc) && nextpid == old(nextpid)
      ensures slot < NPROC ==> nextpid == old(nextpid) + 1
      ensures slot < NPROC ==> proc == old(proc)[slot := old(proc)[slot].(state := EMBRYO, pid := old(nextpid))]
    {
      slot := 0;
      while slot < NPROC
        invariant 0 <= slot <= NPROC
        invariant forall k :: 0 <= k < slot ==> proc[k].state != UNUSED
      {
        if proc[slot].state == UNUSED {
          proc := proc[slot := proc[slot].(state := EMBRYO, pid := nextpid)];
          nextpid := nextpid + 1;
          return;
        }
        slot := slot + 1;
      }
    }

    /** exit, from where it takes the lock. */
    method Exit(p: nat)
      requires Valid() && p < NPROC && p != INIT && proc[p].state == RUNNING
      modifies this`proc
      ensures Valid() && Exited(old(proc), p, proc)
      ensures ExitFields(old(proc), p, proc)
    {
      ghost var ps := proc;
      ghost var up := ParentChan(ps[p]);
      Wakeup1(if proc[p].parent < 0 then NoChan else ProcAt(proc[p].parent));
      var i := 0;
      ghost var found := false;
      while i < NPROC
        invariant 0 <= i <= NPROC && |proc| == NPROC
        invariant found <==> exists k: nat :: k < i && ZombieChild(ps, p, k)
        invariant forall k :: 0 <= k < i ==> proc[k] == ExitAt(ps[k], false, p, found, up)
        invariant forall k :: i <= k < NPROC ==> proc[k] == HalfExit(ps[k], found, up)
      {
        if proc[i].parent == p {
          proc := proc[i := proc[i].(parent := INIT)];
          if proc[i].state == ZOMBIE {
            Wakeup1(ProcAt(INIT));
            found := true;
            assert ZombieChild(ps, p, i);
          }
        }
        i := i + 1;
      }
      assert found <==> HasZombie(ps, p);
      proc := proc[p := proc[p].(state := ZOMBIE)];
      hide ExitFields;
      ExitedMeans(ps, p, proc);
    }

    /** One scan of wait; the caller goes to sleep inside it or gets an answer. */
    method Wait(p: nat) returns (r: Waited, ghost at: nat)
      requires Valid() && p < NPROC && proc[p].state == RUNNING
      modifies this`proc
      ensures Valid() && Waits(old(proc), p, r, at, proc)
      ensures r.Reap? <==> exists i :: 0 <= i < NPROC && old(proc)[i].parent == p && old(proc)[i].state == ZOMBIE
      ensures r.Reap? ==>
        && at < NPROC && r.pid == old(proc)[at].pid && old(proc)[at].parent == p && old(proc)[at].state == ZOMBIE
        && proc == old(proc)[at := Proc(UNUSED, 0, NULL, false, old(proc)[at].chan)]
      ensures !r.Reap? ==>
        (r == NoChildren <==> old(proc)[p].killed || forall i :: 0 <= i < NPROC ==> old(proc)[i].parent != p)
      ensures r == NoChildren ==> proc == old(proc)
      ensures r == Asleep ==> proc == old(proc)[p := old(proc)[p].(state := SLEEPING, chan := ProcAt(p))]
    {
      var havekids := false;
      var i := 0;
      at := 0;
      while i < NPROC
        invariant 0 <= i <= NPROC && proc == old(proc)
        invariant havekids <==> exists k: nat :: k < i && proc[k].parent == p
        invariant forall k: nat :: k < i ==> !ZombieChild(proc, p, k)
      {
        if proc[i].parent == p {
          havekids := true;
          if proc[i].state == ZOMBIE {
            assert ZombieChild(proc, p, i);
            ZombieIs(proc, p);
            r := Reap(proc[i].pid);
            at := i;
            proc := proc[i := proc[i].(state := UNUSED, pid := 0, parent := NULL, killed := false)];
            return;
          }
        }
        i := i + 1;
      }
      assert !HasZombie(proc, p) && (havekids <==> HasKid(proc, p));
      ZombieIs(proc, p);
      if !havekids || proc[p].killed {
        return NoChildren, 0;
      }
      proc := proc[p := proc[p].(chan := ProcAt(p))];
      proc := proc[p := proc[p].(state := SLEEPING)];
      r := Asleep;
    }

    /** kill */
    method Kill(pid: nat) returns (found: bool, ghost at: nat)
      requires Valid()
      modifies this`proc
      ensures Valid() && FirstPid(old(proc), pid, at) && (found <==> at < NPROC)
      ensures proc == if found then old(proc)[at := Killed(old(proc)[at])] else old(proc)
      ensures found <==> exists i :: 0 <= i < NPROC && old(proc)[i].pid == pid
      ensures found ==> proc[at].killed && proc[at].state != SLEEPING && proc[at].pid == pid
      ensures found && old(proc)[at].state != SLEEPING ==> proc[at].state == old(proc)[at].state
      ensures found && old(proc)[at].state == SLEEPING ==> proc[at].state == RUNNABLE
    {
      var i := 0;
      while i < NPROC
        invariant 0 <= i <= NPROC && proc == old(proc)
        invariant forall k :: 0 <= k < i ==> proc[k].pid != pid
      {
        if proc[i].pid == pid {
          at := i;
          proc := proc[i := proc[i].(killed := true)];
          if proc[i].state == SLEEPING {
            proc := proc[i := proc[i].(state := RUNNABLE)];
          }
          return true, at;
        }
        i := i + 1;
      }
      return false, i;
    }
  }

  lemma ZombieIs(ps: seq<Proc>, p: nat)
    ensures HasZombie(ps, p) <==> exists i :: 0 <= i < |ps| && ps[i].parent == p && ps[i].state == ZOMBIE
  {
    if i :| 0 <= i < |ps| && ps[i].parent == p && ps[i].state == ZOMBIE {
      assert ZombieChild(ps, p, i);
    }
  }

  /**
   What exit does, field by field: children go to init, the sleepers that wake are the parent in wait and, if a
   child is a zombie, init in wait.
   */
  ghost predicate ExitFields(ps: seq<Proc>, p: nat, ps': seq<Proc>)
    requires p < |ps|
  {
    && |ps'| == |ps| && ps'[p].state == ZOMBIE
    && (forall i :: 0 <= i < |ps| ==>
          && ps'[i].pid == ps[i].pid && ps'[i].killed == ps[i].killed && ps'[i].chan == ps[i].chan
          && ps'[i].parent == if ps[i].parent == p then INIT else ps[i].parent)
    && (forall i :: 0 <= i < |ps| && i != p && ps[i].state != SLEEPING ==> ps'[i].state == ps[i].state)
    && (0 <= ps[p].parent ==> forall i :: 0 <= i < |ps| && i != p && ps[i].state == SLEEPING ==>
          (ps'[i].state == RUNNABLE <==>
             || ps[i].chan == ProcAt(ps[p].parent)
             || (ps[i].chan == ProcAt(INIT) &&
                 exists j :: 0 <= j < |ps| && ps[j].parent == p && ps[j].state == ZOMBIE)))
  }

  lemma ExitedMeans(ps: seq<Proc>, p: nat, ps': seq<Proc>)
    requires p < |ps| && Exited(ps, p, ps')
    ensures ExitFields(ps, p, ps')
  {
    ZombieIs(ps, p);
    hide HasZombie;
  }

  function Killed(p: Proc): Proc {
    var q := p.(killed := true);
    if q.state == SLEEPING then q.(state := RUNNABLE) else q
  }

  /** A slot exit's loop has not reached yet. */
  function HalfExit(x: Proc, wakeInit: bool, up: Chan): Proc {
    var a := Wake(x, up);
    if wakeInit then Wake(a, ProcAt(INIT)) else a
  }
}

/** Every interleaving of fork, exit, wait, sleep, wakeup, kill, yield and the scheduler. */
module ProcRuns {
  import opened ProcTable

  /** How far a process is in fork: its new slot, before and after the slot's parent is set. */
  datatype Fork = NoFork | Allocated(slot: nat) | Parented(slot: nat)

  /** exited: pids that have become zombies; reaped: pids wait has returned, in order. */
  datatype State = State(ps: seq<Proc>, nextpid: nat, fork: seq<Fork>, exited: set<nat>, reaped: seq<nat>)

  datatype Step =
    | ForkAlloc(p: nat, slot: nat)
    | ForkFail(p: nat)
    | ForkParent(p: nat)
    | ForkDone(p: nat)
    | Exit(p: nat)
    | WaitReaps(p: nat, at: nat)
    | WaitSleeps(p: nat)
    | Sleep(p: nat, a: int)
    | Wakeup(c: Chan)
    | Kill(pid: nat, at: nat)
    | Yield(p: nat)
    | Schedule(p: nat)

  predicate Sized(s: State) {
    |s.ps| == NPROC && |s.fork| == NPROC
  }

  predicate Runs(s: State, p: nat)
    requires Sized(s)
  {
    p < NPROC && s.ps[p].state == RUNNING
  }

  ghost predicate Enabled(s: State, e: Step)
    requires Sized(s)
  {
    match e
    case ForkAlloc(p, slot) => Runs(s, p) && s.fork[p] == NoFork && slot < NPROC && FirstUnused(s.ps, slot)
    case ForkFail(p) => Runs(s, p) && s.fork[p].Allocated? && s.fork[p].slot < NPROC
    case ForkParent(p) => Runs(s, p) && s.fork[p].Allocated? && s.fork[p].slot < NPROC
    case ForkDone(p) => Runs(s, p) && s.fork[p].Parented? && s.fork[p].slot < NPROC
    case Exit(p) => Runs(s, p) && p != INIT && s.fork[p] == NoFork
    case WaitReaps(p, at) =>
      Runs(s, p) && s.fork[p] == NoFork && at < NPROC && ZombieChild(s.ps, p, at) &&
      forall i: nat :: i < at ==> !ZombieChild(s.ps, p, i)
    case WaitSleeps(p) =>
      Runs(s, p) && s.fork[p] == NoFork && !HasZombie(s.ps, p) && HasKid(s.ps, p) && !s.ps[p].killed
    case Sleep(p, a) => Runs(s, p)
    case Wakeup(c) => true
    case Kill(pid, at) => at < NPROC && FirstPid(s.ps, pid, at)
    case Yield(p) => Runs(s, p)
    case Schedule(p) => p < NPROC && s.ps[p].state == RUNNABLE
  }

  function Put(s: State, i: nat, x: Proc): State
    requires Sized(s) && i < NPROC
  {
    s.(ps := s.ps[i := x])
  }

  ghost function Next(s: State, e: Step): (s': State)
    requires Sized(s) && Enabled(s, e)
    ensures Sized(s')
  {
    match e
    case ForkAlloc(p, slot) =>
      Put(s, slot, s.ps[slot].(state := EMBRYO, pid := s.nextpid))
      .(nextpid := s.nextpid + 1, fork := s.fork[p := Allocated(slot)])
    case ForkFail(p) =>
      var slot := s.fork[p].slot;
      Put(s, slot, s.ps[slot].(state := UNUSED)).(fork := s.fork[p := NoFork])
    case ForkParent(p) =>
      var slot := s.fork[p].slot;
      Put(s, slot, s.ps[slot].(parent := p)).(fork := s.fork[p := Parented(slot)])
    case ForkDone(p) =>
      var slot := s.fork[p].slot;
      Put(s, slot, s.ps[slot].(state := RUNNABLE)).(fork := s.fork[p := NoFork])
    case Exit(p) =>
      s.(ps := AfterExit(s.ps, p), exited := s.exited + {s.ps[p].pid})
    case WaitReaps(p, at) =>
      Put(s, at, s.ps[at].(state := UNUSED, pid := 0, parent := NULL, killed := false))
      .(reaped := s.reaped + [s.ps[at].pid])
    case WaitSleeps(p) => Put(s, p, s.ps[p].(state := SLEEPING, chan := ProcAt(p)))
    case Sleep(p, a) => Put(s, p, s.ps[p].(state := SLEEPING, chan := Elsewhere(a)))
    case Wakeup(c) => s.(ps := AfterWakeup(s.ps, c))
    case Kill(pid, at) => Put(s, at, Killed(s.ps[at]))
    case Yield(p) => Put(s, p, s.ps[p].(state := RUNNABLE))
    case Schedule(p) => Put(s, p, s.ps[p].(state := RUNNING))
  }

  ghost function AfterExit(ps: seq<Proc>, p: nat): (ps': seq<Proc>)
    requires p < |ps|
    ensures |ps'| == |ps|
  {
    seq(|ps|, i requires 0 <= i < |ps| => ExitAt(ps[i], i == p, p, HasZombie(ps, p), ParentChan(ps[p])))
  }

  function AfterWakeup(ps: seq<Proc>, c: Chan): (ps': seq<Proc>)
    ensures |ps'| == |ps|
  {
    seq(|ps|, i requires 0 <= i < |ps| => Wake(ps[i], c))
  }

  /** The steps are what the locked sections do. */
  lemma SectionsAreSteps(ps: seq<Proc>, p: nat, ps': seq<Proc>, c: Chan)
    requires p < |ps|
    ensures Exited(ps, p, ps') <==> ps' == AfterExit(ps, p)
    ensures Woken(ps, c, ps') <==> ps' == AfterWakeup(ps, c)
  {
    if Exited(ps, p, ps') {
      assert forall i :: 0 <= i < |ps| ==> ps'[i] == AfterExit(ps, p)[i];
    }
    if Woken(ps, c, ps') {
      assert forall i :: 0 <= i < |ps| ==> ps'[i] == AfterWakeup(ps, c)[i];
    }
  }

  /** userinit has run: slot 0 holds init, ready to run. */
  function Start(): State {
    State(seq(NPROC, i requires 0 <= i < NPROC =>
                if i == INIT then Proc(RUNNABLE, 1, NULL, false, NoChan) else Proc(UNUSED, 0, NULL, false, NoChan)),
          2, seq(NPROC, _ => NoFork), {}, [])
  }

  datatype Result = Stuck | Reached(s: State)

  ghost function Exec(s: State, steps: seq<Step>): (r: Result)
    requires Sized(s)
    ensures r.Reached? ==> Sized(r.s)
    decreases |steps|
  {
    if steps == [] then Reached(s)
    else
      var before := Exec(s, steps[..|steps| - 1]);
      var e := steps[|steps| - 1];
      if before.Stuck? || !Enabled(before.s, e) then Stuck else Reached(Next(before.s, e))
  }

  // ---- the invariant ----

  predicate Live(st: PState) {
    st == SLEEPING || st == RUNNABLE || st == RUNNING
  }

  predicate LiveAt(s: State, i: int)
    requires Sized(s)
  {
    0 <= i < NPROC && Live(s.ps[i].state)
  }

  predicate ParentOk(s: State, i: nat)
    requires Sized(s) && i < NPROC
  {
    match s.ps[i].state
    case UNUSED => s.ps[i].parent == NULL
    case EMBRYO => s.ps[i].parent == NULL || (0 <= s.ps[i].parent < NPROC && s.fork[s.ps[i].parent] == Parented(i))
    case _ => if i == INIT then s.ps[i].parent == NULL else s.ps[i].parent != i && LiveAt(s, s.ps[i].parent)
  }

  predicate ForkOk(s: State, f: nat)
    requires Sized(s) && f < NPROC
  {
    s.fork[f].NoFork? ||
    (s.fork[f].slot < NPROC && LiveAt(s, f) && s.ps[s.fork[f].slot].state == EMBRYO &&
     s.ps[s.fork[f].slot].parent == (if s.fork[f].Parented? then f else NULL))
  }

  predicate ForksApart(s: State)
    requires Sized(s)
  {
    forall f: nat, g: nat :: f < g < NPROC && !s.fork[f].NoFork? && !s.fork[g].NoFork? ==>
      s.fork[f].slot != s.fork[g].slot
  }

  predicate SleepOk(s: State, i: nat)
    requires Sized(s) && i < NPROC
  {
    s.ps[i].state == SLEEPING && s.ps[i].chan == ProcAt(i) ==> forall j: nat :: j < NPROC ==> !ZombieChild(s.ps, i, j)
  }

  ghost predicate TreeInv(s: State) {
    && Sized(s) && LiveAt(s, INIT) && ForksApart(s)
    && (forall i: nat :: i < NPROC ==> ParentOk(s, i))
    && (forall f: nat :: f < NPROC ==> ForkOk(s, f))
    && (forall i: nat :: i < NPROC ==> SleepOk(s, i))
  }

  // ---- every step keeps the tree ----

  lemma ForksApartStep(s: State, e: Step)
    requires TreeInv(s) && Enabled(s, e)
    ensures ForksApart(Next(s, e))
  {
    hide SleepOk, ParentOk;
    if e.ForkAlloc? {
      forall f: nat | f < NPROC && !s.fork[f].NoFork?
        ensures s.fork[f].slot != e.slot
      {
        assert ForkOk(s, f);
      }
    }
  }

  lemma InitStep(s: State, e: Step)
    requires TreeInv(s) && Enabled(s, e)
    ensures LiveAt(Next(s, e), INIT)
  {
    hide SleepOk, ParentOk, ForksApart;
    if e.ForkFail? || e.ForkParent? || e.ForkDone? {
      assert ForkOk(s, e.p);
    }
  }

  /** Only exit takes a live process away. */
  lemma LiveStep(s: State, e: Step, i: nat)
    requires TreeInv(s) && Enabled(s, e) && LiveAt(s, i)
    ensures LiveAt(Next(s, e), i) || (e.Exit? && e.p == i)
  {
    hide SleepOk, ParentOk, ForksApart;
    if e.ForkFail? || e.ForkParent? || e.ForkDone? {
      assert ForkOk(s, e.p);
    }
  }

  lemma ForkStep(s: State, e: Step, f: nat)
    requires TreeInv(s) && Enabled(s, e) && f < NPROC
    ensures ForkOk(Next(s, e), f)
  {
    hide SleepOk;
    assert ForkOk(s, f);
    if !s.fork[f].NoFork? {
      LiveStep(s, e, f);
      assert ParentOk(s, s.fork[f].slot);
    }
    if e.ForkAlloc? {
      assert ParentOk(s, e.slot);
    }
    if e.ForkFail? || e.ForkParent? || e.ForkDone? {
      assert ForkOk(s, e.p);
    }
  }

  lemma ParentStep(s: State, e: Step, i: nat)
    requires TreeInv(s) && Enabled(s, e) && i < NPROC
    ensures ParentOk(Next(s, e), i)
  {
    if e.Exit? {
      ExitParentStep(s, e, i);
    } else {
      OtherParentStep(s, e, i);
    }
  }

  lemma ExitParentStep(s: State, e: Step, i: nat)
    requires TreeInv(s) && Enabled(s, e) && i < NPROC && e.Exit?
    ensures ParentOk(Next(s, e), i)
  {
    hide SleepOk, HasZombie, ForksApart;
    assert ParentOk(s, i) && ParentOk(s, INIT);
    InitStep(s, e);
    if LiveAt(s, s.ps[i].parent) {
      LiveStep(s, e, s.ps[i].parent);
    }
    if s.ps[i].state == EMBRYO && s.ps[i].parent != NULL {
      assert ForkOk(s, s.ps[i].parent);
    }
  }

  lemma OtherParentStep(s: State, e: Step, i: nat)
    requires TreeInv(s) && Enabled(s, e) && i < NPROC && !e.Exit?
    ensures ParentOk(Next(s, e), i)
  {
    hide SleepOk, ExitAt;
    assert ParentOk(s, i);
    if LiveAt(s, s.ps[i].parent) {
      LiveStep(s, e, s.ps[i].parent);
    }
    if e.ForkFail? || e.ForkParent? || e.ForkDone? {
      assert ForkOk(s, e.p);
      LiveStep(s, e, e.p);
    }
    if s.ps[i].state == EMBRYO && s.ps[i].parent != NULL {
      assert ForkOk(s, s.ps[i].parent);
    }
  }

  lemma SleepStep(s: State, e: Step, i: nat)
    requires TreeInv(s) && Enabled(s, e) && i < NPROC
    ensures SleepOk(Next(s, e), i)
  {
    assert SleepOk(s, i);
    var s' := Next(s, e);
    if s'.ps[i].state == SLEEPING && s'.ps[i].chan == ProcAt(i) {
      forall j: nat | j < NPROC
        ensures !ZombieChild(s'.ps, i, j)
      {
        assert ParentOk(s, j);
        var was := ZombieChild(s.ps, i, j);
        if e.ForkFail? || e.ForkParent? || e.ForkDone? {
          assert ForkOk(s, e.p);
        }
        if e.Exit? && ZombieChild(s.ps, e.p, j) {
          assert HasZombie(s.ps, e.p);
        }
        if e.WaitSleeps? && ZombieChild(s.ps, e.p, j) {
          assert HasZombie(s.ps, e.p);
        }
        if e.Exit? && j == e.p {
          assert ParentChan(s.ps[j]) == ProcAt(s.ps[j].parent);
        }
      }
    }
  }

  lemma StepKeepsTree(s: State, e: Step)
    requires TreeInv(s) && Enabled(s, e)
    ensures TreeInv(Next(s, e))
  {
    hide SleepOk, ParentOk, ForkOk, ForksApart, Enabled, Next;
    InitStep(s, e);
    ForksApartStep(s, e);
    forall i: nat | i < NPROC
      ensures ParentOk(Next(s, e), i) && ForkOk(Next(s, e), i) && SleepOk(Next(s, e), i)
    {
      ParentStep(s, e, i);
      ForkStep(s, e, i);
      SleepStep(s, e, i);
    }
  }

  /** wait's section is one of the wait steps, or changes nothing. */
  lemma WaitIsStep(s: State, p: nat, r: Waited, at: nat, ps': seq<Proc>)
    requires Sized(s) && Runs(s, p) && s.fork[p] == NoFork && Waits(s.ps, p, r, at, ps')
    ensures r.Reap? ==> Enabled(s, WaitReaps(p, at)) && Next(s, WaitReaps(p, at)).ps == ps'
    ensures r.Asleep? ==> Enabled(s, WaitSleeps(p)) && Next(s, WaitSleeps(p)).ps == ps'
    ensures r.NoChildren? ==> ps' == s.ps
  {
  }

  // ---- each process is reaped at most once ----

  predicate PidOk(s: State, i: nat)
    requires Sized(s) && i < NPROC
  {
    s.ps[i].state != UNUSED ==>
      s.ps[i].pid < s.nextpid && s.ps[i].pid !in s.reaped && (s.ps[i].state == ZOMBIE <==> s.ps[i].pid in s.exited)
  }

  predicate PidsApart(s: State)
    requires Sized(s)
  {
    forall i, j :: 0 <= i < j < NPROC && s.ps[i].state != UNUSED && s.ps[j].state != UNUSED ==>
      s.ps[i].pid != s.ps[j].pid
  }

  predicate ZombieWith(s: State, i: nat, pid: nat)
    requires Sized(s) && i < NPROC
  {
    s.ps[i].state == ZOMBIE && s.ps[i].pid == pid
  }

  /** A process that exited is a zombie until it is reaped. */
  ghost predicate ExitOk(s: State, pid: nat)
    requires Sized(s)
  {
    pid in s.exited ==> pid < s.nextpid && (pid in s.reaped || exists i: nat :: i < NPROC && ZombieWith(s, i, pid))
  }

  predicate ReapedOk(s: State) {
    (forall i, j :: 0 <= i < j < |s.reaped| ==> s.reaped[i] != s.reaped[j]) &&
    (forall i :: 0 <= i < |s.reaped| ==> s.reaped[i] in s.exited)
  }

  ghost predicate HistoryInv(s: State) {
    && Sized(s) && PidsApart(s) && ReapedOk(s)
    && (forall i: nat :: i < NPROC ==> PidOk(s, i))
    && (forall pid: nat :: ExitOk(s, pid))
  }

  lemma PidStep(s: State, e: Step, i: nat)
    requires TreeInv(s) && HistoryInv(s) && Enabled(s, e) && i < NPROC
    ensures PidOk(Next(s, e), i)
  {
    hide SleepOk, ParentOk, ForksApart;
    assert PidOk(s, i);
    if e.ForkFail? || e.ForkParent? || e.ForkDone? {
      assert ForkOk(s, e.p);
    }
    if e.ForkAlloc? {
      assert ExitOk(s, s.nextpid);
    }
  }

  lemma PidsApartStep(s: State, e: Step)
    requires TreeInv(s) && HistoryInv(s) && Enabled(s, e)
    ensures PidsApart(Next(s, e))
  {
    hide SleepOk, ParentOk, ForksApart, ExitOk;
    var s' := Next(s, e);
    if e.ForkFail? || e.ForkParent? || e.ForkDone? {
      assert ForkOk(s, e.p);
    }
    forall i: nat | i < NPROC && s'.ps[i].state != UNUSED
      ensures s'.ps[i].pid == if e.ForkAlloc? && i == e.slot then s.nextpid else s.ps[i].pid
      ensures s.ps[i].state != UNUSED || (e.ForkAlloc? && i == e.slot)
    {
    }
    forall i: nat | i < NPROC && s.ps[i].state != UNUSED
      ensures s.ps[i].pid < s.nextpid
    {
      assert PidOk(s, i);
    }
  }

  lemma ExitStep(s: State, e: Step, pid: nat)
    requires TreeInv(s) && HistoryInv(s) && Enabled(s, e)
    ensures ExitOk(Next(s, e), pid)
  {
    hide SleepOk, ParentOk, ForksApart, PidsApart;
    var s' := Next(s, e);
    assert ExitOk(s, pid);
    if e.ForkFail? || e.ForkParent? || e.ForkDone? {
      assert ForkOk(s, e.p);
    }
    if i: nat :| i < NPROC && ZombieWith(s, i, pid) {
      if !(e.WaitReaps? && e.at == i) {
        assert ZombieWith(s', i, pid);
      } else {
        assert s'.reaped[|s.reaped|] == pid;
      }
    }
    if e.Exit? && s.ps[e.p].pid == pid {
      assert PidOk(s, e.p);
      assert ZombieWith(s', e.p, pid);
    }
  }

  lemma ReapedStep(s: State, e: Step)
    requires TreeInv(s) && HistoryInv(s) && Enabled(s, e)
    ensures ReapedOk(Next(s, e))
  {
    hide SleepOk, ParentOk, ForksApart, PidsApart, ExitOk;
    if e.WaitReaps? {
      assert PidOk(s, e.at);
    }
  }

  lemma StepKeepsHistory(s: State, e: Step)
    requires TreeInv(s) && HistoryInv(s) && Enabled(s, e)
    ensures HistoryInv(Next(s, e))
  {
    hide TreeInv, PidsApart, ReapedOk, PidOk, ExitOk, Enabled, Next;
    PidsApartStep(s, e);
    ReapedStep(s, e);
    forall i: nat | i < NPROC
      ensures PidOk(Next(s, e), i)
    {
      PidStep(s, e, i);
    }
    forall pid: nat
      ensures ExitOk(Next(s, e), pid)
    {
      ExitStep(s, e, pid);
    }
  }

  lemma StartInv()
    ensures TreeInv(Start()) && HistoryInv(Start())
  {
  }

  lemma {:induction false} RunKeepsInv(steps: seq<Step>)
    ensures Exec(Start(), steps).Reached? ==> TreeInv(Exec(Start(), steps).s) && HistoryInv(Exec(Start(), steps).s)
    decreases |steps|
  {
    hide TreeInv, HistoryInv, Enabled, Next;
    if steps == [] {
      StartInv();
    } else {
      RunKeepsInv(steps[..|steps| - 1]);
      var before := Exec(Start(), steps[..|steps| - 1]);
      var e := steps[|steps| - 1];
      if before.Reached? && Enabled(before.s, e) {
        StepKeepsTree(before.s, e);
        StepKeepsHistory(before.s, e);
      }
    }
  }

  // ---- what it means ----

  /** Everybody but init has a parent that is there to wait for it. */
  lemma ParentsAreLive(steps: seq<Step>, i: nat)
    requires Exec(Start(), steps).Reached? && i < NPROC && i != INIT
    ensures var s := Exec(Start(), steps).s; var st := s.ps[i].state;
            Live(st) || st == ZOMBIE ==>
              0 <= s.ps[i].parent < NPROC && s.ps[i].parent != i &&
              s.ps[s.ps[i].parent].state != UNUSED && s.ps[s.ps[i].parent].state != ZOMBIE &&
              s.ps[s.ps[i].parent].state != EMBRYO
  {
    hide Exec;
    RunKeepsInv(steps);
    assert ParentOk(Exec(Start(), steps).s, i);
  }

  /** Nobody sleeps in wait while a child is a zombie. */
  lemma NoLostExit(steps: seq<Step>, i: nat, j: nat)
    requires Exec(Start(), steps).Reached? && i < NPROC && j < NPROC
    ensures var s := Exec(Start(), steps).s;
            s.ps[i].state == SLEEPING && s.ps[i].chan == ProcAt(i) && s.ps[j].parent == i ==> s.ps[j].state != ZOMBIE
  {
    hide Exec;
    RunKeepsInv(steps);
    var s := Exec(Start(), steps).s;
    assert SleepOk(s, i);
    var z := ZombieChild(s.ps, i, j);
  }

  /** No pid is reaped twice, and a process that exited is a zombie exactly until it is reaped. */
  lemma ReapedAtMostOnce(steps: seq<Step>, pid: nat)
    requires Exec(Start(), steps).Reached?
    ensures var s := Exec(Start(), steps).s;
            && multiset(s.reaped)[pid] <= 1
            && (pid in s.reaped ==> pid in s.exited)
            && (pid in s.exited && pid !in s.reaped <==> exists i: nat :: i < NPROC && ZombieWith(s, i, pid))
  {
    hide Exec;
    RunKeepsInv(steps);
    var s := Exec(Start(), steps).s;
    AtMostOnce(s.reaped, pid);
    assert ExitOk(s, pid);
    if i: nat :| i < NPROC && ZombieWith(s, i, pid) {
      assert PidOk(s, i);
    }
  }

  lemma {:induction false} AtMostOnce(xs: seq<nat>, x: nat)
    requires forall i, j :: 0 <= i < j < |xs| ==> xs[i] != xs[j]
    ensures multiset(xs)[x] <= 1
    decreases |xs|
  {
    if xs != [] {
      var rest := xs[..|xs| - 1];
      assert xs == rest + [xs[|xs| - 1]];
      AtMostOnce(rest, x);
      if xs[|xs| - 1] == x {
        assert x !in rest;
      }
    }
  }
}

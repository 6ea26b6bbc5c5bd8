/**
 The dining philosophers of Filosofos/filosofos.c: any ring of at least two, each with
 its own fixed number, interleaved at every semaphore operation and state change.
 */
module Ring {

  /** LEFT and RIGHT. */
  function Left(n: nat, i: nat): (l: nat)
    requires i < n
    ensures l < n
  {
    if i == 0 then n - 1 else i - 1
  }

  function Right(n: nat, i: nat): (r: nat)
    requires i < n
    ensures r < n
  {
    if i + 1 == n then 0 else i + 1
  }

  lemma Below(n: nat, k: nat)
    requires k < n
    ensures k % n == k && (k + n) % n == k && n % n == 0
  {
  }

  /** They are the source's (i+N-1)%N and (i+1)%N, and each undoes the other. */
  lemma Modular(n: nat, i: nat)
    requires i < n
    ensures Left(n, i) == (i + n - 1) % n && Right(n, i) == (i + 1) % n
    ensures Left(n, Right(n, i)) == i && Right(n, Left(n, i)) == i
  {
    Below(n, i);
    if i + 1 < n {
      Below(n, i + 1);
    }
    if i > 0 {
      Below(n, i - 1);
    }
  }

  datatype Phase = THINKING | HUNGRY | EATING

  predicate Apart(state: seq<Phase>, i: nat)
    requires i < |state|
  {
    state[i] == EATING ==> state[Right(|state|, i)] != EATING
  }

  /** No two neighbours eat. */
  predicate AllApart(state: seq<Phase>) {
    forall i: nat :: i < |state| ==> Apart(state, i)
  }

  predicate NextToEating(state: seq<Phase>, i: nat)
    requires i < |state|
  {
    state[Left(|state|, i)] == EATING || state[Right(|state|, i)] == EATING
  }

  /** The condition test() finds true. */
  predicate MayEat(state: seq<Phase>, i: nat)
    requires i < |state|
  {
    state[i] == HUNGRY && !NextToEating(state, i)
  }

  function Tested(state: seq<Phase>, i: nat): seq<Phase>
    requires i < |state|
  {
    if MayEat(state, i) then state[i := EATING] else state
  }

  lemma TestKeepsApart(state: seq<Phase>, i: nat)
    requires |state| >= 2 && i < |state| && AllApart(state)
    ensures AllApart(Tested(state, i))
  {
    forall k: nat | k < |state|
      ensures Apart(Tested(state, i), k)
    {
      Modular(|state|, k);
      assert Apart(state, k);
    }
  }

  lemma OnlyFewerEating(state: seq<Phase>, i: nat, p: Phase)
    requires i < |state| && AllApart(state) && p != EATING
    ensures AllApart(state[i := p])
  {
    var fewer := state[i := p];
    forall k: nat | k < |fewer|
      ensures Apart(fewer, k)
    {
      assert Apart(state, k);
    }
  }
}

module Philosophers {
  import opened Ring

  /** Where a philosopher is in acao_filosofo; test() is a check that sets the state, then a post. */
  datatype Pc =
    | Idle
    | MarkHungry | TestSelf | PostSelf | LeaveTake
    | Waiting
    | Dining
    | MarkThinking | TestLeft | PostLeft | TestRight | PostRight | LeavePut

  predicate Critical(pc: Pc) {
    !pc.Idle? && !pc.Waiting? && !pc.Dining?
  }

  /** mutex and sems are the semaphores' values. */
  datatype Table = Table(state: seq<Phase>, sems: seq<nat>, mutex: nat, pc: seq<Pc>)

  predicate Sized(s: Table) {
    |s.state| >= 2 && |s.sems| == |s.state| && |s.pc| == |s.state|
  }

  /** Only the two semaphore waits can block. */
  predicate Enabled(s: Table, i: nat)
    requires Sized(s) && i < |s.state|
  {
    match s.pc[i]
    case Idle => s.mutex > 0
    case Dining => s.mutex > 0
    case Waiting => s.sems[i] > 0
    case _ => true
  }

  function Goto(s: Table, i: nat, pc: Pc): Table
    requires Sized(s) && i < |s.state|
  {
    s.(pc := s.pc[i := pc])
  }

  function Post(s: Table, k: nat): Table
    requires Sized(s) && k < |s.state|
  {
    s.(sems := s.sems[k := s.sems[k] + 1])
  }

  /** test(k), up to its sem_post. */
  function Test(s: Table, i: nat, k: nat, post: Pc, skip: Pc): Table
    requires Sized(s) && i < |s.state| && k < |s.state|
  {
    Goto(s.(state := Tested(s.state, k)), i, if MayEat(s.state, k) then post else skip)
  }

  function Next(s: Table, i: nat): (s': Table)
    requires Sized(s) && i < |s.state| && Enabled(s, i)
    ensures Sized(s') && |s'.state| == |s.state|
  {
    var n := |s.state|;
    match s.pc[i]
    case Idle => Goto(s.(mutex := s.mutex - 1), i, MarkHungry)
    case MarkHungry => Goto(s.(state := s.state[i := HUNGRY]), i, TestSelf)
    case TestSelf => Test(s, i, i, PostSelf, LeaveTake)
    case PostSelf => Goto(Post(s, i), i, LeaveTake)
    case LeaveTake => Goto(s.(mutex := s.mutex + 1), i, Waiting)
    case Waiting => Goto(s.(sems := s.sems[i := s.sems[i] - 1]), i, Dining)
    case Dining => Goto(s.(mutex := s.mutex - 1), i, MarkThinking)
    case MarkThinking => Goto(s.(state := s.state[i := THINKING]), i, TestLeft)
    case TestLeft => Test(s, i, Left(n, i), PostLeft, TestRight)
    case PostLeft => Goto(Post(s, Left(n, i)), i, TestRight)
    case TestRight => Test(s, i, Right(n, i), PostRight, LeavePut)
    case PostRight => Goto(Post(s, Right(n, i)), i, LeavePut)
    case LeavePut => Goto(s.(mutex := s.mutex + 1), i, Idle)
  }

  function Start(n: nat): Table
    requires n >= 2
  {
    Table(seq(n, _ => THINKING), seq(n, _ => 0), 1, seq(n, _ => Idle))
  }

  datatype Result = Stuck | Reached(s: Table)

  /** Run the philosophers in the order given. */
  function Exec(s: Table, steps: seq<nat>): (r: Result)
    requires Sized(s)
    ensures r.Reached? ==> Sized(r.s) && |r.s.state| == |s.state|
    decreases |steps|
  {
    if steps == [] then Reached(s)
    else
      var before := Exec(s, steps[..|steps| - 1]);
      var i := steps[|steps| - 1];
      if before.Stuck? || i >= |s.state| || !Enabled(before.s, i) then Stuck else Reached(Next(before.s, i))
  }

  // ---- the invariant ----

  predicate PhaseOk(pc: Pc, p: Phase) {
    match pc
    case Idle => p == THINKING
    case MarkHungry => p == THINKING
    case TestSelf => p == HUNGRY
    case PostSelf => p == EATING
    case LeaveTake => p != THINKING
    case Waiting => p != THINKING
    case Dining => p == EATING
    case MarkThinking => p == EATING
    case _ => p == THINKING
  }

  /** Philosopher j is about to post k's semaphore. */
  predicate Posts(s: Table, j: nat, k: nat)
    requires Sized(s) && j < |s.state|
  {
    var n := |s.state|;
    (s.pc[j] == PostSelf && j == k) || (s.pc[j] == PostLeft && Left(n, j) == k) ||
    (s.pc[j] == PostRight && Right(n, j) == k)
  }

  /** Philosopher j is about to test k. */
  predicate Tests(s: Table, j: nat, k: nat)
    requires Sized(s) && j < |s.state|
  {
    var n := |s.state|;
    (s.pc[j] == TestSelf && j == k) || (s.pc[j] == TestLeft && Left(n, j) == k) ||
    (s.pc[j] in {TestLeft, PostLeft, TestRight} && Right(n, j) == k)
  }

  predicate Pending(s: Table, k: nat)
    requires Sized(s)
  {
    exists j: nat :: j < |s.state| && Posts(s, j, k)
  }

  predicate WillTest(s: Table, k: nat)
    requires Sized(s)
  {
    exists j: nat :: j < |s.state| && Tests(s, j, k)
  }

  /** Past the wait, and not yet back to thinking. */
  predicate Past(s: Table, k: nat)
    requires Sized(s) && k < |s.state|
  {
    s.pc[k] == Dining || s.pc[k] == MarkThinking
  }

  function Bit(b: bool): nat {
    if b then 1 else 0
  }

  /** Each EATING is exactly one token, one post about to happen, or one philosopher past the wait. */
  predicate TokenOk(s: Table, k: nat)
    requires Sized(s) && k < |s.state|
  {
    s.sems[k] + Bit(Pending(s, k)) + Bit(Past(s, k)) == Bit(s.state[k] == EATING)
  }

  predicate HungryOk(s: Table, k: nat)
    requires Sized(s) && k < |s.state|
  {
    s.state[k] == HUNGRY ==> NextToEating(s.state, k) || WillTest(s, k)
  }

  predicate Alone(s: Table, i: nat)
    requires Sized(s) && i < |s.state|
  {
    Critical(s.pc[i]) ==> s.mutex == 0 && forall j: nat :: j < |s.state| && j != i ==> !Critical(s.pc[j])
  }

  predicate MutexOk(s: Table)
    requires Sized(s)
  {
    s.mutex <= 1 && (forall i: nat :: i < |s.state| ==> Alone(s, i)) &&
    (s.mutex == 0 ==> exists i: nat :: i < |s.state| && Critical(s.pc[i]))
  }

  predicate PhasesOk(s: Table)
    requires Sized(s)
  {
    forall k: nat :: k < |s.state| ==> PhaseOk(s.pc[k], s.state[k])
  }

  predicate TokensOk(s: Table)
    requires Sized(s)
  {
    forall k: nat :: k < |s.state| ==> TokenOk(s, k)
  }

  predicate HungriesOk(s: Table)
    requires Sized(s)
  {
    forall k: nat :: k < |s.state| ==> HungryOk(s, k)
  }

  predicate Inv(s: Table) {
    Sized(s) && MutexOk(s) && PhasesOk(s) && AllApart(s.state) && TokensOk(s) && HungriesOk(s)
  }

  // ---- every step keeps it ----

  lemma StepKeepsMutex(s: Table, i: nat)
    requires Sized(s) && MutexOk(s) && i < |s.state| && Enabled(s, i)
    ensures MutexOk(Next(s, i))
  {
    var s' := Next(s, i);
    assert Alone(s, i);
    forall k: nat | k < |s.state|
      ensures Alone(s', k)
    {
      forall j: nat | j < |s.state| && j != k && Critical(s'.pc[k])
        ensures s'.mutex == 0 && !Critical(s'.pc[j])
      {
        assert Alone(s, k) && Alone(s, j);
      }
      assert Alone(s, k);
    }
    if s.pc[i] == Waiting && s.mutex == 0 {
      var j: nat :| j < |s.state| && Critical(s.pc[j]);
      assert Critical(s'.pc[j]);
    } else if s'.mutex == 0 {
      assert Critical(s'.pc[i]);
    }
  }

  lemma StepKeepsPhases(s: Table, i: nat)
    requires Sized(s) && PhasesOk(s) && MutexOk(s) && TokensOk(s) && i < |s.state| && Enabled(s, i)
    ensures PhasesOk(Next(s, i))
  {
    hide Pending;
    assert PhaseOk(s.pc[i], s.state[i]) && TokenOk(s, i) && Alone(s, i);
    Modular(|s.state|, i);
    forall k: nat | k < |s.state|
      ensures PhaseOk(Next(s, i).pc[k], Next(s, i).state[k])
    {
      assert PhaseOk(s.pc[k], s.state[k]);
    }
  }

  lemma StepKeepsApart(s: Table, i: nat)
    requires Sized(s) && AllApart(s.state) && i < |s.state| && Enabled(s, i)
    ensures AllApart(Next(s, i).state)
  {
    var n := |s.state|;
    TestKeepsApart(s.state, i);
    TestKeepsApart(s.state, Left(n, i));
    TestKeepsApart(s.state, Right(n, i));
    OnlyFewerEating(s.state, i, HUNGRY);
    OnlyFewerEating(s.state, i, THINKING);
  }

  /** When i is in its critical section, only i can post or test. */
  lemma OnlyPoster(s: Table, i: nat, k: nat)
    requires Sized(s) && MutexOk(s) && i < |s.state| && k < |s.state|
    ensures Critical(s.pc[i]) ==> (Pending(s, k) <==> Posts(s, i, k)) && (WillTest(s, k) <==> Tests(s, i, k))
    ensures s.mutex > 0 ==> !Pending(s, k) && !WillTest(s, k)
  {
    assert Alone(s, i);
    if Pending(s, k) {
      var j: nat :| j < |s.state| && Posts(s, j, k);
      assert Alone(s, j);
    }
    if WillTest(s, k) {
      var j: nat :| j < |s.state| && Tests(s, j, k);
      assert Alone(s, j);
    }
  }

  /** A step outside the critical section changes nobody's pending post or test. */
  lemma SameOthers(s: Table, i: nat, k: nat)
    requires Sized(s) && i < |s.state| && k < |s.state| && Enabled(s, i) && s.pc[i] == Waiting
    ensures Pending(Next(s, i), k) <==> Pending(s, k)
    ensures WillTest(Next(s, i), k) <==> WillTest(s, k)
  {
    var s' := Next(s, i);
    forall j: nat | j < |s.state|
      ensures Posts(s', j, k) <==> Posts(s, j, k)
      ensures Tests(s', j, k) <==> Tests(s, j, k)
    {
    }
  }

  lemma TokenStep(s: Table, i: nat, k: nat)
    requires Inv(s) && i < |s.state| && k < |s.state| && Enabled(s, i)
    ensures TokenOk(Next(s, i), k)
  {
    hide WillTest, NextToEating, MutexOk, Pending, Next, Enabled;
    var s' := Next(s, i);
    assert TokenOk(s, k) && PhaseOk(s.pc[i], s.state[i]) && PhaseOk(s.pc[k], s.state[k]);
    if s.pc[i] == Waiting {
      SameOthers(s, i, k);
      WaitMovesToken(s, i, k);
    } else {
      StepKeepsMutex(s, i);
      OnlyPoster(s, i, k);
      OnlyPoster(s', i, k);
      OtherMovesToken(s, i, k);
    }
  }

  lemma WaitMovesToken(s: Table, i: nat, k: nat)
    requires Sized(s) && i < |s.state| && k < |s.state| && Enabled(s, i) && s.pc[i] == Waiting && TokenOk(s, k)
    requires Pending(Next(s, i), k) <==> Pending(s, k)
    ensures TokenOk(Next(s, i), k)
  {
    hide Pending;
  }

  lemma OtherMovesToken(s: Table, i: nat, k: nat)
    requires Sized(s) && i < |s.state| && k < |s.state| && Enabled(s, i) && s.pc[i] != Waiting && TokenOk(s, k)
    requires PhaseOk(s.pc[i], s.state[i]) && PhaseOk(s.pc[k], s.state[k])
    requires Critical(s.pc[i]) ==> (Pending(s, k) <==> Posts(s, i, k))
    requires s.mutex > 0 ==> !Pending(s, k)
    requires Critical(Next(s, i).pc[i]) ==> (Pending(Next(s, i), k) <==> Posts(Next(s, i), i, k))
    requires Next(s, i).mutex > 0 ==> !Pending(Next(s, i), k)
    ensures TokenOk(Next(s, i), k)
  {
    hide Pending, NextToEating;
  }

  lemma HungryStep(s: Table, i: nat, k: nat)
    requires Inv(s) && i < |s.state| && k < |s.state| && Enabled(s, i)
    ensures HungryOk(Next(s, i), k)
  {
    hide MutexOk, WillTest, Pending, TokensOk, AllApart, NextToEating, Next, Enabled;
    assert HungryOk(s, k) && PhaseOk(s.pc[i], s.state[i]);
    if s.pc[i] == Waiting {
      SameOthers(s, i, k);
      WaitKeepsPhases(s, i);
    } else {
      StepKeepsMutex(s, i);
      OnlyPoster(s, i, k);
      OnlyPoster(Next(s, i), i, k);
      HungryIsTested(s, i, k);
    }
  }

  lemma WaitKeepsPhases(s: Table, i: nat)
    requires Sized(s) && i < |s.state| && Enabled(s, i) && s.pc[i] == Waiting
    ensures Next(s, i).state == s.state
  {
  }

  lemma HungryIsTested(s: Table, i: nat, k: nat)
    requires Sized(s) && i < |s.state| && k < |s.state| && Enabled(s, i) && s.pc[i] != Waiting && HungryOk(s, k)
    requires PhaseOk(s.pc[i], s.state[i])
    requires Critical(s.pc[i]) ==> (WillTest(s, k) <==> Tests(s, i, k))
    requires s.mutex > 0 ==> !WillTest(s, k)
    requires Critical(Next(s, i).pc[i]) ==> (WillTest(Next(s, i), k) <==> Tests(Next(s, i), i, k))
    requires Next(s, i).mutex > 0 ==> !WillTest(Next(s, i), k)
    ensures HungryOk(Next(s, i), k)
  {
    hide WillTest;
    Modular(|s.state|, k);
    Modular(|s.state|, i);
  }

  lemma StepKeepsInv(s: Table, i: nat)
    requires Inv(s) && i < |s.state| && Enabled(s, i)
    ensures Inv(Next(s, i))
  {
    StepKeepsMutex(s, i);
    StepKeepsPhases(s, i);
    StepKeepsApart(s, i);
    forall k: nat | k < |s.state|
      ensures TokenOk(Next(s, i), k) && HungryOk(Next(s, i), k)
    {
      TokenStep(s, i, k);
      HungryStep(s, i, k);
    }
  }

  lemma StartInv(n: nat)
    requires n >= 2
    ensures Inv(Start(n))
  {
  }

  lemma {:induction false} RunKeepsInv(n: nat, steps: seq<nat>)
    requires n >= 2
    ensures Exec(Start(n), steps).Reached? ==> Inv(Exec(Start(n), steps).s)
    decreases |steps|
  {
    if steps == [] {
      StartInv(n);
    } else {
      RunKeepsInv(n, steps[..|steps| - 1]);
      var before := Exec(Start(n), steps[..|steps| - 1]);
      var i := steps[|steps| - 1];
      if before.Reached? && i < n && Enabled(before.s, i) {
        StepKeepsInv(before.s, i);
      }
    }
  }

  // ---- what it means ----

  /** In no interleaving do two neighbours eat. */
  lemma NoNeighboursEat(n: nat, steps: seq<nat>, i: nat)
    requires n >= 2 && i < n && Exec(Start(n), steps).Reached?
    ensures var s := Exec(Start(n), steps).s;
            s.state[i] == EATING ==> s.state[Left(n, i)] != EATING && s.state[Right(n, i)] != EATING
  {
    RunKeepsInv(n, steps);
    var s := Exec(Start(n), steps).s;
    Modular(n, i);
    assert Apart(s.state, i) && Apart(s.state, Left(n, i));
  }

  /** Whenever the mutex is free, EATING is one token or one philosopher at the table, and a blocked
      HUNGRY philosopher has an EATING neighbour. */
  lemma FreeMutexState(n: nat, steps: seq<nat>, i: nat)
    requires n >= 2 && i < n && Exec(Start(n), steps).Reached? && Exec(Start(n), steps).s.mutex > 0
    ensures var s := Exec(Start(n), steps).s;
            && (s.state[i] == EATING <==> s.sems[i] + Bit(s.pc[i] == Dining) == 1)
            && (s.state[i] != EATING ==> s.sems[i] == 0 && s.pc[i] != Dining)
            && (s.state[i] == HUNGRY ==> s.pc[i] == Waiting && !Enabled(s, i) && NextToEating(s.state, i))
  {
    RunKeepsInv(n, steps);
    var s := Exec(Start(n), steps).s;
    assert Alone(s, i) && TokenOk(s, i) && HungryOk(s, i) && PhaseOk(s.pc[i], s.state[i]);
    OnlyPoster(s, i, i);
  }

  /** In every reachable state some philosopher can take a step. */
  lemma NeverDeadlocks(n: nat, steps: seq<nat>)
    requires n >= 2 && Exec(Start(n), steps).Reached?
    ensures exists i: nat :: i < n && Enabled(Exec(Start(n), steps).s, i)
  {
    RunKeepsInv(n, steps);
    var s := Exec(Start(n), steps).s;
    if s.mutex == 0 {
      var i: nat :| i < |s.state| && Critical(s.pc[i]);
      assert Enabled(s, i);
    } else if !Enabled(s, 0) {
      var l, r := Left(n, 0), Right(n, 0);
      assert Alone(s, 0) && Alone(s, l) && Alone(s, r);
      FreeMutexState(n, steps, 0);
      FreeMutexState(n, steps, l);
      FreeMutexState(n, steps, r);
      assert PhaseOk(s.pc[0], s.state[0]);
      assert s.state[0] == HUNGRY;
      assert Enabled(s, l) || Enabled(s, r);
    }
  }
}

/** The two critical sections as code that updates the arrays, under the mutex. */
module DinnerTable {
  import opened Ring

  predicate Calm(state: seq<Phase>) {
    AllApart(state) && forall k: nat :: k < |state| ==> Waits(state, k)
  }

  predicate Waits(state: seq<Phase>, k: nat)
    requires k < |state|
  {
    state[k] == HUNGRY ==> NextToEating(state, k)
  }

  /** Everybody but these two is calm. */
  predicate CalmBut(state: seq<Phase>, a: nat, b: nat) {
    AllApart(state) && forall k: nat :: k < |state| && k != a && k != b ==> Waits(state, k)
  }

  lemma TestCalms(state: seq<Phase>, a: nat, b: nat)
    requires |state| >= 2 && a < |state| && b < |state| && CalmBut(state, a, b)
    ensures CalmBut(Tested(state, a), b, b)
  {
    TestKeepsApart(state, a);
    var s := Tested(state, a);
    forall k: nat | k < |s| && k != b
      ensures Waits(s, k)
    {
      Modular(|state|, k);
      if k != a {
        assert Waits(state, k);
      }
    }
  }

  lemma MarkedHungry(state: seq<Phase>, i: nat)
    requires i < |state| && Calm(state) && state[i] == THINKING
    ensures CalmBut(state[i := HUNGRY], i, i)
  {
    OnlyFewerEating(state, i, HUNGRY);
    var s := state[i := HUNGRY];
    forall k: nat | k < |s| && k != i
      ensures Waits(s, k)
    {
      assert Waits(state, k);
    }
  }

  lemma MarkedThinking(state: seq<Phase>, i: nat)
    requires i < |state| && Calm(state)
    ensures CalmBut(state[i := THINKING], Left(|state|, i), Right(|state|, i))
  {
    OnlyFewerEating(state, i, THINKING);
    var s := state[i := THINKING];
    forall k: nat | k < |s| && k != Left(|state|, i) && k != Right(|state|, i)
      ensures Waits(s, k)
    {
      assert Waits(state, k);
      Modular(|state|, k);
      Modular(|state|, i);
    }
  }

  /** Semaphore k went up exactly when k began to eat. */
  predicate Woken(was: seq<Phase>, now: seq<Phase>, sems: seq<nat>, sems': seq<nat>) {
    |was| == |now| == |sems| == |sems'| &&
    forall k :: 0 <= k < |was| ==> sems'[k] == sems[k] + if was[k] != EATING && now[k] == EATING then 1 else 0
  }

  class Dinner {
    const n: nat
    const state: array<Phase>
    const sems: array<nat>

    ghost predicate Valid()
      reads this, state, sems
    {
      n >= 2 && state.Length == n && sems.Length == n && state != sems as object
    }

    constructor (n: nat)
      requires n >= 2
      ensures Valid() && this.n == n && fresh(state) && fresh(sems)
      ensures Calm(state[..]) && (forall k :: 0 <= k < n ==> sems[k] == 0 && state[k] == THINKING)
    {
      this.n := n;
      state := new Phase[n](_ => THINKING);
      sems := new nat[n](_ => 0);
    }

    /** test */
    method Test(i: nat)
      requires Valid() && i < n
      modifies state, sems
      ensures state[..] == Tested(old(state[..]), i)
      ensures Woken(old(state[..]), state[..], old(sems[..]), sems[..])
    {
      var left, right := (i + n - 1) % n, (i + 1) % n;
      Modular(n, i);
      if state[i] == HUNGRY && state[left] != EATING && state[right] != EATING {
        state[i] := EATING;
        sems[i] := sems[i] + 1;
      }
    }

    /** pegar_garfo, between the mutex operations. */
    method TakeForks(i: nat)
      requires Valid() && i < n && Calm(state[..]) && state[i] == THINKING
      modifies state, sems
      ensures Calm(state[..]) && state[i] != THINKING
      ensures state[i] == EATING <==> !NextToEating(old(state[..]), i)
      ensures Woken(old(state[..]), state[..], old(sems[..]), sems[..])
      ensures forall k: nat :: k < n && k != i ==> state[k] == old(state[k])
    {
      ghost var was := state[..];
      MarkedHungry(was, i);
      state[i] := HUNGRY;
      assert state[..] == was[i := HUNGRY];
      TestCalms(state[..], i, i);
      Test(i);
      Modular(n, i);
      forall k: nat | k < n && k != i
        ensures state[k] == old(state[k])
      {
        assert state[..][k] == was[k];
      }
    }

    /** por_garfo, between the mutex operations. */
    method PutForks(i: nat)
      requires Valid() && i < n && Calm(state[..]) && state[i] == EATING
      modifies state, sems
      ensures Calm(state[..]) && state[i] == THINKING
      ensures Woken(old(state[..]), state[..], old(sems[..]), sems[..])
      ensures forall k: nat :: k < n && state[k] != old(state[k]) ==>
                k == i || (old(state[k]) == HUNGRY && state[k] == EATING && k in {Left(n, i), Right(n, i)})
    {
      ghost var was := state[..];
      var left, right := (i + n - 1) % n, (i + 1) % n;
      Modular(n, i);
      MarkedThinking(was, i);
      state[i] := THINKING;
      assert state[..] == was[i := THINKING];
      TestCalms(state[..], left, right);
      Test(left);
      TestCalms(state[..], right, right);
      ghost var mid, sems1 := state[..], sems[..];
      Test(right);
      WokenTwice(was, i, mid, state[..], old(sems[..]), sems1, sems[..]);
      forall k: nat | k < n && state[k] != old(state[k])
        ensures k == i || (old(state[k]) == HUNGRY && state[k] == EATING && k in {Left(n, i), Right(n, i)})
      {
        assert state[..][k] != was[k];
      }
      assert Calm(state[..]) by {
        CalmAgain(mid, right);
      }
    }
  }

  lemma WokenTwice(was: seq<Phase>, i: nat, mid: seq<Phase>, now: seq<Phase>, a: seq<nat>, b: seq<nat>, c: seq<nat>)
    requires i < |was| && was[i] == EATING && Woken(was[i := THINKING], mid, a, b) && Woken(mid, now, b, c)
    requires mid == Tested(was[i := THINKING], Left(|was|, i)) && now == Tested(mid, Right(|was|, i))
    ensures Woken(was, now, a, c) && now[i] == THINKING
  {
    Modular(|was|, i);
  }

  lemma CalmAgain(state: seq<Phase>, i: nat)
    requires |state| >= 2 && i < |state| && CalmBut(state, i, i)
    ensures Calm(Tested(state, i))
  {
    TestKeepsApart(state, i);
    var s := Tested(state, i);
    forall k: nat | k < |s|
      ensures Waits(s, k)
    {
      Modular(|state|, k);
      if k != i {
        assert Waits(state, k);
      }
    }
  }
}

/**
 The pipe of xv6/pipe.c: a ring of 512 bytes with 32-bit counters that wrap around.
 */
module PipeBuffer {
  import opened LittleEndian

  const PIPESIZE: nat := 512
  const WORD: nat := 0x1_0000_0000

  /** Everything ever written, and how much of it has been read. */
  datatype Stream = Stream(sent: seq<Byte>, taken: nat)

  predicate StreamOk(s: Stream) {
    s.taken <= |s.sent| <= s.taken + PIPESIZE
  }

  function Held(s: Stream): nat
    requires StreamOk(s)
  {
    |s.sent| - s.taken
  }

  predicate IsEmpty(s: Stream) {
    s.taken == |s.sent|
  }

  predicate IsFull(s: Stream) {
    |s.sent| == s.taken + PIPESIZE
  }

  function Min(a: nat, b: nat): nat {
    if a < b then a else b
  }

  /** Positions of the ring follow the true counts, although the counters wrap: PIPESIZE divides 2^32. */
  lemma RingIndex(n: nat)
    ensures n % WORD % PIPESIZE == n % PIPESIZE
  {
    var q, r := n / WORD, n % WORD;
    assert n == (q * 0x80_0000 + r / PIPESIZE) * PIPESIZE + r % PIPESIZE;
    Remainder(q * 0x80_0000 + r / PIPESIZE, r % PIPESIZE);
  }

  lemma Remainder(q: nat, r: nat)
    requires r < PIPESIZE
    ensures (q * PIPESIZE + r) % PIPESIZE == r
  {
  }

  lemma NextCount(n: nat)
    ensures (n % WORD + 1) % WORD == (n + 1) % WORD
  {
  }

  /** Comparing wrapped counters is comparing the counts, because they are never further apart than the ring. */
  lemma CountersCompare(taken: nat, sent: nat)
    requires taken <= sent <= taken + PIPESIZE
    ensures taken % WORD == sent % WORD <==> taken == sent
    ensures sent % WORD == (taken % WORD + PIPESIZE) % WORD <==> sent == taken + PIPESIZE
  {
    assert taken == taken / WORD * WORD + taken % WORD && sent == sent / WORD * WORD + sent % WORD;
    var d := sent - taken;
    assert sent % WORD == (taken % WORD + d) % WORD;
  }

  /** Different counts at most a ring apart are at different places of the ring. */
  lemma RingPlaces(a: nat, b: nat)
    requires a < b < a + PIPESIZE
    ensures a % PIPESIZE != b % PIPESIZE
  {
  }

  /** How a call leaves the pipe's lock: returning a value, or asleep to try again. */
  datatype Outcome = Returned(value: int) | Asleep

  class Pipe {
    const data: array<Byte>
    var nread: nat
    var nwrite: nat
    var readopen: bool
    var writeopen: bool
    ghost var s: Stream

    ghost predicate Valid()
      reads this, data
    {
      && data.Length == PIPESIZE
      && StreamOk(s)
      && nread == s.taken % WORD && nwrite == |s.sent| % WORD
      && forall k :: s.taken <= k < |s.sent| ==> data[k % PIPESIZE] == s.sent[k]
    }

    /** pipealloc: an empty pipe, both ends open. */
    constructor ()
      ensures Valid() && fresh(data) && s == Stream([], 0) && readopen && writeopen
    {
      data := new Byte[PIPESIZE](i => 0);
      nread, nwrite, readopen, writeopen := 0, 0, true, true;
      s := Stream([], 0);
    }

    /** The copy loop of pipewrite, from byte i on: it stops when all is written or the ring is full. */
    method Fill(src: seq<Byte>, i: nat) returns (j: nat)
      requires Valid() && i <= |src|
      modifies this`nwrite, this`s, data
      ensures Valid() && i <= j <= |src| && (j == |src| || IsFull(s))
      ensures s == Stream(old(s).sent + src[i..j], old(s).taken)
      ensures j - i == Min(|src| - i, PIPESIZE - Held(old(s)))
    {
      j := i;
      assert src[i..j] == [];
      CountersCompare(s.taken, |s.sent|);
      while j < |src| && nwrite != (nread + PIPESIZE) % WORD
        invariant i <= j <= |src| && Valid() && s == Stream(old(s).sent + src[i..j], old(s).taken)
        invariant nwrite == (nread + PIPESIZE) % WORD <==> IsFull(s)
      {
        Store(src[j]);
        assert src[i..j] + [src[j]] == src[i..j + 1];
        j := j + 1;
        CountersCompare(s.taken, |s.sent|);
      }
    }

    /** One byte into the ring. */
    method Store(x: Byte)
      requires Valid() && !IsFull(s)
      modifies this`nwrite, this`s, data
      ensures Valid() && s == Stream(old(s).sent + [x], old(s).taken)
    {
      ghost var n := |s.sent|;
      RingIndex(n);
      NextCount(n);
      forall k | s.taken <= k < n ensures k % PIPESIZE != n % PIPESIZE {
        RingPlaces(k, n);
      }
      data[nwrite % PIPESIZE] := x;
      nwrite := (nwrite + 1) % WORD;
      s := Stream(s.sent + [x], s.taken);
    }

    /** The copy loop of piperead: the oldest bytes, in order, at most n of them. */
    method Drain(n: nat) returns (out: seq<Byte>)
      requires Valid()
      modifies this`nread, this`s
      ensures Valid() && |out| == Min(n, Held(old(s)))
      ensures s == Stream(old(s).sent, old(s).taken + |out|) && out == s.sent[old(s).taken..s.taken]
    {
      out := [];
      CountersCompare(s.taken, |s.sent|);
      while |out| < n && nread != nwrite
        invariant Valid() && |out| <= n && s == Stream(old(s).sent, old(s).taken + |out|)
        invariant out == s.sent[old(s).taken..s.taken]
        invariant nread == nwrite <==> IsEmpty(s)
      {
        RingIndex(s.taken);
        NextCount(s.taken);
        out := out + [data[nread % PIPESIZE]];
        nread := (nread + 1) % WORD;
        s := Stream(s.sent, s.taken + 1);
        CountersCompare(s.taken, |s.sent|);
      }
    }

    /** pipewrite from acquiring the lock, with i bytes already written, to releasing it or going to sleep. */
    method WriteSection(src: seq<Byte>, i: nat, killed: bool) returns (r: Outcome, j: nat, wakeReaders: bool)
      requires Valid() && i <= |src|
      modifies this`nwrite, this`s, data
      ensures Valid() && i <= j <= |src| && s == Stream(old(s).sent + src[i..j], old(s).taken)
      ensures j - i == Min(|src| - i, PIPESIZE - Held(old(s)))
      ensures r == if j == |src| then Returned(|src|) else if !readopen || killed then Returned(-1) else Asleep
      ensures wakeReaders <==> r != Returned(-1)
    {
      j := Fill(src, i);
      if j < |src| {
        if !readopen || killed {
          return Returned(-1), j, false;
        }
        return Asleep, j, true;
      }
      return Returned(|src|), j, true;
    }

    /** piperead from acquiring the lock to releasing it or going to sleep. */
    method ReadSection(n: nat, killed: bool) returns (r: Outcome, out: seq<Byte>, wakeWriters: bool)
      requires Valid()
      modifies this`nread, this`s
      ensures Valid() && s == Stream(old(s).sent, old(s).taken + |out|) && out == s.sent[old(s).taken..s.taken]
      ensures IsEmpty(old(s)) && writeopen ==>
                r == (if killed then Returned(-1) else Asleep) && out == [] && !wakeWriters
      ensures !(IsEmpty(old(s)) && writeopen) ==>
                r == Returned(Min(n, Held(old(s)))) && |out| == Min(n, Held(old(s))) && wakeWriters
    {
      CountersCompare(s.taken, |s.sent|);
      if nread == nwrite && writeopen {
        return if killed then Returned(-1) else Asleep, [], false;
      }
      out := Drain(n);
      return Returned(|out|), out, true;
    }
  }
}

/**
 Processes around one pipe (xv6/pipe.c with sleep and wakeup of xv6/proc.c).

 The pipe's lock makes each stretch of code between acquiring it and releasing it,
 or going to sleep, one atomic step: sleep() takes the process table lock before it
 lets go of the pipe's lock, and every wakeup of the pipe is called with the pipe's
 lock held.
 */
module PipeProtocol {
  import opened LittleEndian
  import opened PipeBuffer

  datatype Proc =
    | Idle
    | Writing(src: seq<Byte>, i: nat)        // about to acquire the lock in pipewrite, i bytes done
    | AsleepOnNwrite(src: seq<Byte>, i: nat)
    | Reading(n: nat)                        // about to acquire the lock in piperead
    | AsleepOnNread(n: nat)

  /** `out` is the history of all bytes returned by piperead, in the order of the reads. */
  datatype State = State(
    s: Stream, readopen: bool, writeopen: bool, procs: map<nat, Proc>, killed: set<nat>, out: seq<Byte>)

  datatype Step =
    | StartWrite(p: nat, src: seq<Byte>)
    | StartRead(p: nat, n: nat)
    | RunWrite(p: nat)
    | RunRead(p: nat)
    | CloseWrite
    | CloseRead
    | Kill(p: nat)

  /** wakeup(&p->nread) and wakeup(&p->nwrite) */
  function WakeReaders(procs: map<nat, Proc>): map<nat, Proc> {
    map p | p in procs :: if procs[p].AsleepOnNread? then Reading(procs[p].n) else procs[p]
  }

  function WakeWriters(procs: map<nat, Proc>): map<nat, Proc> {
    map p | p in procs :: if procs[p].AsleepOnNwrite? then Writing(procs[p].src, procs[p].i) else procs[p]
  }

  predicate UsesWriteEnd(q: Proc) {
    q.Writing? || q.AsleepOnNwrite?
  }

  predicate UsesReadEnd(q: Proc) {
    q.Reading? || q.AsleepOnNread?
  }

  /** An end is closed when its last file reference goes; a process inside a call still holds one. */
  predicate Enabled(st: State, step: Step) {
    match step
    case StartWrite(p, src) => p in st.procs && st.procs[p].Idle? && st.writeopen
    case StartRead(p, n) => p in st.procs && st.procs[p].Idle? && st.readopen
    case RunWrite(p) => p in st.procs && st.procs[p].Writing? && st.procs[p].i <= |st.procs[p].src|
    case RunRead(p) => p in st.procs && st.procs[p].Reading?
    case CloseWrite => st.writeopen && forall p :: p in st.procs ==> !UsesWriteEnd(st.procs[p])
    case CloseRead => st.readopen && forall p :: p in st.procs ==> !UsesReadEnd(st.procs[p])
    case Kill(p) => p in st.procs
  }

  function Written(s: Stream, src: seq<Byte>, i: nat): nat
    requires StreamOk(s) && i <= |src|
  {
    Min(|src| - i, PIPESIZE - Held(s))
  }

  function Next(st: State, step: Step): State
    requires Enabled(st, step) && StreamOk(st.s)
  {
    match step
    case StartWrite(p, src) => st.(procs := st.procs[p := Writing(src, 0)])
    case StartRead(p, n) => st.(procs := st.procs[p := Reading(n)])
    case RunWrite(p) =>
      var q := st.procs[p];
      var k := Written(st.s, q.src, q.i);
      var st' := st.(s := Stream(st.s.sent + q.src[q.i..q.i + k], st.s.taken));
      if q.i + k == |q.src| then st'.(procs := WakeReaders(st.procs)[p := Idle])
      else if !st.readopen || p in st.killed then st'.(procs := st.procs[p := Idle])
      else st'.(procs := WakeReaders(st.procs)[p := AsleepOnNwrite(q.src, q.i + k)])
    case RunRead(p) =>
      var q := st.procs[p];
      if IsEmpty(st.s) && st.writeopen then
        st.(procs := st.procs[p := if p in st.killed then Idle else AsleepOnNread(q.n)])
      else
        var k := Min(q.n, Held(st.s));
        st.(s := Stream(st.s.sent, st.s.taken + k),
            out := st.out + st.s.sent[st.s.taken..st.s.taken + k],
            procs := WakeWriters(st.procs)[p := Idle])
    case CloseWrite => st.(writeopen := false, procs := WakeReaders(st.procs))
    case CloseRead => st.(readopen := false, procs := WakeWriters(st.procs))
    case Kill(p) =>
      var q := st.procs[p];
      st.(killed := st.killed + {p},
          procs := st.procs[p := if q.AsleepOnNread? then Reading(q.n)
                                 else if q.AsleepOnNwrite? then Writing(q.src, q.i) else q])
  }

  // ---- invariants

  /** Bytes come out in the order they went in, each exactly once; who is inside a call has its end open. */
  ghost predicate Inv(st: State) {
    && StreamOk(st.s)
    && st.out == st.s.sent[..st.s.taken]
    && (forall p :: p in st.procs && UsesWriteEnd(st.procs[p]) ==> st.writeopen && st.procs[p].i <= |st.procs[p].src|)
    && (forall p :: p in st.procs && UsesReadEnd(st.procs[p]) ==> st.readopen)
  }

  /** Nobody sleeps who should not: readers only on an empty pipe, writers only on a full one, other end open. */
  ghost predicate Awake(st: State) {
    && (forall p :: p in st.procs && st.procs[p].AsleepOnNread? ==> IsEmpty(st.s) && st.writeopen)
    && (forall p :: p in st.procs && st.procs[p].AsleepOnNwrite? ==> IsFull(st.s) && st.readopen)
  }

  lemma StepKeepsInv(st: State, step: Step)
    requires Inv(st) && Enabled(st, step)
    ensures Inv(Next(st, step))
  {
    var st' := Next(st, step);
    if step.RunRead? && !(IsEmpty(st.s) && st.writeopen) {
      var k := Min(st.procs[step.p].n, Held(st.s));
      assert st.s.sent[..st.s.taken] + st.s.sent[st.s.taken..st.s.taken + k] == st.s.sent[..st.s.taken + k];
    }
    if step.RunWrite? {
      assert st'.s.sent[..st.s.taken] == st.s.sent[..st.s.taken];
    }
  }

  /** A killed writer that gives up on a pipe it has just filled, while readers sleep. */
  ghost predicate LosesWakeup(st: State, step: Step)
    requires Inv(st) && Enabled(st, step)
  {
    && step.RunWrite? && step.p in st.killed
    && Written(st.s, st.procs[step.p].src, st.procs[step.p].i) < |st.procs[step.p].src| - st.procs[step.p].i
    && exists p :: p in st.procs && st.procs[p].AsleepOnNread?
  }

  /** Every step keeps all sleepers justified, except exactly that one. */
  lemma StepKeepsAwake(st: State, step: Step)
    requires Inv(st) && Awake(st) && Enabled(st, step)
    ensures Awake(Next(st, step)) <==> !LosesWakeup(st, step)
  {
    var st' := Next(st, step);
    if step.RunWrite? && LosesWakeup(st, step) {
      var p :| p in st.procs && st.procs[p].AsleepOnNread?;
      assert st'.procs[p].AsleepOnNread?;
    }
  }

  // ---- runs

  predicate Initial(st: State) {
    && st.s == Stream([], 0) && st.readopen && st.writeopen && st.out == [] && st.killed == {}
    && forall p :: p in st.procs ==> st.procs[p].Idle?
  }

  datatype Result = Stuck | Reached(state: State)

  ghost function Exec(st: State, steps: seq<Step>): Result {
    if steps == [] then Reached(st)
    else
      var r := Exec(st, steps[..|steps| - 1]);
      var step := steps[|steps| - 1];
      if r.Reached? && Enabled(r.state, step) && StreamOk(r.state.s) then Reached(Next(r.state, step)) else Stuck
  }

  /** In every run, what has been read is a prefix of what has been written, and the rest is in the ring. */
  lemma {:induction false} BytesInOrder(st: State, steps: seq<Step>)
    requires Initial(st) && Exec(st, steps).Reached?
    ensures Inv(Exec(st, steps).state)
    ensures var st' := Exec(st, steps).state;
      st'.out <= st'.s.sent && |st'.s.sent| - |st'.out| <= PIPESIZE
  {
    if steps != [] {
      BytesInOrder(st, steps[..|steps| - 1]);
      StepKeepsInv(Exec(st, steps[..|steps| - 1]).state, steps[|steps| - 1]);
    }
  }

  ghost predicate NoKill(steps: seq<Step>) {
    forall i :: 0 <= i < |steps| ==> !steps[i].Kill?
  }

  /** In every run without kill no wakeup is lost, so a reader and a writer never sleep at the same time. */
  lemma {:induction false} NoLostWakeup(st: State, steps: seq<Step>)
    requires Initial(st) && NoKill(steps) && Exec(st, steps).Reached?
    ensures var st' := Exec(st, steps).state;
      && st'.killed == {} && Awake(st')
      && forall p, q :: p in st'.procs && q in st'.procs && st'.procs[p].AsleepOnNread? ==>
         !st'.procs[q].AsleepOnNwrite?
  {
    if steps != [] {
      var front := steps[..|steps| - 1];
      NoLostWakeup(st, front);
      BytesInOrder(st, front);
      StepKeepsAwake(Exec(st, front).state, steps[|steps| - 1]);
      assert !steps[|steps| - 1].Kill?;
    }
  }

  lemma ExecNext(st: State, steps: seq<Step>, step: Step)
    requires Exec(st, steps).Reached? && Enabled(Exec(st, steps).state, step) && StreamOk(Exec(st, steps).state.s)
    ensures Exec(st, steps + [step]) == Reached(Next(Exec(st, steps).state, step))
  {
    assert (steps + [step])[..|steps|] == steps;
  }

  /** With kill the guarantee fails: a run in which a reader sleeps although the pipe is full. */
  lemma KilledWriterLosesWakeup(src: seq<Byte>) returns (steps: seq<Step>)
    requires |src| == PIPESIZE + 1
    ensures var st := State(Stream([], 0), true, true, map[0 := Idle, 1 := Idle], {}, []);
      && Initial(st) && Exec(st, steps).Reached?
      && var st' := Exec(st, steps).state;
         0 in st'.procs && st'.procs[0].AsleepOnNread? && IsFull(st'.s)
  {
    var st := State(Stream([], 0), true, true, map[0 := Idle, 1 := Idle], {}, []);
    steps := [];
    ExecNext(st, steps, StartRead(0, 1));
    steps := steps + [StartRead(0, 1)];
    ExecNext(st, steps, RunRead(0));
    steps := steps + [RunRead(0)];
    ExecNext(st, steps, Kill(1));
    steps := steps + [Kill(1)];
    ExecNext(st, steps, StartWrite(1, src));
    steps := steps + [StartWrite(1, src)];
    ExecNext(st, steps, RunWrite(1));
    steps := steps + [RunWrite(1)];
  }
}

/**
 The redo log of xv6 (xv6/log.c) as a step system.

 One step is one atomic event: an operation begins, logs a block or ends; the
 committing process or the recovery code writes one disk block; or the machine
 loses power. Any run is a sequence of such steps, so "for every run" covers all
 interleavings of operations and a crash between any two block writes,
 including crashes during recovery.
 */
module LogModel {
  import opened Sequences

  const MAXOPBLOCKS: nat := 10
  const LOGSIZE: nat := 30
  const WORDS: nat := 128

  /** A disk block, as BSIZE / sizeof(int) words. */
  type Block = b: seq<nat> | |b| == WORDS witness seq(WORDS, i => 0)
  type Disk = seq<Block>

  /** Contents of the blocks outside the log: what the file system stores. */
  type Files = map<nat, Block>

  /** log.start and log.size: block `start` is the header, the rest hold log data. */
  datatype Layout = Layout(start: nat, size: nat)

  predicate InLog(l: Layout, b: nat) {
    l.start <= b < l.start + l.size
  }

  predicate Fits(l: Layout, d: Disk) {
    1 <= l.size && l.start + l.size <= |d|
  }

  predicate IsHome(l: Layout, d: Disk, b: nat) {
    b < |d| && !InLog(l, b)
  }

  /** A list of block numbers that fits in the log and names home blocks once each. */
  predicate HeaderOk(l: Layout, d: Disk, lh: seq<nat>) {
    && |lh| <= LOGSIZE
    && |lh| < l.size
    && Distinct(lh)
    && forall i :: 0 <= i < |lh| ==> IsHome(l, d, lh[i])
  }

  // ---- the on-disk header: word 0 is n, words 1..n are block numbers

  function DecodeHeader(b: Block): seq<nat> {
    if b[0] < WORDS then b[1..1 + b[0]] else []
  }

  /** write_head overwrites n and the first n entries; later words keep their old contents. */
  function EncodeHeader(old_: Block, lh: seq<nat>): Block
    requires |lh| < WORDS
  {
    [|lh|] + lh + old_[1 + |lh|..]
  }

  function Header(l: Layout, d: Disk): seq<nat>
    requires Fits(l, d)
  {
    DecodeHeader(d[l.start])
  }

  predicate DiskOk(l: Layout, d: Disk) {
    && Fits(l, d)
    && d[l.start][0] < WORDS
    && HeaderOk(l, d, Header(l, d))
  }

  // ---- what a disk means

  function Home(l: Layout, d: Disk): Files {
    map b | 0 <= b < |d| && !InLog(l, b) :: d[b]
  }

  /** The logged blocks named by `lh`, under their home block numbers. */
  ghost function Logged(l: Layout, d: Disk, lh: seq<nat>): Files
    requires Fits(l, d) && HeaderOk(l, d, lh)
  {
    map i | 0 <= i < |lh| :: lh[i] := d[l.start + 1 + i]
  }

  /** The file contents that recovery would produce from this disk. */
  ghost function Recovered(l: Layout, d: Disk): Files
    requires DiskOk(l, d)
  {
    Home(l, d) + Logged(l, d, Header(l, d))
  }

  // ---- what operations wrote

  datatype Write = Write(op: nat, block: nat, data: Block)

  ghost function Replay(m: Files, ws: seq<Write>): Files {
    if ws == [] then m
    else
      var w := ws[|ws| - 1];
      Replay(m, ws[..|ws| - 1])[w.block := w.data]
  }

  ghost function Flatten(gs: seq<seq<Write>>): seq<Write> {
    if gs == [] then [] else Flatten(gs[..|gs| - 1]) + gs[|gs| - 1]
  }

  /** The writes of one operation, in order. */
  ghost function WritesOf(ws: seq<Write>, op: nat): seq<Write> {
    if ws == [] then []
    else
      var w := ws[|ws| - 1];
      WritesOf(ws[..|ws| - 1], op) + (if w.op == op then [w] else [])
  }

  // ---- states

  datatype Phase =
    | Running              // no commit and no recovery in progress
    | LogBlocks(tail: nat) // write_log: blocks before tail are in the log
    | CommitHead           // about to write the header that commits
    | Install(tail: nat)   // install_trans: blocks before tail are at home
    | Erase                // about to write the empty header
    | Finish               // commit done, committing flag still set
    | ReadHead             // just booted
    | RecoverInstall(tail: nat)
    | RecoverErase

  /** An open operation and how many new block numbers it added to the log. */
  datatype Op = Op(id: nat, added: nat)

  /**
   `disk` survives a crash; `cache` (the pinned dirty buffers), `lh`,
   `outstanding`, `committing` and `phase` are memory. The last four fields are
   history: the committed groups, the writes of the open group, every write ever
   made, and the next operation id.
   */
  datatype State = State(
    disk: Disk,
    cache: Files,
    lh: seq<nat>,
    outstanding: seq<Op>,
    committing: bool,
    phase: Phase,
    groups: seq<seq<Write>>,
    cur: seq<Write>,
    issued: seq<Write>,
    nextId: nat)

  predicate Recovering(s: State) {
    s.phase.ReadHead? || s.phase.RecoverInstall? || s.phase.RecoverErase?
  }

  // ---- steps

  datatype Step =
    | BeginOp
    | LogWrite(i: nat, block: nat, data: Block) // by the i-th open operation
    | EndOp(i: nat)
    | Advance                                   // commit or recovery, up to its next block write
    | Crash

  /** The condition under which begin_op does not sleep. */
  predicate HasRoom(lh: seq<nat>, outstanding: nat) {
    |lh| + (outstanding + 1) * MAXOPBLOCKS <= LOGSIZE
  }

  /** The first test of log_write: "too big a transaction". */
  predicate LogFull(l: Layout, lh: seq<nat>) {
    |lh| >= LOGSIZE || |lh| >= l.size - 1
  }

  /** log_write is called inside an operation, for a home block. */
  predicate InOperation(l: Layout, s: State, i: nat, b: nat) {
    i < |s.outstanding| && IsHome(l, s.disk, b)
  }

  predicate Enabled(l: Layout, s: State, step: Step) {
    match step
    case BeginOp => !Recovering(s) && !s.committing && HasRoom(s.lh, |s.outstanding|)
    case LogWrite(i, b, data) => InOperation(l, s, i, b) && !LogFull(l, s.lh)
    case EndOp(i) => i < |s.outstanding| && !s.committing
    case Advance => CanAdvance(l, s)
    case Crash => true
  }

  /** Commit and recovery can go on; the conditions only say that the C indexing is in range. */
  predicate CanAdvance(l: Layout, s: State) {
    && Fits(l, s.disk)
    && |s.lh| < WORDS
    && match s.phase
       case Running => false
       case LogBlocks(t) => t < |s.lh| && s.lh[t] < |s.disk| && l.start + 1 + t < |s.disk|
       case Install(t) => t < |s.lh| && s.lh[t] < |s.disk| && l.start + 1 + t < |s.disk|
       case RecoverInstall(t) => t < |s.lh| && s.lh[t] < |s.disk| && l.start + 1 + t < |s.disk|
       case _ => true
  }

  /** bread: the pinned buffer if there is one, the disk block otherwise. */
  function Read(d: Disk, cache: Files, b: nat): Block
    requires b < |d|
  {
    if b in cache then cache[b] else d[b]
  }

  function AddBlock(lh: seq<nat>, b: nat): seq<nat> {
    if b in lh then lh else lh + [b]
  }

  function Next(l: Layout, s: State, step: Step): State
    requires Enabled(l, s, step)
  {
    match step
    case BeginOp =>
      s.(outstanding := s.outstanding + [Op(s.nextId, 0)], nextId := s.nextId + 1)
    case LogWrite(i, b, data) =>
      var op := s.outstanding[i];
      var w := Write(op.id, b, data);
      s.(lh := AddBlock(s.lh, b),
         cache := s.cache[b := data],
         outstanding := s.outstanding[i := Op(op.id, if b in s.lh then op.added else op.added + 1)],
         cur := s.cur + [w],
         issued := s.issued + [w])
    case EndOp(i) =>
      var rest := Without(s.outstanding, i);
      if rest == [] then
        s.(outstanding := rest, committing := true, phase := if s.lh == [] then Finish else LogBlocks(0))
      else
        s.(outstanding := rest)
    case Advance => NextAdvance(l, s)
    case Crash => Boot(s)
  }

  /** Losing power: only the disk (and the history) survives. */
  function Boot(s: State): State {
    s.(cache := map[], lh := [], outstanding := [], committing := false, phase := ReadHead, cur := [])
  }

  function NextAdvance(l: Layout, s: State): State
    requires CanAdvance(l, s)
  {
    match s.phase
    case LogBlocks(t) =>
      s.(disk := s.disk[l.start + 1 + t := Read(s.disk, s.cache, s.lh[t])],
         phase := if t + 1 == |s.lh| then CommitHead else LogBlocks(t + 1))
    case CommitHead =>
      s.(disk := s.disk[l.start := EncodeHeader(s.disk[l.start], s.lh)],
         phase := if s.lh == [] then Erase else Install(0),
         groups := s.groups + [s.cur],
         cur := [])
    case Install(t) =>
      var b := s.lh[t];
      // bwrite clears B_DIRTY, which unpins the buffer
      s.(disk := s.disk[b := s.disk[l.start + 1 + t]],
         cache := s.cache - {b},
         phase := if t + 1 == |s.lh| then Erase else Install(t + 1))
    case Erase =>
      s.(disk := s.disk[l.start := EncodeHeader(s.disk[l.start], [])], lh := [], phase := Finish)
    case Finish =>
      s.(committing := false, phase := Running)
    case ReadHead =>
      var lh := Header(l, s.disk);
      s.(lh := lh, phase := if lh == [] then RecoverErase else RecoverInstall(0))
    case RecoverInstall(t) =>
      s.(disk := s.disk[s.lh[t] := s.disk[l.start + 1 + t]],
         phase := if t + 1 == |s.lh| then RecoverErase else RecoverInstall(t + 1))
    case RecoverErase =>
      s.(disk := s.disk[l.start := EncodeHeader(s.disk[l.start], [])], lh := [], phase := Running)
  }

  // ---- runs

  /** The machine at its first boot from disk `d`. */
  function Initial(d: Disk): State {
    State(d, map[], [], [], false, ReadHead, [], [], [], 0)
  }

  datatype Outcome = Stuck | Reached(state: State)

  /** Where a sequence of steps leads, or Stuck if one of them is not enabled when its turn comes. */
  ghost function Exec(l: Layout, s: State, steps: seq<Step>): Outcome {
    if steps == [] then Reached(s)
    else
      var before := Exec(l, s, steps[..|steps| - 1]);
      var step := steps[|steps| - 1];
      if before.Reached? && Enabled(l, before.state, step)
      then Reached(Next(l, before.state, step))
      else Stuck
  }

  // ---- the budget of an operation

  /** The write adds no block number to the log, or one that its operation still has in its budget. */
  predicate WithinBudget(s: State, i: nat, b: nat)
    requires i < |s.outstanding|
  {
    b in s.lh || s.outstanding[i].added < MAXOPBLOCKS
  }

  predicate StepInBudget(l: Layout, s: State, step: Step)
    requires Enabled(l, s, step)
  {
    step.LogWrite? ==> WithinBudget(s, step.i, step.block)
  }

  /**
   No operation of the run adds more than MAXOPBLOCKS block numbers. The kernel does not check this,
   and only the results on log space need it.
   */
  ghost predicate RunInBudget(l: Layout, s: State, steps: seq<Step>) {
    steps == [] ||
    (var front, step := steps[..|steps| - 1], steps[|steps| - 1];
     RunInBudget(l, s, front) &&
     (Exec(l, s, front).Reached? && Enabled(l, Exec(l, s, front).state, step) ==>
        StepInBudget(l, Exec(l, s, front).state, step)))
  }
}

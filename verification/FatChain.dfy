/**
 Cluster chains in a FAT, on the table alone: what allocating and freeing clusters
 does to the chains of all files.
 */
module FatChain {
  import opened Sequences

  /** Cluster numbers start at 2; a free cluster has entry 0. */
  predicate IsCluster(fat: seq<nat>, c: nat) {
    2 <= c < |fat|
  }

  predicate IsFree(fat: seq<nat>, c: nat) {
    c < |fat| && fat[c] == 0
  }

  predicate FreeRun(fat: seq<nat>, bgn: nat, n: nat) {
    2 <= bgn && bgn + n <= |fat| && forall c :: bgn <= c < bgn + n ==> IsFree(fat, c)
  }

  /** No n consecutive free clusters lie between lo and hi. */
  ghost predicate NoRun(fat: seq<nat>, lo: nat, hi: nat, n: nat) {
    forall s :: lo <= s && s + n <= hi ==> HasUsed(fat, s, n)
  }

  ghost predicate HasUsed(fat: seq<nat>, s: nat, n: nat) {
    exists c :: s <= c < s + n && !IsFree(fat, c)
  }

  // ---- chains

  /** Each cluster's entry is the next cluster. */
  predicate IsWalk(fat: seq<nat>, path: seq<nat>) {
    && (forall i :: 0 <= i < |path| ==> IsCluster(fat, path[i]))
    && (forall i :: 0 <= i < |path| - 1 ==> Links(fat, path, i))
  }

  predicate Links(fat: seq<nat>, path: seq<nat>, i: nat)
    requires i + 1 < |path|
  {
    path[i] < |fat| && fat[path[i]] == path[i + 1]
  }

  /** A chain: an acyclic walk whose last entry is an end mark. */
  predicate IsChain(fat: seq<nat>, eoc: nat, ch: seq<nat>) {
    && ch != []
    && IsWalk(fat, ch)
    && Distinct(ch)
    && fat[ch[|ch| - 1]] >= eoc
  }

  predicate DisjointChains(a: seq<nat>, b: seq<nat>) {
    forall c :: c in a ==> c !in b
  }

  /** All files of the volume: chains, no cluster in two of them. */
  ghost predicate FilesOk(fat: seq<nat>, eoc: nat, files: seq<seq<nat>>) {
    && (forall f :: 0 <= f < |files| ==> IsChain(fat, eoc, files[f]))
    && (forall f, g :: 0 <= f < g < |files| ==> DisjointChains(files[f], files[g]))
  }

  /** Walks from the same cluster agree as far as both go, so a cluster has at most one chain. */
  lemma {:induction false} WalksAgree(fat: seq<nat>, a: seq<nat>, b: seq<nat>, k: nat)
    requires IsWalk(fat, a) && IsWalk(fat, b) && k < |a| && k < |b| && a[0] == b[0]
    ensures a[k] == b[k]
  {
    if k > 0 {
      WalksAgree(fat, a, b, k - 1);
      assert Links(fat, a, k - 1) && Links(fat, b, k - 1);
    }
  }

  /** A chain that does not meet the changed clusters is still a chain. */
  lemma ChainFrame(fat: seq<nat>, fat': seq<nat>, eoc: nat, ch: seq<nat>)
    requires IsChain(fat, eoc, ch) && |fat| == |fat'| && forall c :: c in ch ==> fat'[c] == fat[c]
    ensures IsChain(fat', eoc, ch)
  {
    forall i | 0 <= i < |ch| ensures IsCluster(fat', ch[i]) {
    }
    forall i | 0 <= i < |ch| - 1 ensures Links(fat', ch, i) {
      assert Links(fat, ch, i) && ch[i] in ch;
    }
  }

  /** The clusters of a chain are all in use. */
  lemma ChainInUse(fat: seq<nat>, eoc: nat, ch: seq<nat>, c: nat)
    requires IsChain(fat, eoc, ch) && 1 <= eoc && c in ch
    ensures IsCluster(fat, c) && !IsFree(fat, c)
  {
    var i :| 0 <= i < |ch| && ch[i] == c;
    if i < |ch| - 1 {
      assert Links(fat, ch, i);
      assert IsCluster(fat, ch[i + 1]);
    }
  }

  // ---- allocation

  function Run(bgn: nat, n: nat): seq<nat> {
    seq(n, i => bgn + i)
  }

  /** The clusters bgn .. bgn + n - 1 linked in ascending order to the end mark. */
  function LinkRun(fat: seq<nat>, bgn: nat, n: nat, mark: nat): seq<nat> {
    seq(|fat|, c requires 0 <= c < |fat| =>
      if bgn <= c < bgn + n - 1 then c + 1 else if c == bgn + n - 1 then mark else fat[c])
  }

  lemma LinkRunOne(fat: seq<nat>, last: nat, mark: nat)
    requires last < |fat|
    ensures LinkRun(fat, last, 1, mark) == fat[last := mark]
  {
  }

  lemma LinkRunStep(fat: seq<nat>, bgn: nat, n: nat, mark: nat)
    requires 1 <= bgn && 1 <= n && bgn + n <= |fat|
    ensures LinkRun(fat, bgn, n, mark)[bgn - 1 := bgn] == LinkRun(fat, bgn - 1, n + 1, mark)
  {
  }

  /** Entries that are in use are what they were. */
  ghost predicate UsedKept(fat: seq<nat>, fat': seq<nat>) {
    |fat'| == |fat| && forall c :: 0 <= c < |fat| && !IsFree(fat, c) ==> fat'[c] == fat[c]
  }

  lemma LinkRunKeepsUsed(fat: seq<nat>, bgn: nat, n: nat, k: nat, mark: nat)
    requires FreeRun(fat, bgn, n) && k < n
    ensures UsedKept(fat, LinkRun(fat, bgn + k, n - k, mark))
  {
    forall c | 0 <= c < |fat| && !IsFree(fat, c) ensures LinkRun(fat, bgn + k, n - k, mark)[c] == fat[c] {
      assert c < bgn || bgn + n <= c;
    }
  }

  /** The table after allocContiguous: the new run, linked after cluster `cur` unless that is 0. */
  function Allocate(fat: seq<nat>, cur: nat, bgn: nat, n: nat, mark: nat): seq<nat>
    requires cur == 0 || cur < |fat|
  {
    var linked := LinkRun(fat, bgn, n, mark);
    if cur == 0 then linked else linked[cur := bgn]
  }

  /** The new run is a chain of its own. */
  lemma NewRunIsChain(fat: seq<nat>, fat': seq<nat>, eoc: nat, bgn: nat, n: nat, mark: nat)
    requires FreeRun(fat, bgn, n) && 1 <= n && eoc <= mark && |fat'| == |fat|
    requires forall c :: bgn <= c < bgn + n ==> fat'[c] == LinkRun(fat, bgn, n, mark)[c]
    ensures IsChain(fat', eoc, Run(bgn, n))
  {
    var ch := Run(bgn, n);
    forall i | 0 <= i < |ch| - 1 ensures Links(fat', ch, i) {
      assert ch[i] == bgn + i && ch[i + 1] == bgn + i + 1;
    }
  }

  lemma AppendChain(fat: seq<nat>, eoc: nat, a: seq<nat>, b: seq<nat>)
    requires a != [] && IsWalk(fat, a) && Distinct(a) && IsChain(fat, eoc, b)
    requires DisjointChains(a, b) && fat[a[|a| - 1]] == b[0]
    ensures IsChain(fat, eoc, a + b)
  {
    var ch := a + b;
    forall i | 0 <= i < |ch| - 1 ensures Links(fat, ch, i) {
      if i < |a| - 1 {
        assert Links(fat, a, i) && ch[i] == a[i] && ch[i + 1] == a[i + 1];
      } else if i >= |a| {
        assert Links(fat, b, i - |a|) && ch[i] == b[i - |a|] && ch[i + 1] == b[i + 1 - |a|];
      }
    }
    forall i, j | 0 <= i < j < |ch| ensures ch[i] != ch[j] {
      if i < |a| <= j {
        assert a[i] in a && b[j - |a|] in b;
      }
    }
  }

  /** Free clusters are in no file. */
  lemma RunIsUnused(fat: seq<nat>, eoc: nat, ch: seq<nat>, bgn: nat, n: nat)
    requires IsChain(fat, eoc, ch) && 1 <= eoc && FreeRun(fat, bgn, n)
    ensures DisjointChains(ch, Run(bgn, n))
    ensures forall c :: c in ch ==> c < bgn || bgn + n <= c
  {
    forall c | c in ch ensures c !in Run(bgn, n) && (c < bgn || bgn + n <= c) {
      ChainInUse(fat, eoc, ch, c);
    }
  }

  lemma UntouchedFile(fat: seq<nat>, eoc: nat, ch: seq<nat>, cur: nat, bgn: nat, n: nat, mark: nat)
    requires IsChain(fat, eoc, ch) && 1 <= eoc && FreeRun(fat, bgn, n) && 1 <= n
    requires (cur == 0 || cur < |fat|) && cur !in ch
    ensures IsChain(Allocate(fat, cur, bgn, n, mark), eoc, ch)
  {
    var fat' := Allocate(fat, cur, bgn, n, mark);
    RunIsUnused(fat, eoc, ch, bgn, n);
    ChainFrame(fat, fat', eoc, ch);
  }

  /** allocContiguous for a new file: every file keeps its chain, and the new chain meets none of them. */
  lemma AllocateNewFile(fat: seq<nat>, eoc: nat, files: seq<seq<nat>>, bgn: nat, n: nat, mark: nat)
    requires FilesOk(fat, eoc, files) && FreeRun(fat, bgn, n) && 1 <= n && 1 <= eoc <= mark
    ensures FilesOk(Allocate(fat, 0, bgn, n, mark), eoc, files + [Run(bgn, n)])
  {
    var fat', files' := Allocate(fat, 0, bgn, n, mark), files + [Run(bgn, n)];
    NewRunIsChain(fat, fat', eoc, bgn, n, mark);
    forall f | 0 <= f < |files'| ensures IsChain(fat', eoc, files'[f]) {
      if f < |files| {
        assert 0 !in files[f];
        UntouchedFile(fat, eoc, files[f], 0, bgn, n, mark);
      }
    }
    forall f, g | 0 <= f < g < |files'| ensures DisjointChains(files'[f], files'[g]) {
      if g == |files| {
        RunIsUnused(fat, eoc, files[f], bgn, n);
      } else {
        assert DisjointChains(files[f], files[g]);
      }
    }
  }

  /** The file whose last cluster is `cur` grows by the run. */
  lemma GrownChain(fat: seq<nat>, eoc: nat, ch: seq<nat>, bgn: nat, n: nat, mark: nat)
    requires IsChain(fat, eoc, ch) && FreeRun(fat, bgn, n) && 1 <= n && 1 <= eoc <= mark
    ensures IsChain(Allocate(fat, ch[|ch| - 1], bgn, n, mark), eoc, ch + Run(bgn, n))
  {
    var cur := ch[|ch| - 1];
    var fat' := Allocate(fat, cur, bgn, n, mark);
    RunIsUnused(fat, eoc, ch, bgn, n);
    assert cur in ch;
    NewRunIsChain(fat, fat', eoc, bgn, n, mark);
    forall i | 0 <= i < |ch| - 1 ensures Links(fat', ch, i) {
      assert Links(fat, ch, i) && ch[i] in ch && ch[i] != cur;
    }
    assert IsWalk(fat', ch);
    AppendChain(fat', eoc, ch, Run(bgn, n));
  }

  lemma AllocateGrowsFile(fat: seq<nat>, eoc: nat, files: seq<seq<nat>>, k: nat, bgn: nat, n: nat, mark: nat)
    requires FilesOk(fat, eoc, files) && k < |files| && FreeRun(fat, bgn, n) && 1 <= n && 1 <= eoc <= mark
    ensures var cur := files[k][|files[k]| - 1];
      FilesOk(Allocate(fat, cur, bgn, n, mark), eoc, files[k := files[k] + Run(bgn, n)])
  {
    var cur := files[k][|files[k]| - 1];
    var fat', files' := Allocate(fat, cur, bgn, n, mark), files[k := files[k] + Run(bgn, n)];
    assert cur in files[k];
    GrownChain(fat, eoc, files[k], bgn, n, mark);
    forall f | 0 <= f < |files'| ensures IsChain(fat', eoc, files'[f]) {
      if f != k {
        assert cur !in files[f] by {
          assert DisjointChains(files[if f < k then f else k], files[if f < k then k else f]);
        }
        UntouchedFile(fat, eoc, files[f], cur, bgn, n, mark);
      }
    }
    forall f, g | 0 <= f < g < |files'| ensures DisjointChains(files'[f], files'[g]) {
      assert DisjointChains(files[f], files[g]);
      RunIsUnused(fat, eoc, files[f], bgn, n);
      RunIsUnused(fat, eoc, files[g], bgn, n);
    }
  }

  // ---- freeing

  function Zero(fat: seq<nat>, cs: seq<nat>): seq<nat> {
    seq(|fat|, c requires 0 <= c < |fat| => if c in cs then 0 else fat[c])
  }

  /** Freeing one file frees exactly its clusters and leaves every other file as it was. */
  lemma FreeRemovesFile(fat: seq<nat>, eoc: nat, files: seq<seq<nat>>, k: nat)
    requires FilesOk(fat, eoc, files) && k < |files|
    ensures FilesOk(Zero(fat, files[k]), eoc, files[..k] + files[k + 1..])
    ensures forall c :: c in files[k] ==> IsFree(Zero(fat, files[k]), c)
  {
    var fat', files' := Zero(fat, files[k]), files[..k] + files[k + 1..];
    forall f | 0 <= f < |files'| ensures IsChain(fat', eoc, files'[f]) {
      var g := if f < k then f else f + 1;
      assert files'[f] == files[g];
      assert DisjointChains(files[if g < k then g else k], files[if g < k then k else g]);
      ChainFrame(fat, fat', eoc, files[g]);
    }
    forall f, g | 0 <= f < g < |files'| ensures DisjointChains(files'[f], files'[g]) {
      assert DisjointChains(files[if f < k then f else f + 1], files[if g < k then g else g + 1]);
    }
  }

  // ---- what one file's change leaves alone

  /** Entries in use outside the file's chain keep their value, and the file takes none of their clusters. */
  ghost predicate FatKept(fat: seq<nat>, chain: seq<nat>, fat': seq<nat>, chain': seq<nat>) {
    && |fat'| == |fat|
    && forall c: nat :: c < |fat| && !IsFree(fat, c) && c !in chain ==> fat'[c] == fat[c] && c !in chain'
  }

  lemma FatKeptRefl(fat: seq<nat>, chain: seq<nat>)
    ensures FatKept(fat, chain, fat, chain)
  {
  }

  lemma FatKeptTrans(a: seq<nat>, ca: seq<nat>, b: seq<nat>, cb: seq<nat>, c: seq<nat>, cc: seq<nat>)
    requires FatKept(a, ca, b, cb) && FatKept(b, cb, c, cc)
    ensures FatKept(a, ca, c, cc)
  {
    forall x: nat | x < |a| && !IsFree(a, x) && x !in ca
      ensures c[x] == a[x] && x !in cc
    {
      assert b[x] == a[x] && !IsFree(b, x);
    }
  }

  lemma UsedKeptIsFatKept(fat: seq<nat>, fat': seq<nat>, chain: seq<nat>)
    requires UsedKept(fat, fat')
    ensures FatKept(fat, chain, fat', chain)
  {
  }

  lemma AllocateKeepsFat(fat: seq<nat>, chain: seq<nat>, cur: nat, r: nat, mark: nat)
    requires FreeRun(fat, r, 1) && (cur == 0 || (cur < |fat| && cur in chain))
    ensures FatKept(fat, chain, Allocate(fat, cur, r, 1, mark), chain + [r])
  {
    assert IsFree(fat, r);
  }

  lemma ZeroKeepsFat(fat: seq<nat>, chain: seq<nat>)
    ensures FatKept(fat, chain, Zero(fat, chain), [])
  {
  }

  lemma CutKeepsFat(fat: seq<nat>, chain: seq<nat>, k: nat, mark: nat)
    requires k < |chain| && chain[k] < |fat|
    ensures FatKept(fat, chain, Cut(fat, chain, k, mark), chain[..k + 1])
  {
    assert chain[k] in chain;
    forall c: nat | c < |fat| && c !in chain
      ensures c !in chain[k + 1..] && c !in chain[..k + 1]
    {
    }
  }

  /** The other files of the volume: chains, pairwise disjoint, and none meets this one. */
  ghost predicate OthersOk(fat: seq<nat>, eoc: nat, files: seq<seq<nat>>, chain: seq<nat>) {
    FilesOk(fat, eoc, files) && forall f :: 0 <= f < |files| ==> DisjointChains(files[f], chain)
  }

  lemma OtherFilesSurvive(fat: seq<nat>, eoc: nat, files: seq<seq<nat>>, chain: seq<nat>, fat': seq<nat>,
                          chain': seq<nat>)
    requires OthersOk(fat, eoc, files, chain) && FatKept(fat, chain, fat', chain') && 1 <= eoc
    ensures OthersOk(fat', eoc, files, chain')
  {
    forall f | 0 <= f < |files|
      ensures IsChain(fat', eoc, files[f]) && DisjointChains(files[f], chain')
    {
      forall c | c in files[f]
        ensures c < |fat| && fat'[c] == fat[c] && c !in chain'
      {
        ChainInUse(fat, eoc, files[f], c);
        assert DisjointChains(files[f], chain);
      }
      ChainFrame(fat, fat', eoc, files[f]);
    }
  }

  // ---- the search of allocContiguous

  function Clamp(size: nat, c: nat): nat {
    if c > size then size else c
  }

  /**
   The search visits every cluster once, from `start` to the end of the FAT and then
   from 2 up to `start`. `end` is the next cluster to look at, `bgn` the start of the
   free run that ends there, `wrapped` tells which of the two stretches it is in.
   */
  ghost predicate SearchInv(fat: seq<nat>, count: nat, start: nat, wrapped: bool, bgn: nat, end: nat, n: nat) {
    var s := if start > |fat| then |fat| else start;
    var lo := if wrapped then 2 else s;
    && 2 <= lo <= bgn <= end <= |fat|
    && (wrapped ==> end <= s && NoRun(fat, s, |fat|, count))
    && n == (if wrapped then |fat| - s + end - 2 else end - s)
    && (forall c :: bgn <= c < end ==> IsFree(fat, c))
    && (bgn > lo ==> !IsFree(fat, bgn - 1))
    && end - bgn < count
    && NoRun(fat, lo, end, count)
  }

  lemma SearchStart(fat: seq<nat>, count: nat, start: nat)
    requires 2 <= start && 2 <= |fat| && 1 <= count
    ensures start < |fat| ==> SearchInv(fat, count, start, false, start, start, 0)
    ensures start >= |fat| ==> SearchInv(fat, count, start, false, |fat|, |fat|, 0)
  {
  }

  lemma SearchWrap(fat: seq<nat>, count: nat, start: nat, wrapped: bool, bgn: nat, n: nat)
    requires SearchInv(fat, count, start, wrapped, bgn, |fat|, n) && n < |fat| - 2
    ensures !wrapped && SearchInv(fat, count, start, true, 2, 2, n)
  {
  }

  lemma SearchUsed(fat: seq<nat>, count: nat, start: nat, wrapped: bool, bgn: nat, end: nat, n: nat)
    requires SearchInv(fat, count, start, wrapped, bgn, end, n) && n < |fat| - 2
    requires end < |fat| && !IsFree(fat, end)
    ensures SearchInv(fat, count, start, wrapped, end + 1, end + 1, n + 1)
  {
    var s := if start > |fat| then |fat| else start;
    var lo := if wrapped then 2 else s;
    forall x | lo <= x && x + count <= end + 1 ensures HasUsed(fat, x, count) {
      if x + count == end + 1 {
        assert x <= end < x + count;
      }
    }
  }

  lemma SearchFree(fat: seq<nat>, count: nat, start: nat, wrapped: bool, bgn: nat, end: nat, n: nat)
    requires SearchInv(fat, count, start, wrapped, bgn, end, n) && n < |fat| - 2
    requires end < |fat| && IsFree(fat, end) && end - bgn + 1 != count
    ensures SearchInv(fat, count, start, wrapped, bgn, end + 1, n + 1)
  {
    var s := if start > |fat| then |fat| else start;
    var lo := if wrapped then 2 else s;
    forall x | lo <= x && x + count <= end + 1 ensures HasUsed(fat, x, count) {
      if x + count == end + 1 {
        assert x <= bgn - 1 < x + count && !IsFree(fat, bgn - 1);
      }
    }
  }

  lemma SearchFound(fat: seq<nat>, count: nat, start: nat, wrapped: bool, bgn: nat, end: nat, n: nat)
    requires SearchInv(fat, count, start, wrapped, bgn, end, n) && n < |fat| - 2
    requires end < |fat| && IsFree(fat, end) && end - bgn + 1 == count
    ensures FreeRun(fat, bgn, count) && !NothingFound(fat, count, start) && FirstFrom(fat, count, start, bgn)
  {
    assert !HasUsed(fat, bgn, count);
  }

  lemma SearchFailed(fat: seq<nat>, count: nat, start: nat, wrapped: bool, bgn: nat, end: nat, n: nat)
    requires SearchInv(fat, count, start, wrapped, bgn, end, n) && n >= |fat| - 2 && 2 <= start && 1 <= count
    ensures NothingFound(fat, count, start)
  {
    if !wrapped {
      assert NoRun(fat, 2, 2, count);
    }
  }

  /** The run at bgn is the first that ends, going up from `start` and then from cluster 2. */
  ghost predicate FirstFrom(fat: seq<nat>, count: nat, start: nat, bgn: nat) {
    1 <= count && 1 <= bgn &&
    if start <= bgn then NoRun(fat, start, bgn + count - 1, count)
    else NoRun(fat, start, |fat|, count) && NoRun(fat, 2, bgn + count - 1, count)
  }

  /** Neither of the two stretches of the search holds enough consecutive free clusters. */
  ghost predicate NothingFound(fat: seq<nat>, count: nat, start: nat) {
    var s := if start > |fat| then |fat| else start;
    NoRun(fat, s, |fat|, count) && NoRun(fat, 2, s, count)
  }

  /** For one cluster this is: no cluster is free. */
  lemma NothingFoundOne(fat: seq<nat>, start: nat)
    requires 2 <= start && 2 <= |fat|
    ensures NothingFound(fat, 1, start) <==> forall c :: 2 <= c < |fat| ==> !IsFree(fat, c)
  {
    var s := if start > |fat| then |fat| else start;
    if NothingFound(fat, 1, start) {
      forall c | 2 <= c < |fat| ensures !IsFree(fat, c) {
        assert HasUsed(fat, c, 1);
      }
    }
    if forall c :: 2 <= c < |fat| ==> !IsFree(fat, c) {
      forall x | 2 <= x && x + 1 <= |fat| ensures HasUsed(fat, x, 1) {
        assert x <= x < x + 1 && !IsFree(fat, x);
      }
    }
  }

  predicate IsUsed(fat: seq<nat>, c: nat) {
    IsCluster(fat, c) && !IsFree(fat, c)
  }

  ghost predicate HasRun(fat: seq<nat>, count: nat) {
    exists bgn: nat :: FreeRun(fat, bgn, count)
  }

  /** A place to start the search that no free run crosses: the first cluster, or behind a cluster in use. */
  predicate StartOk(fat: seq<nat>, start: nat) {
    start == 2 || (2 < start && IsUsed(fat, start - 1))
  }

  lemma RunAvoidsStart(fat: seq<nat>, count: nat, start: nat, bgn: nat)
    requires StartOk(fat, start) && FreeRun(fat, bgn, count)
    ensures !(bgn < start < bgn + count)
  {
    assert start > 2 ==> !(bgn <= start - 1 < bgn + count);
  }

  /** A missed run crosses `start`. */
  lemma FoundUnlessStraddling(fat: seq<nat>, count: nat, start: nat, bgn: nat)
    requires NothingFound(fat, count, start) && FreeRun(fat, bgn, count) && 1 <= count
    ensures bgn < start < bgn + count
  {
    assert !HasUsed(fat, bgn, count);
  }

  /** From such a place the two stretches of the search miss no free run, of any length. */
  lemma FailsIffNoRun(fat: seq<nat>, count: nat, start: nat)
    requires 1 <= count && 2 <= |fat| && StartOk(fat, start)
    ensures NothingFound(fat, count, start) <==> !HasRun(fat, count)
  {
    if bgn: nat :| FreeRun(fat, bgn, count) {
      RunAvoidsStart(fat, count, start, bgn);
      if NothingFound(fat, count, start) {
        FoundUnlessStraddling(fat, count, start, bgn);
      }
    }
    if !HasRun(fat, count) {
      forall b: nat | 2 <= b && b + count <= |fat|
        ensures HasUsed(fat, b, count)
      {
        assert !FreeRun(fat, b, count);
      }
    }
  }

  // ---- the walk of freeChain

  /** `path` has been freed, coming from cluster c; `next` is what follows it. */
  ghost predicate FreeWalk(fat: seq<nat>, c: nat, path: seq<nat>, next: nat) {
    && IsWalk(fat, path) && Distinct(path)
    && (if path == [] then next == c else path[0] == c && fat[path[|path| - 1]] == next)
  }

  ghost predicate NoChain(fat: seq<nat>, eoc: nat, c: nat) {
    forall ch :: IsChain(fat, eoc, ch) ==> ch[0] != c
  }

  lemma FrontWalk(fat: seq<nat>, c: nat, path: seq<nat>, next: nat)
    requires FreeWalk(fat, c, path, next) && path != []
    ensures FreeWalk(fat, c, path[..|path| - 1], path[|path| - 1])
  {
    var front := path[..|path| - 1];
    forall i | 0 <= i < |front| - 1 ensures Links(fat, front, i) {
      assert Links(fat, path, i);
    }
    if front != [] {
      assert Links(fat, path, |front| - 1);
    }
  }

  /** If there is a chain from c, the walk has followed it so far and has not reached its end. */
  lemma {:induction false} WalkFollowsChain(fat: seq<nat>, eoc: nat, c: nat, path: seq<nat>, next: nat, ch: seq<nat>)
    requires FreeWalk(fat, c, path, next) && IsChain(fat, eoc, ch) && ch[0] == c
    requires |fat| <= eoc && next < eoc
    ensures |path| < |ch| && path == ch[..|path|] && ch[|path|] == next
  {
    if path != [] {
      var front, last := path[..|path| - 1], path[|path| - 1];
      FrontWalk(fat, c, path, next);
      assert IsCluster(fat, path[|path| - 1]);
      WalkFollowsChain(fat, eoc, c, front, last, ch);
      assert |front| != |ch| - 1;
      assert Links(fat, ch, |front|);
    }
  }

  lemma WalkStart(fat: seq<nat>, c: nat)
    ensures FreeWalk(fat, c, [], c) && Zero(fat, []) == fat
  {
  }

  lemma OutsideFat(fat: seq<nat>, eoc: nat, c: nat, path: seq<nat>, next: nat)
    requires FreeWalk(fat, c, path, next) && |fat| <= eoc && |fat| <= next && (path != [] ==> next < eoc)
    ensures NoChain(fat, eoc, c)
  {
    if path == [] {
      forall ch | IsChain(fat, eoc, ch) ensures ch[0] != c {
        assert IsCluster(fat, ch[0]);
      }
    } else {
      BrokenWalk(fat, eoc, c, path, next);
    }
  }

  lemma WalkIsChain(fat: seq<nat>, eoc: nat, c: nat, path: seq<nat>, next: nat)
    requires FreeWalk(fat, c, path, next) && path != [] && eoc <= next
    ensures IsChain(fat, eoc, path) && path[0] == c
  {
  }

  lemma BrokenWalk(fat: seq<nat>, eoc: nat, c: nat, path: seq<nat>, next: nat)
    requires FreeWalk(fat, c, path, next) && |fat| <= eoc && next < eoc && !IsCluster(fat, next)
    ensures NoChain(fat, eoc, c)
  {
    forall ch | IsChain(fat, eoc, ch) ensures ch[0] != c {
      if ch[0] == c {
        WalkFollowsChain(fat, eoc, c, path, next, ch);
      }
    }
  }

  lemma CyclicWalk(fat: seq<nat>, eoc: nat, c: nat, path: seq<nat>, next: nat)
    requires FreeWalk(fat, c, path, next) && |fat| <= eoc && next < eoc && next in path
    ensures NoChain(fat, eoc, c)
  {
    forall ch | IsChain(fat, eoc, ch) ensures ch[0] != c {
      if ch[0] == c {
        WalkFollowsChain(fat, eoc, c, path, next, ch);
      }
    }
  }

  lemma ExtendWalk(fat: seq<nat>, c: nat, path: seq<nat>, next: nat)
    requires FreeWalk(fat, c, path, next) && IsCluster(fat, next) && next !in path
    ensures FreeWalk(fat, c, path + [next], fat[next])
    ensures Zero(fat, path)[next] == fat[next] && Zero(fat, path)[next := 0] == Zero(fat, path + [next])
  {
    var path' := path + [next];
    forall i | 0 <= i < |path'| - 1 ensures Links(fat, path', i) {
      if i < |path| - 1 {
        assert Links(fat, path, i);
      }
    }
  }

  lemma RevisitWalk(fat: seq<nat>, c: nat, path: seq<nat>, next: nat)
    requires FreeWalk(fat, c, path, next) && next in path
    ensures next < |fat| && Zero(fat, path)[next] == 0 && Zero(fat, path)[next := 0] == Zero(fat, path)
  {
  }

  function Unvisited(fat: seq<nat>, path: seq<nat>): set<nat> {
    set c | 0 <= c < |fat| && c !in path
  }

  lemma UnvisitedShrinks(fat: seq<nat>, path: seq<nat>, c: nat)
    requires c < |fat| && c !in path
    ensures Unvisited(fat, path + [c]) < Unvisited(fat, path)
  {
    assert c in Unvisited(fat, path) && c !in Unvisited(fat, path + [c]);
  }

  // ---- cutting a chain

  lemma SuffixChain(fat: seq<nat>, eoc: nat, ch: seq<nat>, k: nat)
    requires IsChain(fat, eoc, ch) && k < |ch|
    ensures IsChain(fat, eoc, ch[k..])
  {
    var s := ch[k..];
    forall i | 0 <= i < |s| - 1 ensures Links(fat, s, i) {
      assert Links(fat, ch, k + i);
    }
  }

  lemma MiddleEntry(fat: seq<nat>, eoc: nat, ch: seq<nat>, i: nat)
    requires IsChain(fat, eoc, ch) && i + 1 < |ch|
    ensures ch[i] < |fat| && fat[ch[i]] < |fat|
  {
    assert Links(fat, ch, i);
    assert IsCluster(fat, ch[i + 1]);
  }

  lemma ChainUnique(fat: seq<nat>, eoc: nat, a: seq<nat>, b: seq<nat>)
    requires IsChain(fat, eoc, a) && IsChain(fat, eoc, b) && a[0] == b[0] && |fat| <= eoc
    ensures a == b
  {
    if |a| < |b| {
      MiddleEntry(fat, eoc, b, |a| - 1);
      WalksAgree(fat, a, b, |a| - 1);
    } else if |b| < |a| {
      MiddleEntry(fat, eoc, a, |b| - 1);
      WalksAgree(fat, a, b, |b| - 1);
    } else {
      forall i | 0 <= i < |a| ensures a[i] == b[i] {
        WalksAgree(fat, a, b, i);
      }
    }
  }

  /** truncate: free everything after cluster k and put an end mark there. */
  function Cut(fat: seq<nat>, ch: seq<nat>, k: nat, mark: nat): seq<nat>
    requires k < |ch| && ch[k] < |fat|
  {
    Zero(fat, ch[k + 1..])[ch[k] := mark]
  }

  lemma CutChain(fat: seq<nat>, eoc: nat, ch: seq<nat>, k: nat, mark: nat)
    requires IsChain(fat, eoc, ch) && k < |ch| && eoc <= mark
    ensures ch[k] < |fat| && IsChain(Cut(fat, ch, k, mark), eoc, ch[..k + 1])
    ensures forall i :: k < i < |ch| ==> IsFree(Cut(fat, ch, k, mark), ch[i])
  {
    assert IsCluster(fat, ch[k]);
    var fat', p, tail := Cut(fat, ch, k, mark), ch[..k + 1], ch[k + 1..];
    forall i | 0 <= i < |p| - 1 ensures Links(fat', p, i) {
      assert Links(fat, ch, i) && ch[i] !in tail;
    }
    assert ch[k] !in tail;
    forall i | k < i < |ch| ensures IsFree(fat', ch[i]) {
      assert tail[i - k - 1] == ch[i] && IsCluster(fat, ch[i]);
    }
  }
}

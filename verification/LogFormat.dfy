/** The on-disk redo log: a header block followed by log blocks, and the exact
    sequence of single-block writes made by a commit and by a recovery.

    A disk is a sequence of blocks and a block is a sequence of 32-bit words.
    Word 0 of the header block is the number of logged blocks and words 1..n
    are their home addresses, as `struct logheader` lays them out. */
module LogFormat {

  const LOGSIZE: nat := 30
  const WORDS: nat := 256

  type Block = b: seq<int> | |b| == WORDS witness seq(WORDS, _ => 0)
  type Disk = seq<Block>

  /** The header's count word, and the home addresses it lists. */
  predicate HeaderOk(h: Block) {
    0 <= h[0] <= LOGSIZE
  }

  function HeaderBlocks(h: Block): (r: seq<int>)
    requires HeaderOk(h)
  {
    h[1..1 + h[0]]
  }

  /** What write_head leaves in the header block: the words after the list stay. */
  function PutHeader(h: Block, blocks: seq<int>): (r: Block)
    requires |blocks| <= LOGSIZE
    ensures HeaderOk(r) && HeaderBlocks(r) == blocks
  {
    [|blocks|] + blocks + h[1 + |blocks|..]
  }

  /** Header block at `start`, log blocks at start+1 .. start+LOGSIZE. */
  predicate InLog(start: nat, b: int) {
    start <= b <= start + LOGSIZE
  }

  /** A block a transaction may log: on the disk and outside the log area. */
  predicate IsHome(d: Disk, start: nat, b: int) {
    0 <= b < |d| && !InLog(start, b)
  }

  ghost predicate AllHome(d: Disk, start: nat, blocks: seq<int>) {
    |blocks| <= LOGSIZE && forall i :: 0 <= i < |blocks| ==> IsHome(d, start, blocks[i])
  }

  ghost predicate DiskOk(d: Disk, start: nat) {
    && start + LOGSIZE < |d|
    && HeaderOk(d[start])
    && AllHome(d, start, HeaderBlocks(d[start]))
  }

  /** The two disks agree outside the log area. */
  ghost predicate SameHome(d: Disk, e: Disk, start: nat) {
    && |d| == |e|
    && forall b :: IsHome(d, start, b) ==> d[b] == e[b]
  }

  /** Copy the first k logged blocks from the log to their home addresses. */
  function Install(d: Disk, start: nat, blocks: seq<int>, k: nat): (r: Disk)
    requires start + LOGSIZE < |d| && AllHome(d, start, blocks) && k <= |blocks|
    ensures |r| == |d| && forall b :: 0 <= b < |d| && InLog(start, b) ==> r[b] == d[b]
    ensures AllHome(r, start, blocks)
  {
    if k == 0 then d else
      var e := Install(d, start, blocks, k - 1);
      e[blocks[k - 1] := e[start + k]]
  }

  /** The disk that a complete recovery of d ends with, before the header is cleared. */
  ghost function Recovered(d: Disk, start: nat): (r: Disk)
    requires DiskOk(d, start)
  {
    var blocks := HeaderBlocks(d[start]);
    Install(d, start, blocks, |blocks|)
  }

  /** Erase the transaction: the header write with an empty list. */
  function ClearHeader(d: Disk, start: nat): (r: Disk)
    requires start < |d|
    ensures |r| == |d|
  {
    d[start := PutHeader(d[start], [])]
  }

  /** The disk after the first j writes of "install the list, then clear the header". */
  function ReplayDisk(d: Disk, start: nat, blocks: seq<int>, j: nat): (r: Disk)
    requires start + LOGSIZE < |d| && AllHome(d, start, blocks) && j <= |blocks| + 1
    ensures |r| == |d|
  {
    if j <= |blocks| then Install(d, start, blocks, j)
    else ClearHeader(Install(d, start, blocks, |blocks|), start)
  }

  /** The disk after the first j block writes of recover_from_log (log.c:116-123). */
  ghost function RecoveryDisk(d: Disk, start: nat, j: nat): (r: Disk)
    requires DiskOk(d, start) && j <= d[start][0] + 1
    ensures |r| == |d|
  {
    ReplayDisk(d, start, HeaderBlocks(d[start]), j)
  }

  /** The disk after the first j block writes of commit (log.c:193-203): n log
      blocks copied from the cache `view`, the header, the n home blocks, and
      the cleared header. */
  function CommitDisk(d: Disk, start: nat, blocks: seq<int>, view: Disk, j: nat): (r: Disk)
    requires start + LOGSIZE < |d| && |view| == |d| && AllHome(d, start, blocks)
    requires j <= 2 * |blocks| + 2
    ensures |r| == |d|
    decreases j
  {
    var n := |blocks|;
    if j == 0 then d else
      var e := CommitDisk(d, start, blocks, view, j - 1);
      if j <= n then e[start + j := view[blocks[j - 1]]]
      else if j == n + 1 then e[start := PutHeader(e[start], blocks)]
      else if j <= 2 * n + 1 then e[blocks[j - n - 2] := e[start + (j - n - 1)]]
      else ClearHeader(e, start)
  }

  // ---------------------------------------------------------------- lemmas

  /** Installing writes to each listed home block the contents of its log block
      when the log holds, for every listed block, the block's view contents. */
  lemma {:induction false} InstallMakesView(d: Disk, start: nat, blocks: seq<int>, view: Disk, k: nat, b: int)
    requires start + LOGSIZE < |d| && |view| == |d| && AllHome(d, start, blocks) && k <= |blocks|
    requires forall i :: 0 <= i < |blocks| ==> d[start + 1 + i] == view[blocks[i]]
    requires IsHome(d, start, b)
    ensures Install(d, start, blocks, k)[b] == if b in blocks[..k] then view[b] else d[b]
  {
    if k > 0 {
      InstallMakesView(d, start, blocks, view, k - 1, b);
      assert InLog(start, start + k);
      assert blocks[..k] == blocks[..k - 1] + [blocks[k - 1]];
      assert d[start + 1 + (k - 1)] == view[blocks[k - 1]];
    }
  }

  /** Installation of a block depends on the log area only, so installing on
      top of any disk with the same log gives every listed block the same contents. */
  lemma {:induction false} InstallDependsOnLog(d: Disk, e: Disk, start: nat, blocks: seq<int>, k: nat, b: int)
    requires start + LOGSIZE < |d| == |e| && AllHome(d, start, blocks) && k <= |blocks|
    requires forall i :: InLog(start, i) ==> d[i] == e[i]
    requires IsHome(d, start, b)
    ensures AllHome(e, start, blocks)
    ensures Install(e, start, blocks, k)[b] == if b in blocks[..k] then Install(d, start, blocks, k)[b] else e[b]
  {
    assert forall i :: 0 <= i < |blocks| ==> IsHome(d, start, blocks[i]) ==> IsHome(e, start, blocks[i]);
    if k > 0 {
      InstallDependsOnLog(d, e, start, blocks, k - 1, b);
      assert InLog(start, start + k);
      assert blocks[..k] == blocks[..k - 1] + [blocks[k - 1]];
    }
  }

  lemma {:induction false} InstallFrame(d: Disk, start: nat, blocks: seq<int>, k: nat)
    requires start + LOGSIZE < |d| && AllHome(d, start, blocks) && k <= |blocks|
    ensures forall b :: IsHome(d, start, b) && b !in blocks[..k] ==> Install(d, start, blocks, k)[b] == d[b]
  {
    if k > 0 {
      InstallFrame(d, start, blocks, k - 1);
      assert blocks[..k] == blocks[..k - 1] + [blocks[k - 1]];
    }
  }

  /** Installing everything after installing a prefix is installing everything. */
  lemma InstallTwice(d: Disk, start: nat, blocks: seq<int>, j: nat)
    requires start + LOGSIZE < |d| && AllHome(d, start, blocks) && j <= |blocks|
    ensures var e := Install(d, start, blocks, j);
            SameHome(Install(e, start, blocks, |blocks|), Install(d, start, blocks, |blocks|), start)
  {
    var e := Install(d, start, blocks, j);
    var n := |blocks|;
    assert blocks[..n] == blocks;
    forall b | IsHome(d, start, b)
      ensures Install(e, start, blocks, n)[b] == Install(d, start, blocks, n)[b]
    {
      InstallDependsOnLog(d, e, start, blocks, n, b);
      InstallFrame(d, start, blocks, j);
      InstallFrame(d, start, blocks, n);
      if b !in blocks { assert b !in blocks[..j]; }
    }
  }

  /** A crash after any number j of recovery's writes leaves a disk that
      recovers to the same home blocks as the disk recovery began with. */
  lemma RecoveryIsRestartable(d: Disk, start: nat, j: nat)
    requires DiskOk(d, start) && j <= d[start][0] + 1
    ensures DiskOk(RecoveryDisk(d, start, j), start)
    ensures SameHome(Recovered(RecoveryDisk(d, start, j), start), Recovered(d, start), start)
    ensures j == d[start][0] + 1 ==> HeaderBlocks(RecoveryDisk(d, start, j)[start]) == []
  {
    var blocks := HeaderBlocks(d[start]);
    var e := RecoveryDisk(d, start, j);
    assert InLog(start, start);
    if j <= |blocks| {
      assert e[start] == d[start];
      InstallTwice(d, start, blocks, j);
    } else {
      assert HeaderBlocks(e[start]) == [];
      assert Recovered(e, start) == e;
    }
  }

  /** The log area after the first j <= n writes of a commit. */
  lemma {:induction false} CommitLogPhase(d: Disk, start: nat, blocks: seq<int>, view: Disk, j: nat)
    requires start + LOGSIZE < |d| && |view| == |d| && AllHome(d, start, blocks) && j <= |blocks|
    ensures var e := CommitDisk(d, start, blocks, view, j);
            && e[start] == d[start] && SameHome(e, d, start)
            && forall i :: 0 <= i < j ==> e[start + 1 + i] == view[blocks[i]]
  {
    if j > 0 { CommitLogPhase(d, start, blocks, view, j - 1); }
  }

  /** After the header write the disk is the installed prefix of one fixed,
      committed disk. */
  lemma {:induction false} CommitInstallPhase(d: Disk, start: nat, blocks: seq<int>, view: Disk, k: nat)
    requires start + LOGSIZE < |d| && |view| == |d| && AllHome(d, start, blocks) && k <= |blocks|
    ensures var c := CommitDisk(d, start, blocks, view, |blocks| + 1);
            && AllHome(c, start, blocks)
            && CommitDisk(d, start, blocks, view, |blocks| + 1 + k) == Install(c, start, blocks, k)
  {
    if k > 0 {
      CommitInstallPhase(d, start, blocks, view, k - 1);
      var e := CommitDisk(d, start, blocks, view, |blocks| + k);
      assert CommitDisk(d, start, blocks, view, |blocks| + 1 + k) == e[blocks[k - 1] := e[start + k]];
    }
  }

  /** The state the transaction aims at: the listed blocks take the view's contents. */
  ghost predicate TransactionApplied(d: Disk, start: nat, blocks: seq<int>, view: Disk, r: Disk) {
    && |r| == |d| == |view|
    && forall b :: IsHome(d, start, b) ==> r[b] == if b in blocks then view[b] else d[b]
  }

  /** With the log blocks written, the header write commits: the disk then
      recovers to the whole transaction. */
  lemma HeaderWriteCommits(d: Disk, e: Disk, start: nat, blocks: seq<int>, view: Disk)
    requires start + LOGSIZE < |d| && |view| == |d| && AllHome(d, start, blocks)
    requires SameHome(e, d, start)
    requires forall i :: 0 <= i < |blocks| ==> e[start + 1 + i] == view[blocks[i]]
    ensures var c := e[start := PutHeader(e[start], blocks)];
            && DiskOk(c, start) && HeaderBlocks(c[start]) == blocks
            && TransactionApplied(d, start, blocks, view, Recovered(c, start))
  {
    var c := e[start := PutHeader(e[start], blocks)];
    assert InLog(start, start);
    assert AllHome(c, start, blocks);
    assert blocks[..|blocks|] == blocks;
    forall b | IsHome(d, start, b)
      ensures Recovered(c, start)[b] == if b in blocks then view[b] else d[b]
    {
      InstallMakesView(c, start, blocks, view, |blocks|, b);
    }
  }

  /** A cleared header leaves nothing to install. */
  lemma ClearedHeader(e: Disk, start: nat)
    requires start + LOGSIZE < |e|
    ensures var r := ClearHeader(e, start);
            DiskOk(r, start) && HeaderBlocks(r[start]) == [] && Recovered(r, start) == r && SameHome(r, e, start)
  {
    assert InLog(start, start);
  }

  /** A partial installation recovers like the committed disk it started from. */
  lemma InstallRecovers(c: Disk, start: nat, k: nat)
    requires DiskOk(c, start) && k <= c[start][0]
    ensures var e := Install(c, start, HeaderBlocks(c[start]), k);
            DiskOk(e, start) && e[start] == c[start] && SameHome(Recovered(e, start), Recovered(c, start), start)
  {
    assert InLog(start, start);
    InstallTwice(c, start, HeaderBlocks(c[start]), k);
  }

  /** e recovers to the whole transaction. */
  ghost predicate RecoversToTransaction(d: Disk, start: nat, blocks: seq<int>, view: Disk, e: Disk) {
    DiskOk(e, start) && TransactionApplied(d, start, blocks, view, Recovered(e, start))
  }

  ghost predicate LogEmpty(e: Disk, start: nat) {
    start < |e| && HeaderOk(e[start]) && HeaderBlocks(e[start]) == []
  }

  /** The committed disk, and every disk up to the last home write, recover to
      the whole transaction. */
  lemma CommittedPhase(d: Disk, start: nat, blocks: seq<int>, view: Disk, k: nat)
    requires start + LOGSIZE < |d| && |view| == |d| && AllHome(d, start, blocks) && k <= |blocks|
    ensures RecoversToTransaction(d, start, blocks, view, CommitDisk(d, start, blocks, view, |blocks| + 1 + k))
  {
    var n := |blocks|;
    var e := CommitDisk(d, start, blocks, view, n);
    var c := CommitDisk(d, start, blocks, view, n + 1);
    assert c == e[start := PutHeader(e[start], blocks)];
    CommitLogPhase(d, start, blocks, view, n);
    HeaderWriteCommits(d, e, start, blocks, view);
    CommitInstallPhase(d, start, blocks, view, k);
    InstallRecovers(c, start, k);
  }

  lemma FinalWrite(d: Disk, start: nat, blocks: seq<int>, view: Disk, j: nat)
    requires start + LOGSIZE < |d| && |view| == |d| && AllHome(d, start, blocks) && j == 2 * |blocks| + 1
    ensures CommitDisk(d, start, blocks, view, j + 1) == ClearHeader(CommitDisk(d, start, blocks, view, j), start)
  {
    hide AllHome, ClearHeader;
  }

  lemma LastWrite(d: Disk, start: nat, blocks: seq<int>, view: Disk)
    requires start + LOGSIZE < |d| && |view| == |d| && AllHome(d, start, blocks)
    ensures var c := CommitDisk(d, start, blocks, view, |blocks| + 1);
            && AllHome(c, start, blocks)
            && CommitDisk(d, start, blocks, view, 2 * |blocks| + 2)
               == ClearHeader(Install(c, start, blocks, |blocks|), start)
  {
    hide *;
    CommitInstallPhase(d, start, blocks, view, |blocks|);
    FinalWrite(d, start, blocks, view, |blocks| + 1 + |blocks|);
  }

  /** With all home blocks written the disk itself holds the transaction, so
      clearing the header keeps it. */
  lemma ClearKeepsTransaction(d: Disk, c: Disk, start: nat, blocks: seq<int>, view: Disk)
    requires |d| == |view| == |c| && RecoversToTransaction(d, start, blocks, view, c)
    requires HeaderBlocks(c[start]) == blocks
    ensures var r := ClearHeader(Install(c, start, blocks, |blocks|), start);
            RecoversToTransaction(d, start, blocks, view, r) && LogEmpty(r, start)
  {
    ClearedHeader(Install(c, start, blocks, |blocks|), start);
  }

  lemma ClearedPhase(d: Disk, start: nat, blocks: seq<int>, view: Disk)
    requires start + LOGSIZE < |d| && |view| == |d| && AllHome(d, start, blocks)
    ensures var e := CommitDisk(d, start, blocks, view, 2 * |blocks| + 2);
            RecoversToTransaction(d, start, blocks, view, e) && LogEmpty(e, start)
  {
    hide *;
    HeaderOfCommitted(d, start, blocks, view);
    CommittedPhase(d, start, blocks, view, 0);
    ClearKeepsTransaction(d, CommitDisk(d, start, blocks, view, |blocks| + 1), start, blocks, view);
    LastWrite(d, start, blocks, view);
  }

  lemma HeaderOfCommitted(d: Disk, start: nat, blocks: seq<int>, view: Disk)
    requires start + LOGSIZE < |d| && |view| == |d| && AllHome(d, start, blocks)
    ensures var c := CommitDisk(d, start, blocks, view, |blocks| + 1);
            HeaderOk(c[start]) && HeaderBlocks(c[start]) == blocks
  {
    var e := CommitDisk(d, start, blocks, view, |blocks|);
    assert CommitDisk(d, start, blocks, view, |blocks| + 1) == e[start := PutHeader(e[start], blocks)];
  }

  /** Before the header write the log is empty, so nothing is installed. */
  lemma UncommittedPhase(d: Disk, start: nat, blocks: seq<int>, view: Disk, j: nat)
    requires DiskOk(d, start) && HeaderBlocks(d[start]) == [] && |view| == |d|
    requires AllHome(d, start, blocks) && j <= |blocks|
    ensures var e := CommitDisk(d, start, blocks, view, j);
            DiskOk(e, start) && SameHome(Recovered(e, start), d, start)
  {
    CommitLogPhase(d, start, blocks, view, j);
  }

  /** Crash atomicity of one commit: stopping after any number j of its writes
      leaves a disk that recovers to the home blocks before the transaction
      when the header write was not yet made (j <= n), and to those after the
      whole transaction otherwise; never a mix. */
  lemma CommitIsAtomic(d: Disk, start: nat, blocks: seq<int>, view: Disk, j: nat)
    requires DiskOk(d, start) && HeaderBlocks(d[start]) == [] && |view| == |d|
    requires AllHome(d, start, blocks) && j <= 2 * |blocks| + 2
    ensures DiskOk(CommitDisk(d, start, blocks, view, j), start)
    ensures j <= |blocks| ==> SameHome(Recovered(CommitDisk(d, start, blocks, view, j), start), d, start)
    ensures j > |blocks| ==>
              RecoversToTransaction(d, start, blocks, view, CommitDisk(d, start, blocks, view, j))
    ensures j == 2 * |blocks| + 2 ==> LogEmpty(CommitDisk(d, start, blocks, view, j), start)
  {
    hide TransactionApplied, Recovered, Install, SameHome, AllHome;
    var n := |blocks|;
    if j <= n {
      UncommittedPhase(d, start, blocks, view, j);
    } else if j <= 2 * n + 1 {
      CommittedPhase(d, start, blocks, view, j - n - 1);
    } else {
      ClearedPhase(d, start, blocks, view);
    }
  }

  /** Write-ahead rule: until the header write no home block on disk changes. */
  lemma NoHomeWriteBeforeHeader(d: Disk, start: nat, blocks: seq<int>, view: Disk, j: nat)
    requires start + LOGSIZE < |d| && |view| == |d| && AllHome(d, start, blocks) && j <= |blocks| + 1
    ensures SameHome(CommitDisk(d, start, blocks, view, j), d, start)
  {
    CommitLogPhase(d, start, blocks, view, if j <= |blocks| then j else |blocks|);
    assert InLog(start, start);
  }

  // ---------------------------------------------------------------- traces

  /** The disk states after each of the first j writes of a commit. */
  ghost function CommitTrace(d: Disk, start: nat, blocks: seq<int>, view: Disk, j: nat): (r: seq<Disk>)
    requires start + LOGSIZE < |d| && |view| == |d| && AllHome(d, start, blocks) && j <= 2 * |blocks| + 2
  {
    seq(j, i requires 0 <= i < j => CommitDisk(d, start, blocks, view, i + 1))
  }

  ghost function ReplayTrace(d: Disk, start: nat, blocks: seq<int>, k: nat): (r: seq<Disk>)
    requires start + LOGSIZE < |d| && AllHome(d, start, blocks) && k <= |blocks| + 1
  {
    seq(k, i requires 0 <= i < k => ReplayDisk(d, start, blocks, i + 1))
  }

  /** From the header write on, a commit is a replay of the committed disk. */
  lemma CommitIsReplay(d: Disk, start: nat, blocks: seq<int>, view: Disk, k: nat)
    requires start + LOGSIZE < |d| && |view| == |d| && AllHome(d, start, blocks) && k <= |blocks| + 1
    ensures var c := CommitDisk(d, start, blocks, view, |blocks| + 1);
            && AllHome(c, start, blocks)
            && CommitDisk(d, start, blocks, view, |blocks| + 1 + k) == ReplayDisk(c, start, blocks, k)
  {
    hide CommitDisk, Install, ClearHeader, AllHome;
    if k <= |blocks| {
      CommitInstallPhase(d, start, blocks, view, k);
    } else {
      CommitInstallPhase(d, start, blocks, view, |blocks|);
      FinalWrite(d, start, blocks, view, |blocks| + k);
    }
  }

  lemma CommitTraceIsReplay(d: Disk, start: nat, blocks: seq<int>, view: Disk, k: nat)
    requires start + LOGSIZE < |d| && |view| == |d| && AllHome(d, start, blocks) && k <= |blocks| + 1
    ensures var c := CommitDisk(d, start, blocks, view, |blocks| + 1);
            && AllHome(c, start, blocks)
            && CommitTrace(d, start, blocks, view, |blocks| + 1 + k)
               == CommitTrace(d, start, blocks, view, |blocks| + 1) + ReplayTrace(c, start, blocks, k)
  {
    hide CommitDisk, ReplayDisk, AllHome;
    var n := |blocks|;
    CommitIsReplay(d, start, blocks, view, 0);
    var c := CommitDisk(d, start, blocks, view, n + 1);
    var t := CommitTrace(d, start, blocks, view, n + 1 + k);
    var u := ReplayTrace(c, start, blocks, k);
    forall i | 0 <= i < k ensures t[n + 1 + i] == u[i] {
      CommitIsReplay(d, start, blocks, view, i + 1);
      assert n + 1 + i + 1 == n + 1 + (i + 1);
    }
    assert t == CommitTrace(d, start, blocks, view, n + 1) + u;
  }

  /** One more write is one more state of the trace. */
  lemma CommitTraceStep(d: Disk, start: nat, blocks: seq<int>, view: Disk, j: nat)
    requires start + LOGSIZE < |d| && |view| == |d| && AllHome(d, start, blocks) && j < 2 * |blocks| + 2
    ensures CommitTrace(d, start, blocks, view, j + 1)
            == CommitTrace(d, start, blocks, view, j) + [CommitDisk(d, start, blocks, view, j + 1)]
  {
    hide CommitDisk, AllHome;
  }

  lemma CommitLogStep(d: Disk, start: nat, blocks: seq<int>, view: Disk, t: nat)
    requires start + LOGSIZE < |d| && |view| == |d| && AllHome(d, start, blocks) && t < |blocks|
    ensures IsHome(d, start, blocks[t])
    ensures CommitDisk(d, start, blocks, view, t + 1)
            == CommitDisk(d, start, blocks, view, t)[start + 1 + t := view[blocks[t]]]
  {
  }

  lemma CommitHeaderStep(d: Disk, start: nat, blocks: seq<int>, view: Disk)
    requires start + LOGSIZE < |d| && |view| == |d| && AllHome(d, start, blocks)
    ensures var e := CommitDisk(d, start, blocks, view, |blocks|);
            CommitDisk(d, start, blocks, view, |blocks| + 1) == e[start := PutHeader(e[start], blocks)]
  {
    hide AllHome, PutHeader;
  }

  lemma ReplayTraceStep(d: Disk, start: nat, blocks: seq<int>, k: nat)
    requires start + LOGSIZE < |d| && AllHome(d, start, blocks) && k <= |blocks|
    ensures ReplayTrace(d, start, blocks, k + 1)
            == ReplayTrace(d, start, blocks, k) + [ReplayDisk(d, start, blocks, k + 1)]
  {
    hide ReplayDisk, AllHome;
  }
}

/** The redo log of log.c over the buffer cache. Every method that writes the
    disk is tied to the exact sequence of disk states it goes through, so that
    a crash between any two writes is one of the states of LogFormat. A bget
    panic ("no buffers") stops a method early: `ok` is then false and the trace
    is cut where the kernel stopped. */
module Log {
  import opened Basics
  import opened LogFormat
  import opened BufferCache

  /** Absorption: a block already in the transaction is not listed twice. */
  function Absorb(blocks: seq<nat>, b: nat): (r: seq<nat>) {
    if b in blocks then blocks else blocks + [b]
  }

  /** The block is pinned once if it is in the list and not at all otherwise. */
  ghost predicate PinsAre(pins: seq<nat>, blocks: seq<nat>) {
    forall b :: 0 <= b < |pins| ==> pins[b] == if b in blocks then 1 else 0
  }

  /** The word loop of write_head (log.c:108-111). */
  method FillHeader(h: Block, n: nat, block: seq<nat>) returns (r: Block)
    requires n <= |block| == LOGSIZE
    ensures r == PutHeader(h, block[..n])
  {
    r := h[0 := n];
    var i := 0;
    while i < n
      invariant 0 <= i <= n
      invariant r == [n as int] + block[..i] + h[1 + i..]
    {
      r := r[1 + i := block[i]];
      i := i + 1;
    }
  }

  /** The scan of log_write (log.c:225-228). */
  method FindBlock(n: nat, block: seq<nat>, b: nat) returns (i: nat)
    requires n <= |block|
    ensures i <= n && b !in block[..i] && (i < n ==> block[i] == b)
  {
    i := 0;
    while i < n && block[i] != b
      invariant 0 <= i <= n && b !in block[..i]
    {
      i := i + 1;
    }
  }

  class Log {
    const cache: Cache
    const start: nat
    const size: nat
    var n: nat
    var block: seq<nat>
    var outstanding: nat
    var committing: bool

    constructor (cache: Cache, start: nat, size: nat)
      ensures this.cache == cache && this.start == start && this.size == size
      ensures n == 0 && |block| == LOGSIZE && outstanding == 0 && !committing
    {
      this.cache, this.start, this.size := cache, start, size;
      n, block, outstanding, committing := 0, seq(LOGSIZE, _ => 0), 0, false;
    }

    ghost function Logged(): seq<nat>
      requires n <= |block|
      reads this
    {
      block[..n]
    }

    /** The in-memory header is well formed and the cache is consistent. */
    ghost predicate Shape()
      reads this, cache
    {
      && cache.Valid() && start + LOGSIZE < |cache.disk|
      && n <= |block| == LOGSIZE && AllHome(cache.disk, start, Logged())
    }

    /** No transfer in progress: the listed blocks are exactly the pinned ones and
        the log on disk is empty. */
    ghost predicate Valid()
      reads this, cache
    {
      && Shape() && Distinct(Logged()) && PinsAre(cache.pins, Logged())
      && LogEmpty(cache.disk, start)
    }

    /** Nobody holds a buffer of the log area or of a logged block. */
    ghost predicate Quiet()
      requires n <= |block|
      reads this, cache
    {
      forall b :: b in cache.locks ==> !InLog(start, b) && b !in Logged()
    }

    /** The cache and the disk agree on the log area. */
    ghost predicate LogClean()
      requires |cache.view| == |cache.disk| && start + LOGSIZE < |cache.disk|
      reads this, cache
    {
      forall b :: InLog(start, b) ==> cache.view[b] == cache.disk[b]
    }

    /** log_write (log.c:214-235); false is a panic. */
    method LogWrite(b: nat) returns (ok: bool)
      requires Valid() && cache.Held(b) && IsHome(cache.disk, start, cache.buf[b].blockno)
      modifies this`n, this`block, cache`buf, cache`pins
      ensures Valid()
      ensures ok <==> old(n) < LOGSIZE && old(n) < size - 1 && outstanding >= 1
      ensures !ok ==> n == old(n) && block == old(block) && cache.pins == old(cache.pins)
      ensures ok ==> Logged() == Absorb(old(Logged()), old(cache.buf)[b].blockno)
      ensures ok ==> cache.pins[old(cache.buf)[b].blockno] == 1
      ensures cache.Held(b)
    {
      hide CacheOk, ByRecency, MovedUp;
      if n >= LOGSIZE || n >= size - 1 || outstanding < 1 {
        return false;
      }
      var x := cache.buf[b].blockno;
      var i := FindBlock(n, block, x);
      block := block[i := x];
      if i == n {
        cache.Bpin(b);
        n := n + 1;
        assert Logged() == old(Logged()) + [x];
      } else {
        assert x == old(Logged())[i];
        assert block == old(block);
      }
      return true;
    }

    /** One test of begin_op's loop (log.c:131-140): reserve, or sleep. */
    method TryBeginOp() returns (begun: bool)
      modifies this`outstanding
      ensures begun <==> !committing && n + (old(outstanding) + 1) * MAXOPBLOCKS <= LOGSIZE
      ensures outstanding == old(outstanding) + (if begun then 1 else 0)
    {
      if committing || n + (outstanding + 1) * MAXOPBLOCKS > LOGSIZE {
        return false;
      }
      outstanding := outstanding + 1;
      return true;
    }

    /** The two reads of a loop turn (log.c:75-76, 185-186). */
    method ReadPair(x: nat, y: nat) returns (ok: bool, a: nat, b: nat)
      requires cache.Valid() && x < |cache.disk| && y < |cache.disk| && x != y && x !in cache.locks && y !in cache.locks
      modifies cache`buf, cache`where, cache`refs, cache`locks
      ensures cache.Valid() && (!ok ==> cache.Exhausted())
      ensures ok ==> cache.locks == old(cache.locks) + {x, y} && cache.Held(a) && cache.Held(b)
      ensures ok ==> cache.buf[a].blockno == x && cache.buf[b].blockno == y
      ensures ok ==> cache.buf[a].data == cache.view[x] && cache.buf[b].data == cache.view[y]
    {
      hide CacheOk, ByRecency, MovedUp;
      a, b := 0, 0;
      var first := cache.Bread(ROOTDEV, x);
      if first.None? { return false, 0, 0; }
      var second := cache.Bread(ROOTDEV, y);
      if second.None? { return false, 0, 0; }
      return true, first.value, second.value;
    }

    /** Copy one locked buffer to another, write that, and release both (log.c:77-81, 187-189). */
    method Transfer(from: nat, to: nat, unpin: bool)
      requires cache.Valid() && cache.Held(from) && cache.Held(to)
      requires cache.buf[from].blockno < |cache.disk| && cache.buf[to].blockno < |cache.disk|
      requires cache.buf[from].blockno != cache.buf[to].blockno
      requires var f := cache.buf[from].blockno; cache.view[f] == cache.disk[f] || cache.pins[f] > 0
      requires unpin ==> cache.pins[cache.buf[to].blockno] > 0
      modifies cache
      ensures var f, t, data := old(cache.buf)[from].blockno, old(cache.buf)[to].blockno, old(cache.buf)[from].data;
              && cache.Valid() && cache.locks == old(cache.locks) - {f, t}
              && cache.disk == old(cache.disk)[t := data] && cache.view == old(cache.view)[t := data]
              && cache.pins == (if unpin then old(cache.pins)[t := old(cache.pins)[t] - 1] else old(cache.pins))
              && cache.history == old(cache.history) + [cache.disk]
    {
      hide CacheOk, ByRecency, MovedUp;
      cache.Store(to, cache.buf[from].data);
      cache.Bwrite(to);
      if unpin {
        cache.Bunpin(to);
      }
      cache.Brelse(from);
      cache.Brelse(to);
    }

    /** The body of write_log's loop (log.c:184-189): cache block to log block. */
    method CopyToLog(t: nat) returns (ok: bool)
      requires Shape() && Quiet() && t < n && PinsAre(cache.pins, Logged())
      modifies cache
      ensures cache.Valid() && cache.pins == old(cache.pins)
      ensures !ok ==> cache.disk == old(cache.disk) && cache.history == old(cache.history)
      ensures ok ==> cache.locks == old(cache.locks)
      ensures ok ==> cache.disk == old(cache.disk)[start + 1 + t := old(cache.view)[block[t]]]
      ensures ok ==> cache.view == old(cache.view)[start + 1 + t := old(cache.view)[block[t]]]
      ensures ok ==> cache.history == old(cache.history) + [cache.disk]
      ensures !ok ==> cache.Exhausted()
    {
      hide CacheOk, ByRecency, MovedUp;
      assert InLog(start, start + 1 + t) && block[t] == Logged()[t];
      assert IsHome(cache.disk, start, block[t]);
      var to, from;
      ok, to, from := ReadPair(start + t + 1, block[t]);
      if ok {
        Transfer(from, to, false);
      }
    }

    /** The body of install_trans's loop (log.c:74-81): log block to home block. */
    method CopyHome(t: nat, recovering: bool) returns (ok: bool)
      requires Shape() && Quiet() && t < n
      requires !recovering ==> cache.pins[block[t]] > 0
      requires LogClean()
      modifies cache
      ensures cache.Valid()
      ensures !ok ==> cache.disk == old(cache.disk) && cache.history == old(cache.history)
      ensures ok ==> cache.locks == old(cache.locks)
      ensures ok ==> cache.pins == if recovering then old(cache.pins)
                                   else old(cache.pins)[block[t] := old(cache.pins)[block[t]] - 1]
      ensures ok ==> cache.disk == old(cache.disk)[block[t] := old(cache.view)[start + 1 + t]]
      ensures ok ==> cache.view == old(cache.view)[block[t] := old(cache.view)[start + 1 + t]]
      ensures ok ==> cache.history == old(cache.history) + [cache.disk]
      ensures !ok ==> cache.Exhausted()
    {
      hide CacheOk, ByRecency, MovedUp, AllHome, PinsAre;
      ListedHome(cache.disk, start, Logged(), t);
      var lbuf, dbuf;
      ok, lbuf, dbuf := ReadPair(start + t + 1, block[t]);
      if ok {
        Transfer(lbuf, dbuf, !recovering);
      }
    }

    /** write_head (log.c:102-114). */
    method WriteHead() returns (ok: bool)
      requires cache.Valid() && start + LOGSIZE < |cache.disk| && n <= |block| == LOGSIZE
      requires start !in cache.locks && cache.view[start] == cache.disk[start]
      modifies cache
      ensures cache.Valid() && cache.pins == old(cache.pins)
      ensures !ok ==> cache.disk == old(cache.disk) && cache.history == old(cache.history)
      ensures ok ==> cache.locks == old(cache.locks)
      ensures ok ==> cache.disk == old(cache.disk)[start := PutHeader(old(cache.disk)[start], Logged())]
      ensures ok ==> cache.view == old(cache.view)[start := cache.disk[start]]
      ensures ok ==> cache.history == old(cache.history) + [cache.disk]
      ensures !ok ==> cache.Exhausted()
    {
      hide CacheOk, ByRecency, MovedUp;
      var b := cache.Bread(ROOTDEV, start);
      if b.None? {
        return false;
      }
      var h := FillHeader(cache.buf[b.value].data, n, block);
      cache.Store(b.value, h);
      cache.Bwrite(b.value);
      cache.Brelse(b.value);
      return true;
    }

    /** write_log (log.c:178-191). */
    method WriteLog() returns (ok: bool, ghost done: nat)
      requires Shape() && Quiet() && LogClean() && PinsAre(cache.pins, Logged())
      modifies cache
      ensures cache.Valid() && cache.pins == old(cache.pins) && done <= n
      ensures var d, v := old(cache.disk), old(cache.view);
              && cache.disk == CommitDisk(d, start, Logged(), v, done)
              && cache.history == old(cache.history) + CommitTrace(d, start, Logged(), v, done)
      ensures ok ==> done == n && cache.locks == old(cache.locks) && Shape() && LogClean()
      ensures ok ==> forall b :: IsHome(old(cache.disk), start, b) ==> cache.view[b] == old(cache.view)[b]
      ensures !ok ==> cache.Exhausted()
    {
      hide CacheOk, ByRecency, MovedUp;
      ghost var d, v := cache.disk, cache.view;
      var tail := 0;
      done := 0;
      while tail < n
        invariant 0 <= tail <= n && done == tail
        invariant Shape() && Quiet() && LogClean()
        invariant cache.pins == old(cache.pins) && cache.locks == old(cache.locks)
        invariant |cache.disk| == |d|
        invariant cache.disk == CommitDisk(d, start, Logged(), v, tail)
        invariant cache.history == old(cache.history) + CommitTrace(d, start, Logged(), v, tail)
        invariant forall b :: IsHome(d, start, b) ==> cache.view[b] == v[b]
      {
        ok := CopyToLog(tail);
        if !ok {
          return;
        }
        CommitLogStep(d, start, Logged(), v, tail);
        CommitTraceStep(d, start, Logged(), v, tail);
        tail := tail + 1;
        done := tail;
      }
      ok := true;
    }

    /** install_trans (log.c:68-83), during a commit or a recovery. */
    method InstallTrans(recovering: bool) returns (ok: bool, ghost done: nat)
      requires Shape() && Quiet() && LogClean()
      requires PinsAre(cache.pins, if recovering then [] else Logged())
      requires !recovering ==> Distinct(Logged())
      modifies cache
      ensures cache.Valid() && done <= n
      ensures cache.disk == ReplayDisk(old(cache.disk), start, Logged(), done)
      ensures cache.history == old(cache.history) + ReplayTrace(old(cache.disk), start, Logged(), done)
      ensures ok ==> done == n && cache.locks == old(cache.locks) && Shape() && LogClean() && PinsAre(cache.pins, [])
      ensures ok ==> Installed(cache.view, cache.disk, old(cache.view), start, Logged(), n)
      ensures !ok ==> cache.Exhausted()
    {
      hide CacheOk, ByRecency, MovedUp, ReplayDisk, ReplayTrace, Installed, PinsAre, Distinct, AllHome, Midway;
      ghost var d, v, trace := cache.disk, cache.view, [];
      var tail := 0;
      done := 0;
      MidwayStart(d, v, start, Logged(), recovering, cache.pins);
      while tail < n
        invariant 0 <= tail <= n && done == tail
        invariant Shape() && Quiet() && LogClean() && cache.locks == old(cache.locks)
        invariant cache.history == old(cache.history) + trace
        invariant Midway(d, v, start, Logged(), tail, recovering, cache.disk, cache.view, cache.pins, trace)
      {
        ghost var view, pins := cache.view, cache.pins;
        MidwayStep(d, v, start, Logged(), tail, recovering, cache.disk, view, pins, trace);
        ok := CopyHome(tail, recovering);
        if !ok {
          MidwayIs(d, v, start, Logged(), tail, recovering, cache.disk, view, pins, trace);
          return;
        }
        trace := trace + [cache.disk];
        tail := tail + 1;
        done := tail;
      }
      ok := true;
      MidwayIs(d, v, start, Logged(), tail, recovering, cache.disk, cache.view, cache.pins, trace);
    }

    /** Install the listed blocks and clear the header: the second half of commit
        (log.c:199-201) and of recover_from_log (log.c:120-122). */
    method Replay(recovering: bool) returns (ok: bool, ghost done: nat)
      requires Shape() && Quiet() && LogClean()
      requires PinsAre(cache.pins, if recovering then [] else Logged())
      requires !recovering ==> Distinct(Logged())
      modifies this`n, cache
      ensures cache.Valid() && done <= old(n) + 1
      ensures cache.disk == ReplayDisk(old(cache.disk), start, old(Logged()), done)
      ensures cache.history == old(cache.history) + ReplayTrace(old(cache.disk), start, old(Logged()), done)
      ensures ok ==> done == old(n) + 1 && n == 0 && cache.locks == old(cache.locks) && Valid()
      ensures ok ==> Installed(cache.view, cache.disk, old(cache.view), start, old(Logged()), old(n))
      ensures !ok ==> cache.Exhausted()
    {
      hide CacheOk, ByRecency, MovedUp, ReplayDisk, ReplayTrace, Installed, PinsAre, AllHome, PutHeader;
      ghost var d, bs := cache.disk, Logged();
      ok, done := InstallTrans(recovering);
      if !ok {
        return;
      }
      ghost var e, v := cache.disk, cache.view;
      assert InLog(start, start);
      n := 0;
      ok := WriteHead();
      assert Logged() == [];
      ReplayTraceStep(d, start, bs, |bs|);
      LastReplayStep(d, start, bs);
      if ok {
        done := done + 1;
        assert cache.disk == ClearHeader(e, start);
        InstalledHeader(v, e, old(cache.view), start, bs, cache.disk[start]);
        NothingListed(cache.disk, start);
      }
    }

    /** write_log and the first write_head of commit (log.c:197-198). */
    method CommitHeader() returns (ok: bool, ghost done: nat)
      requires Valid() && Quiet() && LogClean()
      modifies cache
      ensures cache.Valid() && done <= n + 1 && cache.pins == old(cache.pins)
      ensures var d, v := old(cache.disk), old(cache.view);
              && cache.disk == CommitDisk(d, start, Logged(), v, done)
              && cache.history == old(cache.history) + CommitTrace(d, start, Logged(), v, done)
      ensures ok ==> done == n + 1 && cache.locks == old(cache.locks) && Shape() && LogClean()
      ensures ok ==> forall b :: IsHome(old(cache.disk), start, b) ==> cache.view[b] == old(cache.view)[b]
      ensures !ok ==> cache.Exhausted()
    {
      hide CacheOk, ByRecency, MovedUp, CommitDisk, CommitTrace, PinsAre, Distinct, AllHome, PutHeader;
      ghost var d, v := cache.disk, cache.view;
      ok, done := WriteLog();
      if !ok {
        return;
      }
      assert InLog(start, start);
      ok := WriteHead();
      CommitHeaderStep(d, start, Logged(), v);
      CommitTraceStep(d, start, Logged(), v, n);
      SameLengthHome(d, cache.disk, start, Logged());
      if ok {
        done := done + 1;
      }
    }

    /** Between transfers the log area is neither locked nor pinned, so it is clean. */
    lemma QuietLogIsClean()
      requires Valid() && Quiet()
      ensures LogClean()
    {
      hide Ring, Index, Counts;
      assert forall b :: InLog(start, b) ==> b !in Logged();
    }

    /** commit (log.c:193-203). `done` counts the block writes made. */
    method Commit() returns (ok: bool, ghost done: nat)
      requires Valid() && Quiet()
      modifies this`n, cache
      ensures cache.Valid() && done <= 2 * old(n) + 2 && (old(n) == 0 ==> done == 0)
      ensures var d, v, bs := old(cache.disk), old(cache.view), old(Logged());
              && cache.disk == CommitDisk(d, start, bs, v, done)
              && cache.history == old(cache.history) + CommitTrace(d, start, bs, v, done)
      ensures ok ==> Valid() && n == 0 && cache.locks == old(cache.locks)
      ensures ok ==> done == if old(n) == 0 then 0 else 2 * old(n) + 2
      ensures ok ==> forall b :: IsHome(old(cache.disk), start, b) ==> cache.view[b] == old(cache.view)[b]
      ensures !ok ==> cache.Exhausted()
    {
      hide CacheOk, ByRecency, MovedUp, CommitDisk, CommitTrace, ReplayDisk, ReplayTrace;
      hide Installed, PinsAre, Distinct, AllHome, IsHome, InLog, LogEmpty;
      ghost var d, v, bs := cache.disk, cache.view, Logged();
      CommitStart(d, start, bs, v);
      if n == 0 {
        return true, 0;
      }
      QuietLogIsClean();
      ok, done := CommitHeader();
      if !ok {
        return;
      }
      ghost var c, w, k := cache.disk, cache.view, 0;
      ok, k := Replay(false);
      CommitTraceIsReplay(d, start, bs, v, k);
      CommitIsReplay(d, start, bs, v, k);
      done := done + k;
      if ok {
        CommittedView(d, start, bs, v, w, cache.view);
      }
    }

    /** end_op (log.c:146-175): the last outstanding operation commits; no other
        end_op writes the disk. */
    method EndOp() returns (ok: bool, ghost done: nat)
      requires Valid() && outstanding >= 1 && !committing && (outstanding == 1 ==> Quiet())
      modifies this`n, this`outstanding, this`committing, cache
      ensures outstanding == old(outstanding) - 1 && cache.Valid() && (ok ==> !committing && Valid())
      ensures old(outstanding) > 1 ==>
                ok && done == 0 && n == old(n) && cache.disk == old(cache.disk) && cache.view == old(cache.view)
      ensures ok && old(outstanding) == 1 ==> n == 0 && done == if old(n) == 0 then 0 else 2 * old(n) + 2
      ensures done <= 2 * old(n) + 2 && (old(n) == 0 ==> done == 0)
      ensures var d, v, bs := old(cache.disk), old(cache.view), old(Logged());
              && cache.disk == CommitDisk(d, start, bs, v, done)
              && cache.history == old(cache.history) + CommitTrace(d, start, bs, v, done)
      ensures ok ==> forall b :: IsHome(old(cache.disk), start, b) ==> cache.view[b] == old(cache.view)[b]
      ensures !ok ==> cache.Exhausted()
    {
      hide CacheOk, ByRecency, MovedUp, CommitDisk, CommitTrace, PinsAre, Distinct, AllHome, IsHome, InLog, LogEmpty;
      CommitStart(cache.disk, start, Logged(), cache.view);
      outstanding := outstanding - 1;
      if outstanding > 0 {
        return true, 0;
      }
      committing := true;
      ok, done := Commit();
      if ok {
        committing := false;
      }
    }

    /** read_head (log.c:86-97). */
    method ReadHead() returns (ok: bool)
      requires cache.Valid() && DiskOk(cache.disk, start) && n <= |block| == LOGSIZE
      requires start !in cache.locks && cache.view[start] == cache.disk[start]
      modifies this`n, this`block, cache
      ensures cache.Valid() && cache.disk == old(cache.disk) && cache.view == old(cache.view)
      ensures cache.pins == old(cache.pins) && cache.history == old(cache.history)
      ensures n <= |block| == LOGSIZE
      ensures ok ==> cache.locks == old(cache.locks) && Logged() == HeaderBlocks(cache.disk[start])
      ensures !ok ==> n == old(n)
      ensures !ok ==> cache.Exhausted()
    {
      hide CacheOk, ByRecency, MovedUp;
      var b := cache.Bread(ROOTDEV, start);
      if b.None? {
        return false;
      }
      var h := cache.buf[b.value].data;
      n := h[0];
      var i := 0;
      while i < n
        invariant 0 <= i <= n && n == h[0] && |block| == LOGSIZE
        invariant block[..i] == HeaderBlocks(h)[..i]
        modifies this`block
      {
        assert IsHome(cache.disk, start, HeaderBlocks(h)[i]);
        block := block[i := h[1 + i]];
        i := i + 1;
      }
      cache.Brelse(b.value);
      return true;
    }

    /** recover_from_log (log.c:116-123) on a cold cache. */
    method RecoverFromLog() returns (ok: bool, ghost done: nat)
      requires cache.Valid() && cache.locks == {} && PinsAre(cache.pins, []) && DiskOk(cache.disk, start)
      requires n == 0 && |block| == LOGSIZE
      modifies this`n, this`block, cache
      ensures cache.Valid() && done <= old(cache.disk)[start][0] + 1
      ensures cache.disk == RecoveryDisk(old(cache.disk), start, done)
      ensures cache.history == old(cache.history) +
                ReplayTrace(old(cache.disk), start, HeaderBlocks(old(cache.disk)[start]), done)
      ensures ok ==> done == old(cache.disk)[start][0] + 1 && Valid() && n == 0 && cache.locks == {}
      ensures ok ==> cache.view == cache.disk
      ensures !ok ==> cache.Exhausted()
    {
      ColdCache();
      hide CacheOk, ByRecency, MovedUp, ReplayDisk, ReplayTrace, PinsAre, AllHome;
      ghost var d := cache.disk;
      ReplayStart(d, cache.view, start, HeaderBlocks(d[start]));
      ok := ReadHead();
      if !ok {
        return ok, 0;
      }
      assert LogClean();
      ok, done := Replay(true);
      if ok {
        ColdCache();
      }
    }

    /** With nothing locked and nothing pinned the cache shows the disk. */
    lemma ColdCache()
      requires cache.Valid() && cache.locks == {} && PinsAre(cache.pins, [])
      ensures cache.view == cache.disk
    {
      hide Ring, Index, Counts;
    }
  }

  // ------------------------------------------------ facts about plain disks

  /** Blocks already installed show the disk, the others still show v. */
  ghost predicate Installed(view: Disk, disk: Disk, v: Disk, start: nat, blocks: seq<int>, t: nat) {
    && |view| == |disk| == |v| && t <= |blocks|
    && forall b :: IsHome(disk, start, b) ==> view[b] == if b in blocks[..t] then disk[b] else v[b]
  }

  lemma InstalledStep(view: Disk, disk: Disk, v: Disk, start: nat, blocks: seq<int>, t: nat, x: Block)
    requires Installed(view, disk, v, start, blocks, t) && t < |blocks| && IsHome(disk, start, blocks[t])
    ensures Installed(view[blocks[t] := x], disk[blocks[t] := x], v, start, blocks, t + 1)
  {
    assert blocks[..t + 1] == blocks[..t] + [blocks[t]];
  }

  /** Writing the header block does not matter for home blocks. */
  lemma InstalledHeader(view: Disk, disk: Disk, v: Disk, start: nat, blocks: seq<int>, h: Block)
    requires Installed(view, disk, v, start, blocks, |blocks|) && start < |disk|
    ensures Installed(view[start := h], disk[start := h], v, start, blocks, |blocks|)
  {
    assert InLog(start, start);
  }

  lemma NothingListed(d: Disk, start: nat)
    requires start + LOGSIZE < |d|
    ensures AllHome(d, start, []) && Distinct([])
  {
  }

  lemma CommitStart(d: Disk, start: nat, blocks: seq<int>, v: Disk)
    requires start + LOGSIZE < |d| && |v| == |d| && AllHome(d, start, blocks)
    ensures CommitDisk(d, start, blocks, v, 0) == d && CommitTrace(d, start, blocks, v, 0) == []
  {
  }

  lemma ReplayStart(d: Disk, v: Disk, start: nat, blocks: seq<int>)
    requires start + LOGSIZE < |d| && AllHome(d, start, blocks) && |v| == |d|
    ensures ReplayDisk(d, start, blocks, 0) == d && ReplayTrace(d, start, blocks, 0) == []
    ensures Installed(v, d, v, start, blocks, 0) && blocks[0..] == blocks
  {
  }

  /** After t turns of install_trans: the disk, what the cache shows, the pins, and the disk
      states on the way. */
  ghost predicate Midway(d: Disk, v: Disk, start: nat, blocks: seq<nat>, t: nat, recovering: bool,
                         disk: Disk, view: Disk, pins: seq<nat>, trace: seq<Disk>)
  {
    && start + LOGSIZE < |d| == |v| == |disk| == |view| == |pins| && t <= |blocks| && AllHome(d, start, blocks)
    && AllHome(disk, start, blocks) && PinsAre(pins, if recovering then [] else blocks[t..])
    && disk == ReplayDisk(d, start, blocks, t) && trace == ReplayTrace(d, start, blocks, t)
    && Installed(view, disk, v, start, blocks, t)
  }

  lemma MidwayStart(d: Disk, v: Disk, start: nat, blocks: seq<nat>, recovering: bool, pins: seq<nat>)
    requires start + LOGSIZE < |d| == |v| == |pins| && AllHome(d, start, blocks)
    requires PinsAre(pins, if recovering then [] else blocks)
    ensures Midway(d, v, start, blocks, 0, recovering, d, v, pins, [])
  {
    hide ReplayDisk, ReplayTrace, PinsAre, AllHome;
    ReplayStart(d, v, start, blocks);
  }

  lemma MidwayIs(d: Disk, v: Disk, start: nat, blocks: seq<nat>, t: nat, recovering: bool,
                 disk: Disk, view: Disk, pins: seq<nat>, trace: seq<Disk>)
    requires Midway(d, v, start, blocks, t, recovering, disk, view, pins, trace)
    ensures start + LOGSIZE < |d| && t <= |blocks| && AllHome(d, start, blocks)
    ensures disk == ReplayDisk(d, start, blocks, t) && trace == ReplayTrace(d, start, blocks, t)
    ensures Installed(view, disk, v, start, blocks, t) && (t == |blocks| ==> PinsAre(pins, []))
  {
    hide ReplayDisk, ReplayTrace, PinsAre, AllHome, Installed;
    assert t == |blocks| ==> blocks[t..] == [];
  }

  lemma MidwayStep(d: Disk, v: Disk, start: nat, blocks: seq<nat>, t: nat, recovering: bool,
                   disk: Disk, view: Disk, pins: seq<nat>, trace: seq<Disk>)
    requires Midway(d, v, start, blocks, t, recovering, disk, view, pins, trace) && t < |blocks|
    requires (!recovering ==> Distinct(blocks)) && view[start + 1 + t] == disk[start + 1 + t]
    ensures IsHome(disk, start, blocks[t]) && (!recovering ==> pins[blocks[t]] > 0)
    ensures AllHome(disk[blocks[t] := view[start + 1 + t]], start, blocks)
    ensures var x, b := view[start + 1 + t], blocks[t];
            Midway(d, v, start, blocks, t + 1, recovering, disk[b := x], view[b := x],
                   if recovering then pins else pins[b := pins[b] - 1], trace + [disk[b := x]])
  {
    hide ReplayDisk, ReplayTrace, PinsAre, AllHome, Installed, Distinct;
    ListedHome(disk, start, blocks, t);
    if !recovering { UnpinStep(pins, blocks, t); }
    ReplayTraceStep(d, start, blocks, t);
    ReplayStep(d, start, blocks, t);
    InstalledStep(view, disk, v, start, blocks, t, view[start + 1 + t]);
    SameLengthHome(d, disk[blocks[t] := view[start + 1 + t]], start, blocks);
  }

  lemma ReplayStep(d: Disk, start: nat, blocks: seq<int>, t: nat)
    requires start + LOGSIZE < |d| && AllHome(d, start, blocks) && t < |blocks|
    ensures IsHome(d, start, blocks[t])
    ensures var e := ReplayDisk(d, start, blocks, t);
            ReplayDisk(d, start, blocks, t + 1) == e[blocks[t] := e[start + 1 + t]]
  {
  }

  lemma LastReplayStep(d: Disk, start: nat, blocks: seq<int>)
    requires start + LOGSIZE < |d| && AllHome(d, start, blocks)
    ensures ReplayDisk(d, start, blocks, |blocks| + 1) == ClearHeader(ReplayDisk(d, start, blocks, |blocks|), start)
  {
  }

  /** When the whole transaction is on disk the cache still shows what it showed. */
  lemma CommittedView(d: Disk, start: nat, blocks: seq<int>, v: Disk, w: Disk, now: Disk)
    requires start + LOGSIZE < |d| && |v| == |d| == |w| && AllHome(d, start, blocks)
    requires forall b :: IsHome(d, start, b) ==> w[b] == v[b]
    requires Installed(now, CommitDisk(d, start, blocks, v, 2 * |blocks| + 2), w, start, blocks, |blocks|)
    ensures forall b :: IsHome(d, start, b) ==> now[b] == v[b]
  {
    hide CommitDisk, AllHome, Install;
    ClearedPhase(d, start, blocks, v);
    var e := CommitDisk(d, start, blocks, v, 2 * |blocks| + 2);
    assert blocks[..|blocks|] == blocks;
    EmptyLogRecovers(e, start);
  }

  lemma EmptyLogRecovers(e: Disk, start: nat)
    requires DiskOk(e, start) && LogEmpty(e, start)
    ensures Recovered(e, start) == e
  {
  }

  lemma SameLengthHome(d: Disk, e: Disk, start: nat, blocks: seq<int>)
    requires |d| == |e| && AllHome(d, start, blocks)
    ensures AllHome(e, start, blocks)
  {
    forall i | 0 <= i < |blocks| ensures IsHome(e, start, blocks[i]) { assert IsHome(d, start, blocks[i]); }
  }

  lemma ListedHome(d: Disk, start: nat, blocks: seq<int>, t: nat)
    requires start + LOGSIZE < |d| && AllHome(d, start, blocks) && t < |blocks|
    ensures IsHome(d, start, blocks[t]) && InLog(start, start + 1 + t)
  {
  }

  /** A block leaves the list of distinct pinned blocks. */
  lemma UnpinStep(pins: seq<nat>, blocks: seq<nat>, t: nat)
    requires t < |blocks| && Distinct(blocks) && PinsAre(pins, blocks[t..])
    requires blocks[t] < |pins|
    ensures pins[blocks[t]] == 1 && PinsAre(pins[blocks[t] := pins[blocks[t]] - 1], blocks[t + 1..])
  {
    assert blocks[t..] == [blocks[t]] + blocks[t + 1..];
  }
}

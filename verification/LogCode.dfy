/** The code of log.c follows the machine of LogRuns: each call of class Log.Log is one
    event, and every disk it goes through is one at which that event can be cut. */
module LogCode {
  import opened Basics
  import opened LogFormat
  import opened LogRuns
  import L = Log
  import BufferCache

  ghost function Conf(log: L.Log): Config {
    Config(log.start, log.size)
  }

  /** The code is where the events es lead. */
  ghost predicate Follows(log: L.Log, s0: State, es: seq<Event>)
    reads log, log.cache
  {
    Init(s0, Conf(log)) && Run(s0, Conf(log), es).Some? && InState(log, Run(s0, Conf(log), es).value)
  }

  /** Memory and disk are as the state says; of the log area only the disk is compared. */
  ghost predicate InState(log: L.Log, s: State)
    reads log, log.cache
  {
    && log.Valid() && !log.committing && s.up && log.outstanding == |s.active|
    && log.cache.disk == s.disk && SameHome(log.cache.view, s.view, log.start) && log.Logged() == s.lh
  }

  /** The state after one more event. */
  ghost function Next(log: L.Log, s0: State, es: seq<Event>, e: Event): Option<State> {
    Run(s0, Conf(log), es + [e])
  }

  lemma NextIs(log: L.Log, s0: State, es: seq<Event>, e: Event)
    requires Init(s0, Conf(log)) && Run(s0, Conf(log), es).Some?
    ensures Next(log, s0, es, e) == Step(Run(s0, Conf(log), es).value, Conf(log), e)
    ensures var s := Run(s0, Conf(log), es).value;
            WellFormed(s, Conf(log)) && forall op :: op in s.active ==> op < s.nextOp
  {
    hide Run, Step, Durable, Live, Budget, WellFormed;
    RunSnoc(s0, Conf(log), es, e);
    RunInv(s0, Conf(log), es);
  }

  /** begin_op gets past its loop exactly when an operation can begin. */
  method BeginOp(log: L.Log, ghost s0: State, ghost es: seq<Event>) returns (begun: bool)
    requires Follows(log, s0, es)
    modifies log`outstanding
    ensures begun <==> Next(log, s0, es, Begin).Some?
    ensures begun ==> Follows(log, s0, es + [Begin])
  {
    hide Run, SameHome;
    NextIs(log, s0, es, Begin);
    begun := log.TryBeginOp();
  }

  /** A changed block and its log_write, which panics exactly where the machine goes down. */
  method WriteBlock(log: L.Log, b: nat, data: Block, ghost op: nat, ghost s0: State, ghost es: seq<Event>)
    returns (ok: bool)
    requires Follows(log, s0, es) && log.cache.Held(b)
    requires IsHome(log.cache.disk, log.start, log.cache.buf[b].blockno)
    requires var s := Run(s0, Conf(log), es).value;
             op in s.active && (log.cache.buf[b].blockno in s.lh || s.active[op] > 0)
    modifies log`n, log`block, log.cache`buf, log.cache`view, log.cache`pins
    ensures var e := LogBlock(op, old(log.cache.buf)[b].blockno, data);
            Next(log, s0, es, e).Some? && (ok <==> Next(log, s0, es, e).value.up) && (ok ==> Follows(log, s0, es + [e]))
  {
    hide Run, L.PinsAre, AllHome, BufferCache.CacheOk, BufferCache.ByRecency, SameHome, LogEmpty, L.Absorb;
    ghost var x, v := log.cache.buf[b].blockno, log.cache.view;
    ghost var s := Run(s0, Conf(log), es).value;
    LogNext(log, s0, es, s, op, x, data, v);
    log.cache.Store(b, data);
    ok := log.LogWrite(b);
  }

  /** What the event does. */
  lemma LogNext(log: L.Log, s0: State, es: seq<Event>, s: State, op: nat, x: nat, data: Block, v: Disk)
    requires Init(s0, Conf(log)) && Run(s0, Conf(log), es) == Some(s) && s.up && op in s.active
    requires IsHome(s.disk, log.start, x) && (x in s.lh || s.active[op] > 0)
    requires |v| == |s.disk| && SameHome(v, s.view, log.start)
    ensures |s.active| > 0 && Next(log, s0, es, LogBlock(op, x, data)).Some?
    ensures var t := Next(log, s0, es, LogBlock(op, x, data)).value;
            && (t.up <==> |s.lh| < LOGSIZE && |s.lh| < log.size - 1)
            && (t.up ==> t.disk == s.disk && t.lh == L.Absorb(s.lh, x) && |t.active| == |s.active|
                         && SameHome(v[x := data], t.view, log.start))
  {
    hide Run, L.Absorb, AllHome, DiskOk;
    NextIs(log, s0, es, LogBlock(op, x, data));
    assert s.active.Keys != {};
    if x !in s.lh { SameSize(s.active, op, s.active[op] - 1); }
  }

  lemma SameSize(m: map<nat, nat>, k: nat, v: nat)
    requires k in m
    ensures |m[k := v]| == |m|
  {
    assert m[k := v].Keys == m.Keys;
  }

  lemma FewerKeys(m: map<nat, nat>, k: nat)
    requires k in m
    ensures |m - {k}| == |m| - 1 && (m - {k} == map[] <==> |m| == 1)
  {
    assert (m - {k}).Keys == m.Keys - {k};
  }

  /** Commit reads of the cache only the listed blocks. */
  lemma {:induction false} SameCommit(d: Disk, start: nat, blocks: seq<int>, v: Disk, w: Disk, j: nat)
    requires start + LOGSIZE < |d| && AllHome(d, start, blocks) && |v| == |d| && SameHome(v, w, start)
    requires j <= 2 * |blocks| + 2
    ensures CommitDisk(d, start, blocks, v, j) == CommitDisk(d, start, blocks, w, j)
  {
    if j > 0 {
      SameCommit(d, start, blocks, v, w, j - 1);
      if j <= |blocks| { assert IsHome(d, start, blocks[j - 1]); }
    }
  }

  /** The disks of an end_op by operation op. */
  ghost predicate Cuts(log: L.Log, s0: State, es: seq<Event>, op: nat, disks: seq<Disk>) {
    forall k: nat :: k < |disks| ==> CutAt(log, s0, es, op, k + 1, disks[k])
  }

  ghost predicate CutAt(log: L.Log, s0: State, es: seq<Event>, op: nat, k: nat, disk: Disk) {
    Next(log, s0, es, End(op, k)).Some? && Next(log, s0, es, End(op, k)).value.disk == disk
  }

  /** end_op: the code makes `done` writes, each the machine's, and the whole end_op is its
      whole event. */
  method EndOp(log: L.Log, ghost op: nat, ghost s0: State, ghost es: seq<Event>) returns (ok: bool, ghost done: nat)
    requires Follows(log, s0, es) && op in Run(s0, Conf(log), es).value.active && (log.outstanding == 1 ==> log.Quiet())
    modifies log`n, log`outstanding, log`committing, log.cache
    ensures Next(log, s0, es, End(op, done)).Some? && Next(log, s0, es, End(op, done)).value.disk == log.cache.disk
    ensures old(log.cache.history) <= log.cache.history
    ensures |log.cache.history| == |old(log.cache.history)| + done
    ensures Cuts(log, s0, es, op, log.cache.history[|old(log.cache.history)|..])
    ensures ok ==> Follows(log, s0, es + [End(op, done)])
  {
    hide Run, CommitDisk, AllHome, L.PinsAre, LogEmpty, BufferCache.CacheOk, BufferCache.ByRecency, CommitTrace, Cuts,
         Distinct, IsHome, SameHome, WellFormed;
    ghost var s, d, v := Run(s0, Conf(log), es).value, log.cache.disk, log.cache.view;
    ghost var h := log.cache.history;
    EndCut(log, s0, es, s, op, v, 0);
    ok, done := log.EndOp();
    EndCut(log, s0, es, s, op, v, done);
    EndCuts(log, s0, es, s, op, v, done);
    assert log.cache.history[|h|..] == CommitTrace(d, log.start, s.lh, v, done);
    if ok { SameView(d, v, log.cache.view, s.view, log.start); }
  }

  lemma SameView(d: Disk, v: Disk, w: Disk, view: Disk, start: nat)
    requires |w| == |v| == |d| && (forall b :: IsHome(d, start, b) ==> w[b] == v[b]) && SameHome(v, view, start)
    ensures SameHome(w, view, start)
  {
    forall b | IsHome(w, start, b) ensures w[b] == view[b] {
      assert IsHome(d, start, b) && IsHome(v, start, b);
    }
  }

  lemma EndCuts(log: L.Log, s0: State, es: seq<Event>, s: State, op: nat, v: Disk, k: nat)
    requires Init(s0, Conf(log)) && Run(s0, Conf(log), es) == Some(s) && s.up && op in s.active
    requires |v| == |s.disk| && SameHome(v, s.view, log.start) && k <= 2 * |s.lh| + 2
    requires |s.active| > 1 || s.lh == [] ==> k == 0
    ensures WellFormed(s, Conf(log)) && |CommitTrace(s.disk, log.start, s.lh, v, k)| == k
    ensures Cuts(log, s0, es, op, CommitTrace(s.disk, log.start, s.lh, v, k))
  {
    hide Run, CommitDisk, AllHome, SameHome, Next;
    EndCut(log, s0, es, s, op, v, k);
    assert |CommitTrace(s.disk, log.start, s.lh, v, k)| == k;
    forall i: nat | i < k
      ensures CutAt(log, s0, es, op, i + 1, CommitTrace(s.disk, log.start, s.lh, v, k)[i])
    {
      EndCut(log, s0, es, s, op, v, i + 1);
    }
  }

  /** What the event does when it is cut after k writes. */
  lemma EndCut(log: L.Log, s0: State, es: seq<Event>, s: State, op: nat, v: Disk, k: nat)
    requires Init(s0, Conf(log)) && Run(s0, Conf(log), es) == Some(s) && s.up && op in s.active
    requires |v| == |s.disk| && SameHome(v, s.view, log.start) && k <= 2 * |s.lh| + 2
    requires |s.active| > 1 || s.lh == [] ==> k == 0
    ensures WellFormed(s, Conf(log)) && Next(log, s0, es, End(op, k)).Some?
    ensures var t := Next(log, s0, es, End(op, k)).value;
            && t.disk == CommitDisk(s.disk, log.start, s.lh, v, k)
            && (if |s.active| > 1 || s.lh == [] then t == s.(active := s.active - {op})
                else if k == 2 * |s.lh| + 2 then t.up && t.lh == [] && t.active == map[] && t.view == s.view
                else !t.up)
  {
    hide Run, CommitDisk, AllHome, SameHome;
    NextIs(log, s0, es, End(op, k));
    FewerKeys(s.active, op);
    SameCommit(s.disk, log.start, s.lh, v, s.view, k);
    L.CommitStart(s.disk, log.start, s.lh, s.view);
  }

  /** recover_from_log at boot: likewise. */
  method Recover(log: L.Log, ghost s0: State, ghost es: seq<Event>) returns (ok: bool, ghost done: nat)
    requires Init(s0, Conf(log)) && Run(s0, Conf(log), es).Some? && !Run(s0, Conf(log), es).value.up
    requires log.cache.Valid() && log.cache.locks == {} && L.PinsAre(log.cache.pins, [])
    requires log.cache.disk == Run(s0, Conf(log), es).value.disk
    requires log.n == 0 && |log.block| == LOGSIZE && log.outstanding == 0 && !log.committing
    modifies log`n, log`block, log.cache
    ensures Next(log, s0, es, LogRuns.Recover(done)).Some?
            && Next(log, s0, es, LogRuns.Recover(done)).value.disk == log.cache.disk
    ensures ok ==> Follows(log, s0, es + [LogRuns.Recover(done)])
  {
    hide Run, ReplayDisk, AllHome, L.PinsAre, LogEmpty, Durable, Split, Budget;
    ghost var s := Run(s0, Conf(log), es).value;
    RunInv(s0, Conf(log), es);
    NextIs(log, s0, es, LogRuns.Recover(0));
    ok, done := log.RecoverFromLog();
    NextIs(log, s0, es, LogRuns.Recover(done));
  }
}

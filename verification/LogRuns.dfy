/** Every run of the logging protocol: file system operations begin, log blocks
    and end; the last one to end commits; the machine crashes between any two
    block writes, also while it recovers; and recovery runs again.

    A commit and a recovery appear as one event with the number of block writes
    made before the machine stopped; LogFormat gives the disk at that point and
    class Log.Log shows that the code produces those disks. */
module LogRuns {
  import opened Basics
  import opened LogFormat
  import opened Log

  /** One logged block change, and the operation (system call) that made it. */
  datatype Write = Write(op: nat, block: nat, data: Block)

  /** active: operations in progress and the blocks each may still add to the
      transaction. writes: all changes since boot time zero that were not lost;
      the first `committed` of them are durable. firstOp: the first operation of
      the open transaction. */
  datatype State = State(up: bool, disk: Disk, view: Disk, lh: seq<nat>, active: map<nat, nat>,
                         nextOp: nat, firstOp: nat, writes: seq<Write>, committed: nat)

  datatype Event =
    | Begin
    | LogBlock(op: nat, block: nat, data: Block)
    | End(op: nat, cut: nat)
    | Crash
    | Recover(cut: nat)

  /** The log's place on disk and log.size. */
  datatype Config = Config(start: nat, size: nat)

  predicate Panics(s: State, c: Config) {
    |s.lh| >= LOGSIZE || |s.lh| >= c.size - 1
  }

  ghost predicate WellFormed(s: State, c: Config) {
    && DiskOk(s.disk, c.start) && |s.view| == |s.disk| && AllHome(s.disk, c.start, s.lh)
    && s.committed <= |s.writes|
  }

  /** Power loss: memory is gone, and with it the changes that were not durable. */
  function Down(s: State): State
    requires s.committed <= |s.writes|
  {
    s.(up := false, lh := [], active := map[], writes := s.writes[..s.committed])
  }

  function BeginOp(s: State): Option<State> {
    if s.up && |s.lh| + (|s.active| + 1) * MAXOPBLOCKS <= LOGSIZE
    then Some(s.(active := s.active[s.nextOp := MAXOPBLOCKS], nextOp := s.nextOp + 1))
    else None
  }

  /** log_write of a changed block; an operation adds at most its reserved number
      of blocks to the transaction. */
  function LogWrite(s: State, c: Config, op: nat, b: nat, data: Block): Option<State>
    requires |s.view| == |s.disk| && s.committed <= |s.writes|
  {
    if !s.up || op !in s.active || !IsHome(s.disk, c.start, b) || (b !in s.lh && s.active[op] == 0) then None
    else if Panics(s, c) then Some(Down(s))
    else Some(s.(view := s.view[b := data], lh := Absorb(s.lh, b),
                 active := if b in s.lh then s.active else s.active[op := s.active[op] - 1],
                 writes := s.writes + [Write(op, b, data)]))
  }

  /** end_op: the last operation commits, unless nothing was logged. */
  function EndOp(s: State, c: Config, op: nat, cut: nat): Option<State>
    requires c.start + LOGSIZE < |s.disk| == |s.view| && AllHome(s.disk, c.start, s.lh)
    requires s.committed <= |s.writes|
  {
    if !s.up || op !in s.active then None
    else
      var t := s.(active := s.active - {op});
      if t.active != map[] || t.lh == [] then (if cut == 0 then Some(t) else None)
      else if cut > 2 * |t.lh| + 2 then None
      else
        var u := t.(disk := CommitDisk(t.disk, c.start, t.lh, t.view, cut));
        var v := if cut > |t.lh| then u.(committed := |u.writes|, firstOp := u.nextOp) else u;
        if cut == 2 * |t.lh| + 2 then Some(v.(lh := [])) else Some(Down(v))
  }

  ghost function RecoverFrom(s: State, c: Config, cut: nat): Option<State>
    requires DiskOk(s.disk, c.start)
  {
    if s.up || cut > s.disk[c.start][0] + 1 then None
    else
      var d := RecoveryDisk(s.disk, c.start, cut);
      Some(s.(disk := d, view := d, up := cut == s.disk[c.start][0] + 1))
  }

  ghost function Step(s: State, c: Config, e: Event): Option<State> {
    if !WellFormed(s, c) then None
    else match e
      case Begin => BeginOp(s)
      case LogBlock(op, b, data) => LogWrite(s, c, op, b, data)
      case End(op, cut) => EndOp(s, c, op, cut)
      case Crash => if s.up then Some(Down(s)) else None
      case Recover(cut) => RecoverFrom(s, c, cut)
  }

  /** The state after the events, if each was possible when it came. */
  ghost function Run(s: State, c: Config, es: seq<Event>): Option<State>
    decreases |es|
  {
    if es == [] then Some(s)
    else
      var p := Run(s, c, es[..|es| - 1]);
      if p.None? then None else Step(p.value, c, es[|es| - 1])
  }

  /** The machine before its first boot. */
  ghost predicate Init(s: State, c: Config) {
    DiskOk(s.disk, c.start) && s == State(false, s.disk, s.disk, [], map[], 0, 0, [], 0)
  }

  function Apply(d: Disk, ws: seq<Write>): (r: Disk)
    ensures |r| == |d|
  {
    if ws == [] then d
    else
      var e := Apply(d, ws[..|ws| - 1]);
      var w := ws[|ws| - 1];
      if w.block < |e| then e[w.block := w.data] else e
  }

  // ------------------------------------------------------------ the budget

  ghost function Sum(m: map<nat, nat>): nat {
    if m == map[] then 0 else var k :| k in m; m[k] + Sum(m - {k})
  }

  lemma {:induction false} SumWithout(m: map<nat, nat>, k: nat)
    requires k in m
    ensures Sum(m) == m[k] + Sum(m - {k})
    decreases |m|
  {
    var j :| j in m && Sum(m) == m[j] + Sum(m - {j});
    if j != k {
      SumWithout(m - {j}, k);
      SumWithout(m - {k}, j);
      assert m - {j} - {k} == m - {k} - {j};
    }
  }

  lemma SumUpdate(m: map<nat, nat>, k: nat, v: nat)
    ensures Sum(m[k := v]) == (if k in m then Sum(m) - m[k] else Sum(m)) + v
    ensures k in m ==> m[k] <= Sum(m)
  {
    SumWithout(m[k := v], k);
    if k in m {
      SumWithout(m, k);
      assert m[k := v] - {k} == m - {k};
    } else {
      assert m[k := v] - {k} == m;
    }
  }

  lemma {:induction false} SumBound(m: map<nat, nat>)
    requires forall k :: k in m ==> m[k] <= MAXOPBLOCKS
    ensures Sum(m) <= |m| * MAXOPBLOCKS
    decreases |m|
  {
    if m != map[] {
      var k :| k in m;
      SumWithout(m, k);
      SumBound(m - {k});
      assert |m| == |m - {k}| + 1;
    }
  }

  // ------------------------------------------------------------ the invariant

  /** The durable home blocks are the base with exactly the committed changes. */
  ghost predicate Durable(s: State, c: Config, base: Disk) {
    && |base| == |s.disk| && s.committed <= |s.writes| && DiskOk(s.disk, c.start)
    && SameHome(Recovered(s.disk, c.start), Apply(base, s.writes[..s.committed]), c.start)
  }

  /** Committed changes belong to operations before firstOp, all of them ended;
      the other changes belong to operations of the open transaction. */
  ghost predicate Split(s: State) {
    && s.committed <= |s.writes| && s.firstOp <= s.nextOp
    && (forall i :: 0 <= i < s.committed ==> s.writes[i].op < s.firstOp)
    && (forall i :: s.committed <= i < |s.writes| ==> s.firstOp <= s.writes[i].op < s.nextOp)
    && (forall op :: op in s.active ==> s.firstOp <= op < s.nextOp)
  }

  /** While up, the cache shows all changes and differs from the disk only in
      logged blocks; while down there is no open transaction. */
  ghost predicate Live(s: State, c: Config, base: Disk) {
    && |base| == |s.disk| == |s.view|
    && (s.up ==>
          && LogEmpty(s.disk, c.start)
          && SameHome(s.view, Apply(base, s.writes), c.start)
          && forall b :: IsHome(s.disk, c.start, b) && b !in s.lh ==> s.view[b] == s.disk[b])
    && (!s.up ==> s.active == map[] && s.lh == [] && |s.writes| == s.committed)
  }

  /** The reservation arithmetic of begin_op and log_write. */
  ghost predicate Budget(s: State) {
    && |s.lh| + Sum(s.active) <= LOGSIZE
    && forall op :: op in s.active ==> s.active[op] <= MAXOPBLOCKS
  }

  ghost predicate Inv(s: State, c: Config, base: Disk) {
    WellFormed(s, c) && Durable(s, c, base) && Split(s) && Live(s, c, base) && Budget(s)
  }

  lemma InitInv(s: State, c: Config)
    requires Init(s, c)
    ensures Inv(s, c, Recovered(s.disk, c.start))
  {
    assert s.writes[..0] == [];
  }

  lemma DownInv(s: State, c: Config, base: Disk)
    requires WellFormed(s, c) && Durable(s, c, base) && Split(s) && |base| == |s.view|
    ensures Inv(Down(s), c, base)
  {
    hide Recovered, Apply, SameHome, AllHome;
    assert Down(s).writes[..s.committed] == s.writes[..s.committed];
    assert AllHome(s.disk, c.start, []) by { EmptyList(s.disk, c.start); }
  }

  lemma EmptyList(d: Disk, start: nat)
    ensures AllHome(d, start, [])
  {
  }

  lemma BeginInv(s: State, c: Config, base: Disk)
    requires Inv(s, c, base) && BeginOp(s).Some?
    ensures Inv(BeginOp(s).value, c, base)
  {
    hide Recovered, Apply, SameHome, AllHome, DiskOk;
    SumUpdate(s.active, s.nextOp, MAXOPBLOCKS);
    SumBound(s.active);
    assert s.nextOp !in s.active;
  }

  lemma ApplyLast(d: Disk, ws: seq<Write>, w: Write)
    requires w.block < |d|
    ensures Apply(d, ws + [w]) == Apply(d, ws)[w.block := w.data]
  {
    assert (ws + [w])[..|ws|] == ws;
  }

  lemma LogInv(s: State, c: Config, base: Disk, op: nat, b: nat, data: Block)
    requires Inv(s, c, base) && LogWrite(s, c, op, b, data).Some?
    ensures Inv(LogWrite(s, c, op, b, data).value, c, base)
  {
    hide Recovered, Apply, DiskOk;
    if Panics(s, c) {
      DownInv(s, c, base);
    } else {
      var t := LogWrite(s, c, op, b, data).value;
      ApplyLast(base, s.writes, Write(op, b, data));
      assert t.writes[..s.committed] == s.writes[..s.committed];
      if b !in s.lh { SumUpdate(s.active, op, s.active[op] - 1); }
    }
  }

  /** A complete commit makes every change durable: the cache and the disk agree
      outside the logged blocks, and the logged blocks take the cache's contents. */
  lemma CommitDurable(s: State, c: Config, base: Disk, cut: nat)
    requires WellFormed(s, c) && Durable(s, c, base) && Live(s, c, base) && s.up && cut <= 2 * |s.lh| + 2
    ensures var d := CommitDisk(s.disk, c.start, s.lh, s.view, cut);
            && DiskOk(d, c.start) && |d| == |s.disk|
            && (cut <= |s.lh| ==> SameHome(Recovered(d, c.start), Recovered(s.disk, c.start), c.start))
            && (cut > |s.lh| ==> SameHome(Recovered(d, c.start), Apply(base, s.writes), c.start))
            && (cut == 2 * |s.lh| + 2 ==> LogEmpty(d, c.start) && SameHome(d, s.view, c.start))
  {
    hide CommitDisk, Install, AllHome, Apply;
    CommitIsAtomic(s.disk, c.start, s.lh, s.view, cut);
    EmptyLogRecovers(s.disk, c.start);
    if cut == 2 * |s.lh| + 2 {
      EmptyLogRecovers(CommitDisk(s.disk, c.start, s.lh, s.view, cut), c.start);
    }
  }

  lemma EndInv(s: State, c: Config, base: Disk, op: nat, cut: nat)
    requires Inv(s, c, base) && EndOp(s, c, op, cut).Some?
    ensures Inv(EndOp(s, c, op, cut).value, c, base)
  {
    hide Recovered, Apply, CommitDisk;
    var t := s.(active := s.active - {op});
    SumWithout(s.active, op);
    assert Inv(t, c, base);
    if t.active == map[] && t.lh != [] {
      CommitDurable(t, c, base, cut);
      CommitInv(t, c, base, cut);
    }
  }

  lemma CommitInv(t: State, c: Config, base: Disk, cut: nat)
    requires Inv(t, c, base) && t.up && t.active == map[] && cut <= 2 * |t.lh| + 2
    ensures var u := t.(disk := CommitDisk(t.disk, c.start, t.lh, t.view, cut));
            var v := if cut > |t.lh| then u.(committed := |u.writes|, firstOp := u.nextOp) else u;
            if cut == 2 * |t.lh| + 2 then Inv(v.(lh := []), c, base) else Inv(Down(v), c, base)
  {
    hide Recovered, Apply, CommitDisk, AllHome, Install;
    CommitDurable(t, c, base, cut);
    var u := t.(disk := CommitDisk(t.disk, c.start, t.lh, t.view, cut));
    var v := if cut > |t.lh| then u.(committed := |u.writes|, firstOp := u.nextOp) else u;
    assert t.writes[..|t.writes|] == t.writes;
    SameLengthHome(t.disk, u.disk, c.start, t.lh);
    EmptyList(u.disk, c.start);
    if cut == 2 * |t.lh| + 2 {
    } else {
      DownInv(v, c, base);
    }
  }

  lemma RecoverInv(s: State, c: Config, base: Disk, cut: nat)
    requires Inv(s, c, base) && RecoverFrom(s, c, cut).Some?
    ensures Inv(RecoverFrom(s, c, cut).value, c, base)
  {
    hide Apply, Install, ReplayDisk, AllHome;
    RecoveryIsRestartable(s.disk, c.start, cut);
    var d := RecoveryDisk(s.disk, c.start, cut);
    EmptyList(d, c.start);
    assert s.writes[..s.committed] == s.writes;
    if cut == s.disk[c.start][0] + 1 {
      EmptyLogRecovers(d, c.start);
    }
  }

  /** One event keeps the invariant. */
  lemma StepInv(s: State, c: Config, e: Event, base: Disk)
    requires Inv(s, c, base) && Step(s, c, e).Some?
    ensures Inv(Step(s, c, e).value, c, base)
  {
    hide Inv, Durable, Live, Split, Budget, Down, BeginOp, LogWrite, EndOp, RecoverFrom;
    match e
    case Begin => BeginInv(s, c, base);
    case LogBlock(op, b, data) => LogInv(s, c, base, op, b, data);
    case End(op, cut) => EndInv(s, c, base, op, cut);
    case Crash => CrashInv(s, c, base);
    case Recover(cut) => RecoverInv(s, c, base, cut);
  }

  lemma CrashInv(s: State, c: Config, base: Disk)
    requires Inv(s, c, base)
    ensures Inv(Down(s), c, base)
  {
    DownInv(s, c, base);
  }

  lemma {:induction false} RunInv(s: State, c: Config, es: seq<Event>)
    requires Init(s, c) && Run(s, c, es).Some?
    ensures Inv(Run(s, c, es).value, c, Recovered(s.disk, c.start))
    decreases |es|
  {
    hide Inv, Step;
    if es == [] {
      InitInv(s, c);
    } else {
      var fs := es[..|es| - 1];
      RunInv(s, c, fs);
      StepInv(Run(s, c, fs).value, c, es[|es| - 1], Recovered(s.disk, c.start));
    }
  }

  // ------------------------------------------------------------ the theorems

  /** Crash atomicity of every run: whatever crashed and whenever, recovery gives
      the home blocks that result from exactly the committed changes; an operation
      has all of its changes committed or none; every committed operation had
      ended; and while the system is up the cache shows all changes. */
  lemma CrashAtomicity(s: State, c: Config, es: seq<Event>, t: State)
    requires Init(s, c) && Run(s, c, es) == Some(t)
    ensures DiskOk(t.disk, c.start) && t.committed <= |t.writes|
    ensures SameHome(Recovered(t.disk, c.start),
                     Apply(Recovered(s.disk, c.start), t.writes[..t.committed]), c.start)
    ensures forall i, j :: 0 <= i < |t.writes| && 0 <= j < |t.writes| && t.writes[i].op == t.writes[j].op ==>
              (i < t.committed <==> j < t.committed)
    ensures forall i :: 0 <= i < t.committed ==> t.writes[i].op !in t.active
    ensures t.up ==> SameHome(t.view, Apply(Recovered(s.disk, c.start), t.writes), c.start)
  {
    hide Run, Recovered, Apply, SameHome;
    RunInv(s, c, es);
  }

  /** A committed change stays committed through every later event. */
  lemma StepKeepsCommitted(s: State, c: Config, e: Event, base: Disk)
    requires Inv(s, c, base) && Step(s, c, e).Some?
    ensures var t := Step(s, c, e).value;
            s.committed <= t.committed <= |t.writes| && t.writes[..s.committed] == s.writes[..s.committed]
  {
    hide Durable, Live, Split, Budget, CommitDisk, RecoveryDisk, AllHome;
    StepInv(s, c, e, base);
  }

  lemma {:induction false} Durability(s: State, c: Config, es: seq<Event>, fs: seq<Event>, t: State, u: State)
    requires Init(s, c) && Run(s, c, es) == Some(t) && Run(s, c, es + fs) == Some(u)
    ensures t.committed <= |t.writes| && t.committed <= u.committed <= |u.writes|
    ensures u.writes[..t.committed] == t.writes[..t.committed]
    decreases |fs|
  {
    hide Step, Durable, Live, Budget, WellFormed;
    RunInv(s, c, es);
    if fs == [] {
      assert es + fs == es;
    } else {
      var gs := fs[..|fs| - 1];
      assert (es + fs)[..|es + fs| - 1] == es + gs;
      var v := Run(s, c, es + gs).value;
      Durability(s, c, es, gs, t, v);
      RunInv(s, c, es + gs);
      StepKeepsCommitted(v, c, fs[|fs| - 1], Recovered(s.disk, c.start));
      assert u.writes[..t.committed] == u.writes[..v.committed][..t.committed];
    }
  }

  // ------------------------------------------------------------ the last end_op

  /** With no operation open nothing is listed, and with nothing listed all is committed. */
  ghost predicate Settled(s: State) {
    s.up ==> (s.active == map[] ==> s.lh == []) && (s.lh == [] ==> s.committed == |s.writes|)
  }

  lemma StepSettles(s: State, c: Config, e: Event, base: Disk)
    requires Inv(s, c, base) && Settled(s) && Step(s, c, e).Some?
    ensures Settled(Step(s, c, e).value)
  {
    hide Durable, Split, Budget, CommitDisk, RecoveryDisk, AllHome, Recovered, Apply, SameHome, LogEmpty, DiskOk;
    if e.Begin? { assert s.nextOp in Step(s, c, e).value.active; }
    if e.LogBlock? { assert !Panics(s, c) ==> e.op in Step(s, c, e).value.active; }
  }

  lemma {:induction false} RunSettles(s: State, c: Config, es: seq<Event>)
    requires Init(s, c) && Run(s, c, es).Some?
    ensures Settled(Run(s, c, es).value)
    decreases |es|
  {
    hide Inv, Step;
    if es != [] {
      var fs := es[..|es| - 1];
      RunSettles(s, c, fs);
      RunInv(s, c, fs);
      StepSettles(Run(s, c, fs).value, c, es[|es| - 1], Recovered(s.disk, c.start));
    }
  }

  /** Whenever no operation is open every change is durable: a crash now would lose none,
      and recovery would give what the cache shows. */
  lemma NothingPending(s: State, c: Config, es: seq<Event>, t: State)
    requires Init(s, c) && Run(s, c, es) == Some(t) && t.up && t.active == map[]
    ensures t.lh == [] && t.committed == |t.writes| && DiskOk(t.disk, c.start) && |t.view| == |t.disk|
    ensures SameHome(Recovered(t.disk, c.start), t.view, c.start)
  {
    hide Run, Recovered, Apply;
    RunInv(s, c, es);
    RunSettles(s, c, es);
    assert t.writes[..t.committed] == t.writes;
  }

  lemma OnlyKey(m: map<nat, nat>, k: nat)
    requires k in m
    ensures m - {k} == map[] <==> m.Keys == {k}
  {
    if m - {k} == map[] {
      forall j | j in m ensures j == k { assert j != k ==> j in m - {k}; }
    } else {
      var j :| j in m - {k};
    }
  }

  /** An operation can end at any time. The last one writes 2 * |lh| + 2 blocks, if there are
      any to commit; it can be cut anywhere, and keeps all changes exactly if the header was
      written. Any other end_op writes nothing. */
  lemma EndCommits(s: State, c: Config, es: seq<Event>, t: State, op: nat, cut: nat)
    requires Init(s, c) && Run(s, c, es) == Some(t) && t.up && op in t.active
    ensures var last := t.active.Keys == {op} && t.lh != [];
            var all := if last then 2 * |t.lh| + 2 else 0;
            && (Step(t, c, End(op, cut)).Some? <==> cut <= all)
            && (cut <= all ==>
                  var u := Step(t, c, End(op, cut)).value;
                  && (u.up <==> cut == all)
                  && (cut == all ==> u.writes == t.writes && u.view == t.view && u.active == t.active - {op})
                  && (last ==> u.committed == (if cut > |t.lh| then |t.writes| else t.committed)
                               && u.writes == t.writes[..if cut == all then |t.writes| else u.committed])
                  && (!last ==> u.disk == t.disk && u.lh == t.lh && u.committed == t.committed))
  {
    hide Run, Recovered, Apply, SameHome, CommitDisk, AllHome, DiskOk, Sum;
    RunInv(s, c, es);
    assert t.active - {op} == map[] <==> t.active.Keys == {op} by { OnlyKey(t.active, op); }
    assert t.writes[..|t.writes|] == t.writes;
  }

  /** The listed blocks plus every unspent reservation fit in the log. */
  lemma LogNeverOverfull(s: State, c: Config, es: seq<Event>, t: State)
    requires Init(s, c) && Run(s, c, es) == Some(t)
    ensures |t.lh| + Sum(t.active) <= LOGSIZE
    ensures forall op :: op in t.active ==> |t.lh| + t.active[op] <= LOGSIZE
  {
    hide Run, Recovered, Apply, SameHome;
    RunInv(s, c, es);
    forall op | op in t.active ensures |t.lh| + t.active[op] <= LOGSIZE {
      SumWithout(t.active, op);
    }
  }

  /** In every run, an operation with budget left can log: log_write does not panic. */
  ghost predicate NeverPanics(s: State, c: Config) {
    forall es, op :: Run(s, c, es).Some? && HasBudget(Run(s, c, es).value, op) ==> !Panics(Run(s, c, es).value, c)
  }

  predicate HasBudget(t: State, op: nat) {
    op in t.active && t.active[op] > 0
  }

  // ------------------------------------------------------------ filling the log

  lemma RunSnoc(s: State, c: Config, es: seq<Event>, e: Event)
    requires Run(s, c, es).Some?
    ensures Run(s, c, es + [e]) == Step(Run(s, c, es).value, c, e)
  {
    hide Step;
    assert (es + [e])[..|es|] == es;
  }

  lemma {:induction false} SomeBudget(m: map<nat, nat>) returns (k: nat)
    requires Sum(m) > 0
    ensures k in m && m[k] > 0
    decreases |m|
  {
    k :| k in m;
    SumWithout(m, k);
    if m[k] == 0 { k := SomeBudget(m - {k}); }
  }

  /** A complete recovery. */
  ghost function BootEvent(s: State, c: Config): Event
    requires DiskOk(s.disk, c.start)
  {
    Recover(s.disk[c.start][0] + 1)
  }

  lemma BootStep(s: State, c: Config) returns (t: State)
    requires Init(s, c)
    ensures Step(s, c, BootEvent(s, c)) == Some(t) && t.up && t.lh == [] && t.active == map[] && |t.disk| == |s.disk|
  {
    InitInv(s, c);
    assert WellFormed(s, c);
    hide RecoveryDisk, Recovered, Apply, SameHome, AllHome;
    RecoverInv(s, c, Recovered(s.disk, c.start), s.disk[c.start][0] + 1);
    t := RecoverFrom(s, c, s.disk[c.start][0] + 1).value;
  }

  lemma Boot(s: State, c: Config) returns (es: seq<Event>, t: State)
    requires Init(s, c)
    ensures Run(s, c, es) == Some(t) && t.up && t.lh == [] && t.active == map[] && |t.disk| == |s.disk|
  {
    assert Run(s, c, []) == Some(s);
    hide Run, Step;
    t := BootStep(s, c);
    RunSnoc(s, c, [], BootEvent(s, c));
    es := [] + [BootEvent(s, c)];
  }

  lemma BeginOne(s: State, c: Config, es: seq<Event>, t: State) returns (u: State)
    requires Init(s, c) && Run(s, c, es) == Some(t) && t.up && t.lh == [] && |t.active| < 3
    ensures Run(s, c, es + [Begin]) == Some(u) && u.up && u.lh == [] && |u.disk| == |t.disk|
    ensures |u.active| == |t.active| + 1 && Sum(u.active) == Sum(t.active) + MAXOPBLOCKS
  {
    hide Run, Recovered, Apply, SameHome, Durable, Live, Sum;
    RunSnoc(s, c, es, Begin);
    RunInv(s, c, es);
    SumUpdate(t.active, t.nextOp, MAXOPBLOCKS);
    assert t.nextOp !in t.active;
    u := BeginOp(t).value;
  }

  /** Boot and begin three operations: the whole log is reserved. */
  lemma ThreeOperations(s: State, c: Config) returns (es: seq<Event>, t: State)
    requires Init(s, c)
    ensures Run(s, c, es) == Some(t) && t.up && t.lh == [] && |t.disk| == |s.disk|
    ensures t.active != map[] && Sum(t.active) == LOGSIZE
  {
    hide Run;
    es, t := Boot(s, c);
    t := BeginOne(s, c, es, t);
    t := BeginOne(s, c, es + [Begin], t);
    t := BeginOne(s, c, es + [Begin] + [Begin], t);
    es := es + [Begin] + [Begin] + [Begin];
  }

  /** An operation with budget left adds a new block. */
  lemma LogOne(s: State, c: Config, es: seq<Event>, t: State, op: nat, b: nat) returns (e: Event, u: State)
    requires Init(s, c) && Run(s, c, es) == Some(t) && t.up && HasBudget(t, op) && !Panics(t, c)
    requires IsHome(t.disk, c.start, b) && b !in t.lh
    ensures Run(s, c, es + [e]) == Some(u) && u.up && |u.disk| == |t.disk| && u.lh == t.lh + [b]
    ensures u.active.Keys == t.active.Keys && Sum(u.active) == Sum(t.active) - 1
  {
    hide Run, Recovered, Apply, SameHome, Durable, Live, Sum, Split;
    RunInv(s, c, es);
    e := LogBlock(op, b, t.view[b]);
    RunSnoc(s, c, es, e);
    SumUpdate(t.active, op, t.active[op] - 1);
    u := LogWrite(t, c, op, b, t.view[b]).value;
  }

  /** They can fill the log block by block, up to the limits of log_write. */
  lemma {:induction false} FillLog(s: State, c: Config, k: nat) returns (es: seq<Event>, t: State)
    requires Init(s, c) && c.start + 2 * LOGSIZE < |s.disk| && k <= LOGSIZE && (k == 0 || k < c.size)
    ensures Run(s, c, es) == Some(t) && t.up && |t.disk| == |s.disk|
    ensures t.active != map[] && Sum(t.active) == LOGSIZE - k
    ensures t.lh == seq(k, i => c.start + LOGSIZE + 1 + i)
    decreases k
  {
    hide Run, Sum;
    if k == 0 {
      es, t := ThreeOperations(s, c);
    } else {
      es, t := FillLog(s, c, k - 1);
      var op := SomeBudget(t.active);
      var e, u := LogOne(s, c, es, t, op, c.start + LOGSIZE + k);
      assert op in u.active;
      es, t := es + [e], u;
    }
  }

  // ------------------------------------------------------------ the panic of log_write

  /** The exact condition: log_write never panics on an operation with budget
      left if and only if the log is larger than LOGSIZE blocks. (mkfs makes it
      exactly LOGSIZE.) */
  lemma PanicFreeExactlyWhen(s: State, c: Config)
    requires Init(s, c) && c.start + 2 * LOGSIZE < |s.disk|
    ensures NeverPanics(s, c) <==> c.size > LOGSIZE
  {
    hide Run, Sum;
    if c.size > LOGSIZE {
      forall es, op | Run(s, c, es).Some? && HasBudget(Run(s, c, es).value, op)
        ensures !Panics(Run(s, c, es).value, c)
      {
        LogNeverOverfull(s, c, es, Run(s, c, es).value);
      }
    } else {
      var es, t := FillLog(s, c, if c.size == 0 then 0 else c.size - 1);
      var op := SomeBudget(t.active);
      assert HasBudget(t, op) && Panics(t, c);
    }
  }

  /** Any log_write that an operation can make, also one of a block that is listed
      already, for which no budget is needed: in every run it panics exactly when the
      list has reached the smaller of LOGSIZE and log.size - 1. With a log larger than
      LOGSIZE this means that the list is full, every reservation is spent, and the
      block is one that absorption would have found. */
  lemma PanicsExactlyWhen(s: State, c: Config, es: seq<Event>, t: State, op: nat, b: nat, data: Block)
    requires Init(s, c) && Run(s, c, es) == Some(t) && Step(t, c, LogBlock(op, b, data)).Some?
    ensures !Step(t, c, LogBlock(op, b, data)).value.up <==>
              |t.lh| == LOGSIZE || (c.size <= LOGSIZE && |t.lh| >= c.size - 1)
    ensures c.size > LOGSIZE && !Step(t, c, LogBlock(op, b, data)).value.up ==>
              b in t.lh && forall o :: o in t.active ==> t.active[o] == 0
  {
    hide Run, Sum;
    LogNeverOverfull(s, c, es, t);
  }

  /** No size of the log rules such a panic out: three operations spend all they
      reserved, and one of them logs a listed block again. */
  lemma SomeWritePanics(s: State, c: Config) returns (es: seq<Event>, t: State, op: nat, b: nat, data: Block)
    requires Init(s, c) && c.start + 2 * LOGSIZE < |s.disk|
    ensures Run(s, c, es) == Some(t) && Step(t, c, LogBlock(op, b, data)) == Some(Down(t)) && t.up
    ensures c.size > LOGSIZE ==> b in t.lh && t.active[op] == 0
  {
    hide Run, Sum, Durable, Live, Split;
    var k := if c.size > LOGSIZE then LOGSIZE else if c.size == 0 then 0 else c.size - 1;
    es, t := FillLog(s, c, k);
    RunInv(s, c, es);
    if k < LOGSIZE {
      op := SomeBudget(t.active);
      b := c.start + LOGSIZE + 1;
    } else {
      op :| op in t.active;
      SumWithout(t.active, op);
      b := t.lh[0];
    }
    data := t.view[b];
    assert Panics(t, c) && WellFormed(t, c);
  }
}

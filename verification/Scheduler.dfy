/** The scheduler's choice and its fairness (proc.c:471-563, 758-777). */
module Scheduler {
  import opened Basics

  datatype RunState = Unused | Embryo | Sleeping | Runnable | Running | Zombie

  /** A slot of the process table, as the scheduler sees it. */
  datatype Proc = Proc(state: RunState, priority: int, runTime: nat, sleepTime: nat, totalRunTime: nat, nRuns: nat,
                       createTime: nat)

  const SENTINEL: int := 999999

  /** The share of sleep since the last dispatch, in tenths (proc.c:498-502). */
  function Nice(p: Proc): (r: int)
    ensures 0 <= r <= 10 && (p.runTime + p.sleepTime == 0 ==> r == 5)
    ensures p.runTime + p.sleepTime > 0 ==> IsShare(r, p.sleepTime * 10, p.runTime + p.sleepTime)
  {
    if p.runTime + p.sleepTime > 0 then
      ShareBound(p.runTime, p.sleepTime);
      (p.sleepTime * 10) / (p.runTime + p.sleepTime)
    else 5
  }

  /** r parts of size t are in x, and r + 1 are not. */
  predicate IsShare(r: int, x: nat, t: nat) {
    r * t <= x < (r + 1) * t
  }

  lemma ShareBound(run: nat, sleep: nat)
    requires run + sleep > 0
    ensures 0 <= (sleep * 10) / (run + sleep) <= 10
    ensures IsShare((sleep * 10) / (run + sleep), sleep * 10, run + sleep)
  {
    DivBound(sleep * 10, run + sleep, 10);
    DivShare(sleep * 10, run + sleep);
  }

  lemma DivShare(x: nat, t: nat)
    requires t > 0
    ensures IsShare(x / t, x, t)
  {
    var q := x / t;
    assert x == q * t + x % t;
    assert (q + 1) * t == q * t + t;
  }

  lemma DivBound(x: nat, t: nat, k: nat)
    requires t > 0 && x <= k * t
    ensures x / t <= k
  {
    var q := x / t;
    assert q * t <= x;
    MulOrder(q, k, t);
  }

  lemma MulOrder(a: nat, b: nat, t: nat)
    requires a * t <= b * t && t > 0
    ensures a <= b
  {
  }

  function Clip(x: int): int {
    if x < 0 then 0 else if x > 100 then 100 else x
  }

  /** The dynamic priority (proc.c:508-510): the sum is cut to an int before the clip. */
  function Dp(p: Proc): (r: int)
    ensures 0 <= r <= 100
  {
    Clip(ToInt(p.priority - Nice(p) + 5))
  }

  /** a goes before b: lower dynamic priority, then fewer runs, then older. */
  predicate Less(a: Proc, b: Proc) {
    || Dp(a) < Dp(b)
    || (Dp(a) == Dp(b) && a.nRuns < b.nRuns)
    || (Dp(a) == Dp(b) && a.nRuns == b.nRuns && a.createTime < b.createTime)
  }

  /** Slot i is runnable, no runnable slot goes before it, and it goes before every
      runnable slot with a lower index. */
  ghost predicate Best(procs: seq<Proc>, i: nat) {
    && i < |procs| && procs[i].state == Runnable
    && (forall j :: 0 <= j < |procs| && procs[j].state == Runnable ==> !Less(procs[j], procs[i]))
    && (forall j :: 0 <= j < i && procs[j].state == Runnable ==> Less(procs[i], procs[j]))
  }

  /** What is best compared with any other runnable slot: no higher dynamic priority number;
      if that is equal, no more runs; if these are, no later creation; then the lower index. */
  lemma BestIs(procs: seq<Proc>, i: nat, j: nat)
    requires Best(procs, i) && j < |procs| && procs[j].state == Runnable
    ensures Dp(procs[i]) <= Dp(procs[j])
    ensures Dp(procs[i]) == Dp(procs[j]) ==> procs[i].nRuns <= procs[j].nRuns
    ensures Dp(procs[i]) == Dp(procs[j]) && procs[i].nRuns == procs[j].nRuns ==>
              procs[i].createTime <= procs[j].createTime && (procs[i].createTime == procs[j].createTime ==> i <= j)
  {
    hide Dp;
    assert !Less(procs[j], procs[i]);
    if j < i { assert Less(procs[i], procs[j]); }
  }

  /** The first of the least is unique. */
  lemma BestUnique(procs: seq<Proc>, i: nat, j: nat)
    requires Best(procs, i) && Best(procs, j)
    ensures i == j
  {
  }

  /** The selection loop (proc.c:487-544) over the slots as seen under their locks. It
      holds the lock of the best slot so far and no other between turns. */
  method Select(procs: seq<Proc>) returns (best: int, held: set<nat>)
    ensures best == -1 ==> held == {} && forall j :: 0 <= j < |procs| ==> procs[j].state != Runnable
    ensures best != -1 ==> best >= 0 && Best(procs, best) && held == {best}
  {
    best := -1;
    held := {};
    var bestDp := SENTINEL;
    var p := 0;
    while p < |procs|
      invariant p <= |procs|
      invariant best == -1 ==> held == {} && bestDp == SENTINEL
      invariant best == -1 ==> forall j :: 0 <= j < p ==> procs[j].state != Runnable
      invariant best != -1 ==> 0 <= best < p && held == {best} && bestDp == Dp(procs[best]) && Best(procs[..p], best)
    {
      assert p !in held;
      held := held + {p};
      if procs[p].state != Runnable {
        held := held - {p};
        Skip(procs, p, best);
        p := p + 1;
        continue;
      }
      var dp := Dp(procs[p]);
      var choose := false;
      if dp < bestDp {
        choose := true;
      } else if dp == bestDp && best != -1 && procs[p].nRuns < procs[best].nRuns {
        choose := true;
      } else if dp == bestDp && best != -1 && procs[p].nRuns == procs[best].nRuns
                && procs[p].createTime < procs[best].createTime {
        choose := true;
      }
      Consider(procs, p, best, choose);
      if choose {
        if best != -1 { held := held - {best}; }
        best := p;
        bestDp := dp;
        p := p + 1;
        continue;
      }
      held := held - {p};
      p := p + 1;
    }
    assert procs[..p] == procs;
  }

  lemma Skip(procs: seq<Proc>, p: nat, best: int)
    requires p < |procs| && procs[p].state != Runnable && (best != -1 ==> best >= 0 && Best(procs[..p], best))
    ensures best != -1 ==> Best(procs[..p + 1], best)
  {
  }

  lemma Consider(procs: seq<Proc>, p: nat, best: int, choose: bool)
    requires p < |procs| && procs[p].state == Runnable && (best != -1 ==> best >= 0 && Best(procs[..p], best))
    requires best == -1 ==> choose && forall j :: 0 <= j < p ==> procs[j].state != Runnable
    requires best != -1 ==> best < p && (choose <==> Less(procs[p], procs[best]))
    ensures Best(procs[..p + 1], if choose then p else best)
  {
    hide Less;
    var s, i := procs[..p + 1], if choose then p else best;
    forall j | 0 <= j < |s| && s[j].state == Runnable ensures !Less(s[j], s[i]) {
      if j < p {
        assert procs[..p][j] == s[j];
        if choose && best != -1 { LessTrans(s[p], s[best], s[j]); }
      }
      NotSelf(s[i]);
    }
    forall j | 0 <= j < i && s[j].state == Runnable ensures Less(s[i], s[j]) {
      assert procs[..p][j] == s[j];
      if choose && best != -1 { LessTrans(s[p], s[best], s[j]); }
    }
  }

  /** If a goes before b and c does not, then a goes before c. */
  lemma LessTrans(a: Proc, b: Proc, c: Proc)
    requires Less(a, b) && !Less(c, b)
    ensures Less(a, c) && !Less(c, a)
  {
  }

  lemma NotSelf(a: Proc)
    ensures !Less(a, a)
  {
  }

  // ------------------------------------------------------------ slices

  /** The best slot exists as soon as some slot is runnable. */
  lemma {:induction false} BestExists(procs: seq<Proc>, n: nat, r: nat) returns (best: nat)
    requires r < n <= |procs| && procs[r].state == Runnable
    ensures Best(procs[..n], best)
  {
    var p := n - 1;
    if p > r {
      best := BestExists(procs, p, r);
      if procs[p].state != Runnable {
        Skip(procs, p, best);
      } else {
        Consider(procs, p, best, Less(procs[p], procs[best]));
        best := if Less(procs[p], procs[best]) then p else best;
      }
    } else {
      best := FirstBest(procs, p);
    }
  }

  lemma {:induction false} FirstBest(procs: seq<Proc>, p: nat) returns (best: nat)
    requires p < |procs| && procs[p].state == Runnable
    ensures Best(procs[..p + 1], best)
  {
    if i :| 0 <= i < p && procs[i].state == Runnable {
      best := BestExists(procs, p, i);
      Consider(procs, p, best, Less(procs[p], procs[best]));
      best := if Less(procs[p], procs[best]) then p else best;
    } else {
      Consider(procs, p, -1, true);
      best := p;
    }
  }

  /** Ticks pass: they are charged to the running and the sleeping (proc.c:767-773). */
  function Charged(p: Proc, ticks: nat): Proc {
    if p.state == Running then p.(runTime := p.runTime + ticks, totalRunTime := p.totalRunTime + ticks)
    else if p.state == Sleeping then p.(sleepTime := p.sleepTime + ticks)
    else p
  }

  /** q is p, n ticks later: running time is charged to the running, sleeping time to the
      sleeping, and nobody gets both. */
  predicate Ticked(p: Proc, q: Proc, n: nat) {
    && q.state == p.state && q.priority == p.priority && q.nRuns == p.nRuns && q.createTime == p.createTime
    && q.runTime - p.runTime == q.totalRunTime - p.totalRunTime == (if p.state == Running then n else 0)
    && q.sleepTime - p.sleepTime == if p.state == Sleeping then n else 0
  }

  /** q is p, after a slice of n ticks. */
  predicate Ran(p: Proc, q: Proc, n: nat) {
    && q.state == Runnable && q.priority == p.priority && q.createTime == p.createTime && q.nRuns == p.nRuns + 1
    && q.runTime == n && q.sleepTime == 0 && q.totalRunTime == p.totalRunTime + n
  }

  /** Dispatched: the counts that make up the niceness start again (proc.c:549-553). */
  function Dispatched(p: Proc): Proc {
    p.(state := Running, runTime := 0, sleepTime := 0, nRuns := p.nRuns + 1)
  }

  /** Process i is dispatched, computes for some ticks, and gives up the CPU
      (proc.c:548-561, 592-601); meanwhile the sleepers sleep on. */
  function Slice(procs: seq<Proc>, i: nat, ticks: nat): (r: seq<Proc>)
    requires i < |procs|
    ensures |r| == |procs|
  {
    seq(|procs|, j requires 0 <= j < |procs| =>
      if j == i then Charged(Dispatched(procs[i]), ticks).(state := Runnable) else Charged(procs[j], ticks))
  }

  /** A slice, as far as the slots in `peers` are concerned: whoever of them is runnable afterwards
      was so before and has changed by the slice alone. All other slots may change in any
      way: processes of any priority run, sleep, wake up, exit, and new ones are forked. */
  ghost predicate Next(s: seq<Proc>, peers: set<nat>, i: nat, ticks: nat, t: seq<Proc>) {
    && Best(s, i) && |t| == |s|
    && forall j :: 0 <= j < |t| && j in peers && t[j].state == Runnable ==>
         s[j].state == Runnable && t[j] == Slice(s, i, ticks)[j]
  }

  /** Each slice goes to the best process, and a slice of a peer is charged at least
      `least` ticks. */
  ghost predicate Run(t: seq<seq<Proc>>, peers: set<nat>, chosen: seq<nat>, ticks: seq<nat>, least: nat) {
    && |t| == |chosen| + 1 && |ticks| == |chosen|
    && forall k :: 0 <= k < |chosen| ==>
         (chosen[k] in peers ==> ticks[k] >= least) && Next(t[k], peers, chosen[k], ticks[k], t[k + 1])
  }

  // ------------------------------------------------------------ fairness

  /** One of the processes compared. */
  predicate IsPeer(procs: seq<Proc>, peers: set<nat>, i: nat) {
    i < |procs| && i in peers && procs[i].state == Runnable
  }

  /** The runnable peers were just created and have the same static priority; the
      other slots may hold anything. */
  ghost predicate Fresh(procs: seq<Proc>, peers: set<nat>, priority: int) {
    forall i: nat :: IsPeer(procs, peers, i) ==>
      var p := procs[i]; p.priority == priority && p.runTime == 0 && p.sleepTime == 0 && p.nRuns == 0
  }

  /** No two runnable peers differ by more than one in the number of runs. */
  ghost predicate Level(procs: seq<Proc>, peers: set<nat>) {
    forall i: nat, j: nat :: IsPeer(procs, peers, i) && IsPeer(procs, peers, j) ==> procs[i].nRuns <= procs[j].nRuns + 1
  }

  /** What setpriority can set (proc.c:781). */
  predicate IsInt(x: int) {
    -0x8000_0000 <= x < 0x8000_0000
  }

  /** The clip swallows the niceness: having run or not makes no difference. */
  predicate Flat(priority: int) {
    priority >= 100 || priority <= -5
  }

  /** The sum leaves the range of an int once the niceness is 0. */
  predicate Wraps(priority: int) {
    priority >= 0x7FFF_FFFB
  }

  /** The dynamic priority of a process that never slept, before and after it is charged. */
  function DpBefore(priority: int): int {
    Clip(ToInt(priority))
  }

  function DpAfter(priority: int): int {
    Clip(ToInt(priority + 5))
  }

  /** A process that never slept: default niceness before it runs, none after. */
  lemma CpuBoundDp(p: Proc)
    requires p.sleepTime == 0
    ensures Dp(p) == if p.runTime == 0 then DpBefore(p.priority) else DpAfter(p.priority)
  {
    if p.runTime > 0 { assert 0 / (p.runTime + 0) == 0; }
  }

  /** Having run puts a process behind those that have not, or makes no difference, or puts
      it before them. */
  lemma Ranks(priority: int)
    requires IsInt(priority)
    ensures Wraps(priority) ==> DpBefore(priority) == 100 && DpAfter(priority) == 0
    ensures !Wraps(priority) ==> DpBefore(priority) <= DpAfter(priority)
    ensures !Wraps(priority) ==> (DpBefore(priority) == DpAfter(priority) <==> Flat(priority))
  {
    IntIs(priority);
    IntIs(priority + 5);
  }

  lemma IntIs(x: int)
    requires -0x8000_0000 <= x < 0x8000_0000 + 5
    ensures ToInt(x) == if x < 0x8000_0000 then x else x - TWO32
  {
  }

  /** Runnable peers that never slept, and whose dynamic priorities rank nobody
      before one that ran less. */
  ghost predicate Fair(procs: seq<Proc>, peers: set<nat>, priority: int) {
    && Level(procs, peers)
    && forall i: nat :: IsPeer(procs, peers, i) ==>
         var p := procs[i];
         p.priority == priority && p.sleepTime == 0 && (Flat(priority) || (p.nRuns == 0 <==> p.runTime == 0))
  }

  /** If the best of all is one of the fair processes, it is one of them that ran least. */
  lemma BestRanLeast(procs: seq<Proc>, peers: set<nat>, priority: int, i: nat, j: nat)
    requires Fair(procs, peers, priority) && IsInt(priority) && !Wraps(priority)
    requires Best(procs, i) && IsPeer(procs, peers, i) && IsPeer(procs, peers, j)
    ensures procs[i].nRuns <= procs[j].nRuns
  {
    hide ToInt, Clip, DpBefore, DpAfter, Dp;
    CpuBoundDp(procs[i]);
    CpuBoundDp(procs[j]);
    Ranks(priority);
    assert !Less(procs[j], procs[i]);
  }

  lemma NextFair(s: seq<Proc>, peers: set<nat>, priority: int, i: nat, ticks: nat, t: seq<Proc>)
    requires Fair(s, peers, priority) && Next(s, peers, i, ticks, t) && IsInt(priority) && !Wraps(priority)
    requires i in peers ==> ticks > 0 || Flat(priority)
    ensures Fair(t, peers, priority)
  {
    hide Best, Less, Flat;
    BestRunnable(s, i);
    if i in peers {
      forall j: nat | IsPeer(s, peers, j) ensures s[i].nRuns <= s[j].nRuns { BestRanLeast(s, peers, priority, i, j); }
    }
  }

  lemma BestRunnable(s: seq<Proc>, i: nat)
    requires Best(s, i)
    ensures i < |s| && s[i].state == Runnable
  {
  }

  /** On one CPU, whatever the other slots do, fresh CPU-bound processes of equal static
      priority never differ by more than one in the number of runs, when each of their
      slices is charged a tick or the clip makes the charge irrelevant, and the sum does not
      wrap. */
  lemma {:induction false} Fairness(t: seq<seq<Proc>>, peers: set<nat>, chosen: seq<nat>, ticks: seq<nat>, least: nat,
                                    priority: int, n: nat)
    requires Run(t, peers, chosen, ticks, least) && Fresh(t[0], peers, priority) && n < |t|
    requires IsInt(priority) && !Wraps(priority) && (least > 0 || Flat(priority))
    ensures Fair(t[n], peers, priority)
  {
    if n > 0 {
      Fairness(t, peers, chosen, ticks, least, priority, n - 1);
      NextFair(t[n - 1], peers, priority, chosen[n - 1], ticks[n - 1], t[n]);
    }
  }

  // ------------------------------------------------------------ unfair runs

  /** Nobody but peers is runnable. */
  ghost predicate Alone(s: seq<Proc>, peers: set<nat>) {
    forall i: nat :: i < |s| && s[i].state == Runnable ==> i in peers
  }

  /** A slice after which the other slots are asleep if they were runnable. */
  function Rested(s: seq<Proc>, peers: set<nat>, i: nat, ticks: nat): (r: seq<Proc>)
    requires i < |s|
    ensures |r| == |s|
  {
    var u := Slice(s, i, ticks);
    seq(|s|, j requires 0 <= j < |s| =>
      if j !in peers && u[j].state == Runnable then u[j].(state := Sleeping) else u[j])
  }

  /** Where nobody else is runnable it is the slice alone. */
  lemma RestedAlone(s: seq<Proc>, peers: set<nat>, i: nat, ticks: nat)
    requires i < |s| && IsPeer(s, peers, i) && Alone(s, peers)
    ensures Rested(s, peers, i, ticks) == Slice(s, i, ticks)
  {
  }

  /** The runs of the runnable peers together. */
  function TotalRuns(s: seq<Proc>, peers: set<nat>): nat {
    if s == [] then 0
    else
      var k := |s| - 1;
      TotalRuns(s[..k], peers) + if k in peers && s[k].state == Runnable then s[k].nRuns else 0
  }

  lemma {:induction false} TotalFresh(s: seq<Proc>, peers: set<nat>, priority: int)
    requires Fresh(s, peers, priority)
    ensures TotalRuns(s, peers) == 0
  {
    if s != [] {
      var r := s[..|s| - 1];
      assert forall i: nat :: IsPeer(r, peers, i) ==> IsPeer(s, peers, i);
      TotalFresh(r, peers, priority);
      assert IsPeer(s, peers, |s| - 1) || !(|s| - 1 in peers && s[|s| - 1].state == Runnable);
    }
  }

  /** What such a slice leaves in slot j. */
  lemma RestedAt(s: seq<Proc>, peers: set<nat>, i: nat, ticks: nat, j: nat)
    requires i < |s| && s[i].state == Runnable && j < |s|
    ensures var r := Rested(s, peers, i, ticks)[j];
            && (r.state == Runnable ==> j in peers && s[j].state == Runnable && r == Slice(s, i, ticks)[j])
            && (IsPeer(s, peers, j) ==> r.state == Runnable && r.nRuns == s[j].nRuns + if j == i then 1 else 0)
  {
  }

  lemma {:induction false} TotalRested(s: seq<Proc>, peers: set<nat>, i: nat, ticks: nat, n: nat)
    requires i < |s| && IsPeer(s, peers, i) && n <= |s|
    ensures TotalRuns(Rested(s, peers, i, ticks)[..n], peers) == TotalRuns(s[..n], peers) + if i < n then 1 else 0
  {
    hide Rested, Slice;
    if n > 0 {
      TotalRested(s, peers, i, ticks, n - 1);
      RestedAt(s, peers, i, ticks, n - 1);
      assert s[..n][..n - 1] == s[..n - 1];
      assert Rested(s, peers, i, ticks)[..n][..n - 1] == Rested(s, peers, i, ticks)[..n - 1];
    }
  }

  lemma {:induction false} TotalBound(s: seq<Proc>, peers: set<nat>, k: nat)
    requires forall i: nat :: IsPeer(s, peers, i) ==> s[i].nRuns <= k
    ensures TotalRuns(s, peers) <= k * |s|
  {
    if s != [] {
      var r := s[..|s| - 1];
      assert forall i: nat :: IsPeer(r, peers, i) ==> IsPeer(s, peers, i);
      TotalBound(r, peers, k);
      assert IsPeer(s, peers, |s| - 1) || !(|s| - 1 in peers && s[|s| - 1].state == Runnable);
      assert k * |s| == k * (|s| - 1) + k;
    }
  }

  lemma RestedNext(s: seq<Proc>, peers: set<nat>, i: nat, ticks: nat)
    requires Best(s, i)
    ensures Next(s, peers, i, ticks, Rested(s, peers, i, ticks)) && Alone(Rested(s, peers, i, ticks), peers)
    ensures i in peers ==> TotalRuns(Rested(s, peers, i, ticks), peers) == TotalRuns(s, peers) + 1
  {
    hide Less, Rested, Slice, TotalRuns;
    var r := Rested(s, peers, i, ticks);
    if i in peers { TotalRested(s, peers, i, ticks, |s|); }
    assert s[..|s|] == s && r[..|s|] == r;
    forall j: nat | j < |s| && r[j].state == Runnable
      ensures j in peers && s[j].state == Runnable && r[j] == Slice(s, i, ticks)[j]
    {
      RestedAt(s, peers, i, ticks, j);
    }
  }

  /** The best slot, once nobody but peers is runnable. */
  lemma BestAlone(s: seq<Proc>, peers: set<nat>, o: nat) returns (i: nat)
    requires Alone(s, peers) && IsPeer(s, peers, o)
    ensures Best(s, i) && IsPeer(s, peers, i)
  {
    hide Less;
    i := BestExists(s, |s|, o);
    assert s[..|s|] == s;
  }

  lemma RunMore(t: seq<seq<Proc>>, peers: set<nat>, chosen: seq<nat>, ticks: seq<nat>, least: nat,
                i: nat, more: nat, u: seq<Proc>)
    requires Run(t, peers, chosen, ticks, least) && Next(t[|chosen|], peers, i, more, u) && more >= least
    ensures Run(t + [u], peers, chosen + [i], ticks + [more], least)
  {
    hide Next;
  }

  lemma RunBefore(s: seq<Proc>, t: seq<seq<Proc>>, peers: set<nat>, chosen: seq<nat>, ticks: seq<nat>, least: nat,
                  i: nat, before: nat)
    requires Run(t, peers, chosen, ticks, least) && Next(s, peers, i, before, t[0]) && i !in peers
    ensures Run([s] + t, peers, [i] + chosen, [before] + ticks, least)
  {
    hide Next;
    var tt, cc, kk := [s] + t, [i] + chosen, [before] + ticks;
    forall k | 0 <= k < |cc|
      ensures (cc[k] in peers ==> kk[k] >= least) && Next(tt[k], peers, cc[k], kk[k], tt[k + 1])
    {
      if k > 0 { assert Next(t[k - 1], peers, chosen[k - 1], ticks[k - 1], t[k]); }
    }
  }

  /** Process c ran once and was charged for it; no other runnable process was charged
      since its last dispatch. */
  ghost predicate Starved(s: seq<Proc>, peers: set<nat>, priority: int, c: nat) {
    && IsPeer(s, peers, c) && s[c].priority == priority && s[c].runTime == 1 && s[c].sleepTime == 0 && s[c].nRuns == 1
    && forall i: nat :: IsPeer(s, peers, i) && i != c ==>
         s[i].priority == priority && s[i].runTime == 0 && s[i].sleepTime == 0
  }

  /** At a priority that the clip leaves alone, the charged process is never the best again
      while the others give up the CPU before a tick passes. */
  lemma StarvedOn(s: seq<Proc>, peers: set<nat>, priority: int, c: nat, o: nat) returns (i: nat)
    requires Starved(s, peers, priority, c) && Alone(s, peers) && IsInt(priority) && !Wraps(priority) && !Flat(priority)
    requires IsPeer(s, peers, o) && o != c
    ensures Best(s, i) && i in peers && i != c
    ensures Starved(Rested(s, peers, i, 0), peers, priority, c) && IsPeer(Rested(s, peers, i, 0), peers, o)
  {
    hide ToInt, Clip, DpBefore, DpAfter, Dp;
    i := BestAlone(s, peers, o);
    CpuBoundDp(s[c]);
    CpuBoundDp(s[o]);
    Ranks(priority);
    assert Less(s[o], s[c]);
  }

  lemma StarvedFirst(s: seq<Proc>, peers: set<nat>, priority: int, c: nat, o: nat)
    requires Fresh(s, peers, priority) && IsPeer(s, peers, c) && IsPeer(s, peers, o) && o != c
    ensures Starved(Rested(s, peers, c, 1), peers, priority, c) && IsPeer(Rested(s, peers, c, 1), peers, o)
  {
  }

  /** One process gets the first slice, is charged a tick, and never runs again: for any
      number n of further slices the other peers, which are charged nothing, share them
      all. Where nobody else is runnable these are just slices. */
  lemma {:induction false} Starvation(procs: seq<Proc>, peers: set<nat>, priority: int, c: nat, o: nat, n: nat)
    returns (t: seq<seq<Proc>>, chosen: seq<nat>, ticks: seq<nat>)
    requires Fresh(procs, peers, priority) && IsInt(priority) && !Wraps(priority) && !Flat(priority)
    requires Best(procs, c) && IsPeer(procs, peers, c) && IsPeer(procs, peers, o) && o != c
    ensures Run(t, peers, chosen, ticks, 0) && |chosen| == n + 1 && t[0] == procs
    ensures chosen[0] == c && forall k :: 1 <= k <= n ==> chosen[k] != c
    ensures forall k :: 0 <= k <= n ==> chosen[k] in peers && chosen[k] < |t[k]|
    ensures forall k :: 0 <= k <= n && Alone(t[k], peers) ==> t[k + 1] == Slice(t[k], chosen[k], ticks[k])
    ensures Starved(t[n + 1], peers, priority, c) && Alone(t[n + 1], peers) && |t[n + 1]| == |procs|
    ensures TotalRuns(t[n + 1], peers) == n + 1 && IsPeer(t[n + 1], peers, o)
  {
    hide Best, Less, Flat, Wraps, Next, Slice, Rested, TotalRuns, Alone, Starved;
    if n == 0 {
      TotalFresh(procs, peers, priority);
      RestedNext(procs, peers, c, 1);
      StarvedFirst(procs, peers, priority, c, o);
      t, chosen, ticks := [procs, Rested(procs, peers, c, 1)], [c], [1];
      if Alone(procs, peers) { RestedAlone(procs, peers, c, 1); }
    } else {
      t, chosen, ticks := Starvation(procs, peers, priority, c, o, n - 1);
      var s := t[n];
      var i := StarvedOn(s, peers, priority, c, o);
      BestRunnable(s, i);
      RestedNext(s, peers, i, 0);
      RestedAlone(s, peers, i, 0);
      RunMore(t, peers, chosen, ticks, 0, i, 0, Rested(s, peers, i, 0));
      t, chosen, ticks := t + [Rested(s, peers, i, 0)], chosen + [i], ticks + [0];
    }
  }

  /** More than two runs for each slot, and one process that ran once. */
  lemma NotLevel(s: seq<Proc>, peers: set<nat>, priority: int, c: nat)
    requires Starved(s, peers, priority, c) && TotalRuns(s, peers) > 2 * |s|
    ensures !Level(s, peers)
  {
    if Level(s, peers) { TotalBound(s, peers, 2); }
  }

  /** Process c has run k times and been charged; the other peers have not run. */
  ghost predicate Monopolised(s: seq<Proc>, peers: set<nat>, priority: int, c: nat, k: nat) {
    && IsPeer(s, peers, c) && s[c].priority == priority && s[c].runTime > 0 && s[c].sleepTime == 0 && s[c].nRuns == k
    && forall i: nat :: IsPeer(s, peers, i) && i != c ==>
         s[i].priority == priority && s[i].runTime == 0 && s[i].sleepTime == 0 && s[i].nRuns == 0
  }

  /** At a priority where the sum wraps, the process that was charged is the best. */
  lemma MonopolyOn(s: seq<Proc>, peers: set<nat>, priority: int, c: nat, k: nat)
    requires Monopolised(s, peers, priority, c, k) && Alone(s, peers) && IsInt(priority) && Wraps(priority)
    ensures Best(s, c)
  {
    hide ToInt, Clip, DpBefore, DpAfter, Dp;
    Ranks(priority);
    CpuBoundDp(s[c]);
    forall j: nat | j < |s| && s[j].state == Runnable && j != c ensures Less(s[c], s[j]) && !Less(s[j], s[c]) {
      assert IsPeer(s, peers, j);
      CpuBoundDp(s[j]);
    }
  }

  lemma MonopolyMore(s: seq<Proc>, peers: set<nat>, priority: int, c: nat, o: nat, k: nat, ticks: nat)
    requires IsPeer(s, peers, c) && IsPeer(s, peers, o) && o != c && ticks > 0
    requires if k == 0 then Fresh(s, peers, priority) else Monopolised(s, peers, priority, c, k)
    ensures Monopolised(Rested(s, peers, c, ticks), peers, priority, c, k + 1)
    ensures IsPeer(Rested(s, peers, c, ticks), peers, o)
  {
  }

  /** For the five largest priorities one process gets every slice, any number of them and
      however many ticks each is charged, and the other peers none. */
  lemma {:induction false} Monopoly(procs: seq<Proc>, peers: set<nat>, priority: int, c: nat, o: nat, least: nat,
                                    n: nat)
    returns (t: seq<seq<Proc>>, chosen: seq<nat>, ticks: seq<nat>)
    requires Fresh(procs, peers, priority) && IsInt(priority) && Wraps(priority)
    requires Best(procs, c) && IsPeer(procs, peers, c) && IsPeer(procs, peers, o) && o != c
    ensures Run(t, peers, chosen, ticks, least) && |chosen| == n + 1 && t[0] == procs
    ensures forall k :: 0 <= k <= n ==> chosen[k] == c && ticks[k] > 0 && c < |t[k]|
    ensures forall k :: 0 <= k <= n && Alone(t[k], peers) ==> t[k + 1] == Slice(t[k], c, ticks[k])
    ensures Monopolised(t[n + 1], peers, priority, c, n + 1) && Alone(t[n + 1], peers) && IsPeer(t[n + 1], peers, o)
  {
    hide Best, Less, Wraps, Next, Slice, Rested, Alone, Fresh;
    if n == 0 {
      t, chosen, ticks := [procs], [], [];
    } else {
      t, chosen, ticks := Monopoly(procs, peers, priority, c, o, least, n - 1);
      MonopolyOn(t[n], peers, priority, c, n);
    }
    var s := t[n];
    RestedNext(s, peers, c, least + 1);
    MonopolyMore(s, peers, priority, c, o, n, least + 1);
    RunMore(t, peers, chosen, ticks, least, c, least + 1, Rested(s, peers, c, least + 1));
    if Alone(s, peers) { RestedAlone(s, peers, c, least + 1); }
    t, chosen, ticks := t + [Rested(s, peers, c, least + 1)], chosen + [c], ticks + [least + 1];
  }

  /** Every run from this table, with at least `least` ticks per slice of a peer, keeps them level. */
  ghost predicate AlwaysLevel(procs: seq<Proc>, peers: set<nat>, least: nat) {
    forall t, chosen, ticks, n: nat ::
      Run(t, peers, chosen, ticks, least) && t[0] == procs && n < |t| ==> Level(t[n], peers)
  }

  /** When the condition fails, an unfair run that starts with a peer. */
  lemma Unfair(procs: seq<Proc>, peers: set<nat>, priority: int, c: nat, o: nat, least: nat)
    returns (t: seq<seq<Proc>>, chosen: seq<nat>, ticks: seq<nat>)
    requires Fresh(procs, peers, priority) && IsInt(priority) && (Wraps(priority) || (least == 0 && !Flat(priority)))
    requires Best(procs, c) && IsPeer(procs, peers, c) && IsPeer(procs, peers, o) && o != c
    ensures Run(t, peers, chosen, ticks, least) && t[0] == procs && !Level(t[|t| - 1], peers)
  {
    hide Best, Less, Wraps, Flat, Next, Slice, Fresh, TotalRuns, Alone;
    if Wraps(priority) {
      t, chosen, ticks := Monopoly(procs, peers, priority, c, o, least, 1);
    } else {
      var n := 2 * |procs|;
      t, chosen, ticks := Starvation(procs, peers, priority, c, o, n);
      NotLevel(t[n + 1], peers, priority, c);
    }
  }

  /** The exact condition for fairness, for two or more fresh CPU-bound processes of equal
      static priority among any others: a tick is charged for each of their slices, or the
      priority is one for which the clip makes the charge irrelevant; and the priority is
      not one of the five for which the sum wraps. */
  lemma FairExactlyWhen(procs: seq<Proc>, peers: set<nat>, priority: int, a: nat, b: nat, least: nat)
    requires Fresh(procs, peers, priority) && IsInt(priority) && IsPeer(procs, peers, a) && IsPeer(procs, peers, b)
             && a != b
    ensures AlwaysLevel(procs, peers, least) <==> (least > 0 || Flat(priority)) && priority < 0x7FFF_FFFB
  {
    hide Fair, Flat, Level, Next, Fresh;
    if (least > 0 || Flat(priority)) && !Wraps(priority) {
      forall t, chosen, ticks, n: nat | Run(t, peers, chosen, ticks, least) && t[0] == procs && n < |t|
        ensures Level(t[n], peers)
      {
        Fairness(t, peers, chosen, ticks, least, priority, n);
        FairLevel(t[n], peers, priority);
      }
    } else {
      var t, chosen, ticks := SomeUnfair(procs, peers, priority, a, b, least);
    }
  }

  lemma SomeUnfair(procs: seq<Proc>, peers: set<nat>, priority: int, a: nat, b: nat, least: nat)
    returns (t: seq<seq<Proc>>, chosen: seq<nat>, ticks: seq<nat>)
    requires Fresh(procs, peers, priority) && IsInt(priority) && (Wraps(priority) || (least == 0 && !Flat(priority)))
    requires IsPeer(procs, peers, a) && IsPeer(procs, peers, b) && a != b
    ensures Run(t, peers, chosen, ticks, least) && t[0] == procs && !Level(t[|t| - 1], peers)
  {
    hide Less, Flat, Wraps, Level, Next, Fresh, Slice, Rested, Best;
    var c := BestExists(procs, |procs|, a);
    assert procs[..|procs|] == procs;
    BestRunnable(procs, c);
    if c in peers {
      t, chosen, ticks := Unfair(procs, peers, priority, c, if c == a then b else a, least);
    } else {
      var u := Rested(procs, peers, c, 0);
      RestedNext(procs, peers, c, 0);
      OtherRested(procs, peers, priority, c, a);
      OtherRested(procs, peers, priority, c, b);
      var d := BestAlone(u, peers, a);
      t, chosen, ticks := Unfair(u, peers, priority, d, if d == a then b else a, least);
      RunBefore(procs, t, peers, chosen, ticks, least, c, 0);
      assert ([procs] + t)[|t|] == t[|t| - 1];
      t, chosen, ticks := [procs] + t, [c] + chosen, [0] + ticks;
    }
  }

  /** A slice of another process leaves the peers as they were. */
  lemma OtherRested(s: seq<Proc>, peers: set<nat>, priority: int, i: nat, o: nat)
    requires Fresh(s, peers, priority) && i < |s| && i !in peers && IsPeer(s, peers, o)
    ensures Fresh(Rested(s, peers, i, 0), peers, priority) && IsPeer(Rested(s, peers, i, 0), peers, o)
  {
  }

  lemma FairLevel(s: seq<Proc>, peers: set<nat>, priority: int)
    requires Fair(s, peers, priority)
    ensures Level(s, peers)
  {
  }

  // ------------------------------------------------------------ the table in place

  class Table {
    var procs: seq<Proc>

    /** update_time (proc.c:758-777). */
    method UpdateTime()
      modifies this`procs
      ensures |procs| == |old(procs)| && forall i :: 0 <= i < |procs| ==> procs[i] == Charged(old(procs)[i], 1)
      ensures forall i :: 0 <= i < |procs| ==> Ticked(old(procs)[i], procs[i], 1)
    {
      var p := 0;
      while p < |procs|
        invariant p <= |procs| && |procs| == |old(procs)|
        invariant forall i :: 0 <= i < p ==> procs[i] == Charged(old(procs)[i], 1)
        invariant forall i :: p <= i < |procs| ==> procs[i] == old(procs)[i]
      {
        if procs[p].state == Running {
          procs := procs[p := procs[p].(runTime := procs[p].runTime + 1)];
          procs := procs[p := procs[p].(totalRunTime := procs[p].totalRunTime + 1)];
        } else if procs[p].state == Sleeping {
          procs := procs[p := procs[p].(sleepTime := procs[p].sleepTime + 1)];
        }
        p := p + 1;
      }
    }

    /** One pass of the scheduler on one CPU whose process computes for `ticks` ticks and
        then yields: the best process gets exactly one slice, the sleepers' sleep grows by
        the ticks, and nothing else changes. */
    method Pass(ticks: nat) returns (best: int)
      requires forall i :: 0 <= i < |procs| ==> procs[i].state != Running
      modifies this`procs
      ensures best == -1 ==> procs == old(procs) && forall i :: 0 <= i < |procs| ==> procs[i].state != Runnable
      ensures best != -1 ==> best >= 0 && Best(old(procs), best) && procs == Slice(old(procs), best, ticks)
      ensures best != -1 ==> forall i :: 0 <= i < |procs| && i != best ==> Ticked(old(procs)[i], procs[i], ticks)
      ensures best != -1 ==> Ran(old(procs)[best], procs[best], ticks)
    {
      ghost var was := procs;
      var held;
      best, held := Select(procs);
      if best == -1 { return; }
      procs := procs[best := Dispatched(procs[best])];
      var k := 0;
      while k < ticks
        invariant k <= ticks && |procs| == |was|
        invariant forall j :: 0 <= j < |was| ==>
                    procs[j] == Charged(if j == best then Dispatched(was[j]) else was[j], k)
      {
        UpdateTime();
        k := k + 1;
      }
      procs := procs[best := procs[best].(state := Runnable)];
    }
  }
}

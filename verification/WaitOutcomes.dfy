/** What fork, exit, wait and kill have done when they are done, in every reachable state of
    ExitWait; which kills a waiting process misses; and that wait_lock is always released. */
module WaitOutcomes {
  import opened Basics
  import opened ExitWait

  ghost predicate Reachable(s: State) {
    exists states, actors, events :: Runs(states, actors, events) && s == states[|events|]
  }

  predicate HasChild(s: State, p: nat, c: nat) {
    c < |s.slots| && s.slots[c].parent == Some(p)
  }

  predicate ZombieChild(s: State, p: nat, c: nat) {
    HasChild(s, p, c) && s.slots[c].state == Zombie
  }

  /** A process that remembers having a child, or is about to sleep for one, has one. */
  ghost predicate KidsOk(s: State, p: nat) {
    p < |s.slots| && ((s.slots[p].pc.WaitScan? && s.slots[p].pc.kids) || s.slots[p].pc.SleepEntry?) ==>
      exists c :: HasChild(s, p, c)
  }

  /** Only the holder of wait_lock gives a process a parent or takes it away. */
  lemma ParentsStay(s: State, p: nat, e: Event, c: nat)
    requires Inv(s) && Can(s, p, e) && s.waitLock != Some(p) && c < |s.slots|
    ensures c < |Step(s, p, e).slots| && Step(s, p, e).slots[c].parent == s.slots[c].parent
  {
    hide Pair, Inv;
    assert Local(s, p) && (Forks(s.slots[p].pc).Some? ==> Pair(s, p, Forks(s.slots[p].pc).value)) by { InvAt(s, p); }
    if e.ForkFail? { FreshFork(s, p); }
  }

  lemma InvAt(s: State, p: nat)
    requires Inv(s) && p < |s.slots|
    ensures Local(s, p) && (Forks(s.slots[p].pc).Some? ==> Pair(s, p, Forks(s.slots[p].pc).value))
  {
    assert Local(s, p);
    hide Pair;
  }

  lemma FreshFork(s: State, p: nat)
    requires p < |s.slots| && s.slots[p].pc.ForkHas? && Pair(s, p, s.slots[p].pc.np)
    ensures s.slots[s.slots[p].pc.np].parent == None
  {
  }

  lemma KidsStep(s: State, p: nat, e: Event, q: nat)
    requires Inv(s) && Can(s, p, e) && KidsOk(s, q)
    ensures KidsOk(Step(s, p, e), q)
  {
    hide Inv, Local, Can, Step, KidsOk;
    StepShape(s, p, e);
    if q < |s.slots| {
      InvAt(s, q);
      if q == p { OwnKids(s, p, e); } else { OtherKids(s, p, e, q); }
    } else {
      NoSlot(Step(s, p, e), q);
    }
  }

  lemma NoSlot(s: State, q: nat)
    requires q >= |s.slots|
    ensures KidsOk(s, q)
  {
  }

  lemma OwnKids(s: State, p: nat, e: Event)
    requires Can(s, p, e) && Local(s, p) && KidsOk(s, p)
    ensures KidsOk(Step(s, p, e), p)
  {
    var t := Step(s, p, e);
    if s.slots[p].pc.WaitScan? && p < |t.slots| && t.slots[p].pc.WaitScan? && !s.slots[p].pc.kids {
      assert t.slots[p].pc.kids ==> HasChild(t, p, s.slots[p].pc.i);
    } else if (s.slots[p].pc.WaitScan? && s.slots[p].pc.kids) || s.slots[p].pc.SleepEntry? {
      var c :| HasChild(s, p, c);
      assert p < |t.slots| && (t.slots[p].pc.WaitScan? || t.slots[p].pc.SleepEntry?) ==> HasChild(t, p, c);
    }
  }

  lemma OtherKids(s: State, p: nat, e: Event, q: nat)
    requires Inv(s) && Can(s, p, e) && Local(s, q) && q != p && KidsOk(s, q)
    ensures KidsOk(Step(s, p, e), q)
  {
    hide Inv;
    PcStays(s, p, e, q);
    if (s.slots[q].pc.WaitScan? && s.slots[q].pc.kids) || s.slots[q].pc.SleepEntry? {
      hide Step, Can;
      var c :| HasChild(s, q, c);
      ParentsStay(s, p, e, c);
      assert HasChild(Step(s, p, e), q, c);
    }
  }

  /** Nobody else moves a process, but for one that is freed. */
  lemma PcStays(s: State, p: nat, e: Event, q: nat)
    requires Can(s, p, e) && q < |s.slots| && q != p
    ensures q < |Step(s, p, e).slots|
    ensures Step(s, p, e).slots[q].pc == s.slots[q].pc || Step(s, p, e).slots[q] == FREE
  {
  }

  lemma {:induction false} RunKids(states: seq<State>, actors: seq<nat>, events: seq<Event>, n: nat, q: nat)
    requires Runs(states, actors, events) && n < |states|
    ensures KidsOk(states[n], q)
  {
    hide Inv, Step, Can;
    if n > 0 {
      RunKids(states, actors, events, n - 1, q);
      RunInv(states, actors, events, n - 1);
      KidsStep(states[n - 1], actors[n - 1], events[n - 1], q);
    }
  }

  lemma ReachableInv(s: State, p: nat)
    requires Reachable(s)
    ensures Inv(s) && KidsOk(s, p)
  {
    hide Inv, KidsOk, Step, Can;
    var states, actors, events :| Runs(states, actors, events) && s == states[|events|];
    RunInv(states, actors, events, |events|);
    RunKids(states, actors, events, |events|, p);
  }

  // ------------------------------------------------------------ wait

  predicate InWait(pc: Pc) {
    pc.WaitScan? || pc.SleepEntry? || pc.Going? || pc.Asleep?
  }

  /** Nothing changes but where p is. */
  ghost predicate OnlyMoves(s: State, p: nat, t: State) {
    && |t.slots| == |s.slots| && p < |s.slots| && t.slots[p] == s.slots[p].(pc := t.slots[p].pc)
    && forall c: nat :: c < |s.slots| && c != p ==> t.slots[c] == s.slots[c]
  }

  /** Zombie child z of p, and no other process, is gone. */
  ghost predicate Reaps(s: State, p: nat, z: nat, t: State) {
    && ZombieChild(s, p, z) && |t.slots| == |s.slots| && t.slots[z] == FREE && t.waitLock == None
    && p < |s.slots| && p != z && t.slots[p] == s.slots[p].(pc := Run)
    && forall c: nat :: c < |s.slots| && c != p && c != z ==> t.slots[c] == s.slots[c]
  }

  /** Why a wait returns without a child: the copy failed, it was killed or there is none. */
  ghost predicate NoneToReap(s: State, p: nat, e: Event) {
    || (e == WaitStep(true) && exists z :: ZombieChild(s, p, z))
    || ((forall z :: !ZombieChild(s, p, z)) && p < |s.slots| && s.slots[p].killed)
    || forall c :: !HasChild(s, p, c)
  }

  /** At the end of a scan: no child is a zombie, and the flag says whether there is one. */
  lemma ScanEnds(s: State, p: nat)
    requires Inv(s) && KidsOk(s, p) && p < |s.slots| && s.slots[p].pc.WaitScan? && s.slots[p].pc.i >= |s.slots|
    ensures forall z :: !ZombieChild(s, p, z)
    ensures s.slots[p].pc.kids <==> exists c :: HasChild(s, p, c)
  {
    forall c: nat | HasChild(s, p, c) ensures s.slots[c].state != Zombie && s.slots[p].pc.kids {
      assert Pair(s, p, c);
    }
  }

  /** A scan step before the last slot. */
  lemma ScanStep(s: State, p: nat, copyFails: bool)
    requires Can(s, p, WaitStep(copyFails)) && Local(s, p) && s.slots[p].pc.i < |s.slots|
    requires Local(s, s.slots[p].pc.i)
    ensures var t, i := Step(s, p, WaitStep(copyFails)), s.slots[p].pc.i;
            if !ZombieChild(s, p, i)
              then OnlyMoves(s, p, t) && t.slots[p].pc.WaitScan? && t.slots[p].pc.i == i + 1 && t.waitLock == Some(p)
            else if copyFails then OnlyMoves(s, p, t) && t.slots[p].pc == Run && t.waitLock == None
            else Reaps(s, p, i, t)
  {
  }

  /** The step behind it. */
  lemma LastStep(s: State, p: nat, copyFails: bool)
    requires Can(s, p, WaitStep(copyFails)) && s.slots[p].pc.i >= |s.slots|
    ensures var t := Step(s, p, WaitStep(copyFails));
            && OnlyMoves(s, p, t)
            && if s.slots[p].killed || !s.slots[p].pc.kids then t.slots[p].pc == Run && t.waitLock == None
               else t.slots[p].pc == SleepEntry && t.waitLock == s.waitLock
  {
  }

  /** A wait step reaps the child it is at if that is a zombie; goes on to the next slot; or,
      after the last one, returns or goes to sleep. It sleeps exactly if it was not killed and
      has children, none of which is a zombie. */
  lemma WaitOutcome(s: State, p: nat, copyFails: bool)
    requires Reachable(s) && Can(s, p, WaitStep(copyFails))
    ensures var t, i := Step(s, p, WaitStep(copyFails)), s.slots[p].pc.i;
            && (ZombieChild(s, p, i) && !copyFails ==> Reaps(s, p, i, t))
            && (!(ZombieChild(s, p, i) && !copyFails) ==> OnlyMoves(s, p, t))
            && (t.slots[p].pc == Run && !Reaps(s, p, i, t) ==>
                  NoneToReap(s, p, WaitStep(copyFails)) && t.waitLock == None)
            && (t.slots[p].pc == SleepEntry <==>
                  i >= |s.slots| && !s.slots[p].killed && exists c :: HasChild(s, p, c))
            && (t.slots[p].pc == SleepEntry ==> forall z :: !ZombieChild(s, p, z))
            && (t.slots[p].pc != Run && t.slots[p].pc != SleepEntry ==>
                  t.slots[p].pc.WaitScan? && t.slots[p].pc.i == i + 1 && t.waitLock == Some(p))
  {
    hide Inv, KidsOk, Step, Local;
    ReachableInv(s, p);
    InvAt(s, p);
    var i := s.slots[p].pc.i;
    if i >= |s.slots| {
      ScanEnds(s, p);
      LastStep(s, p, copyFails);
    } else {
      InvAt(s, i);
      ScanStep(s, p, copyFails);
    }
  }

  /** A wait that returns has reaped exactly one zombie child, or had nothing to reap. */
  lemma WaitReturns(s: State, a: nat, e: Event, p: nat)
    requires Reachable(s) && Can(s, a, e) && p < |s.slots| && InWait(s.slots[p].pc)
    requires Step(s, a, e).slots[p].pc == Run
    ensures a == p && e.WaitStep?
    ensures (exists z :: Reaps(s, p, z, Step(s, a, e)))
            || (OnlyMoves(s, p, Step(s, a, e)) && NoneToReap(s, p, e) && Step(s, a, e).waitLock == None)
  {
    hide Reaps, OnlyMoves, NoneToReap;
    ReachableInv(s, p);
    InvAt(s, p);
    InvAt(s, a);
    OnlyOwnReturn(s, a, e, p);
    WaitOutcome(s, p, e.copyFails);
  }

  lemma OnlyOwnReturn(s: State, a: nat, e: Event, p: nat)
    requires Can(s, a, e) && p < |s.slots| && InWait(s.slots[p].pc) && Step(s, a, e).slots[p].pc == Run
    requires Local(s, p) && (Forks(s.slots[a].pc).Some? ==> Pair(s, a, Forks(s.slots[a].pc).value))
    ensures a == p && e.WaitStep?
  {
  }

  // ------------------------------------------------------------ fork and exit

  /** A fork that returns has made a live child of its caller, or given the slot back. */
  lemma ForkReturns(s: State, a: nat, e: Event, p: nat)
    requires Reachable(s) && Can(s, a, e) && p < |s.slots| && Forks(s.slots[p].pc).Some?
    requires Step(s, a, e).slots[p].pc == Run
    ensures var np, t := Forks(s.slots[p].pc).value, Step(s, a, e);
            && a == p && np < |s.slots| && np != p && t.slots[p] == s.slots[p].(pc := Run)
            && (forall c: nat :: c < |s.slots| && c != p && c != np ==> t.slots[c] == s.slots[c])
            && if e == ForkFail then t.slots[np] == FREE
               else t.slots[np] == s.slots[np].(state := Live) && HasChild(t, p, np)
  {
    ReachableInv(s, p);
    InvAt(s, p);
    InvAt(s, a);
    hide Inv, KidsOk;
    ForkIsOwn(s, a, e, p);
  }

  lemma ForkIsOwn(s: State, a: nat, e: Event, p: nat)
    requires Can(s, a, e) && p < |s.slots| && Forks(s.slots[p].pc).Some? && Step(s, a, e).slots[p].pc == Run
    requires Local(s, p) && (Forks(s.slots[a].pc).Some? ==> Pair(s, a, Forks(s.slots[a].pc).value))
    ensures a == p && (e.ForkFail? || e.ForkRun?)
  {
  }

  /** A process that becomes a zombie keeps its parent, who is not at rest, and has no
      children. */
  lemma ExitLeaves(s: State, p: nat)
    requires Reachable(s) && Can(s, p, ExitZombie)
    ensures var t := Step(s, p, ExitZombie);
            && s.slots[p].parent.Some? && ZombieChild(t, s.slots[p].parent.value, p) && t.waitLock == None
            && s.slots[p].parent.value < |t.slots| && !AtRest(t.slots[s.slots[p].parent.value])
            && (forall c :: !HasChild(t, p, c))
            && (forall c: nat :: c < |s.slots| && c != p ==> t.slots[c] == s.slots[c])
  {
    ReachableInv(s, p);
    InvAt(s, p);
    ZombieStep(s, p);
    var q := s.slots[p].parent.value;
    assert Pair(s, q, p);
    forall c: nat ensures !HasChild(Step(s, p, ExitZombie), p, c) {
      if c < |s.slots| { assert Pair(s, p, c); }
      hide Inv;
    }
    hide Inv, Step;
  }

  lemma ZombieStep(s: State, p: nat)
    requires Can(s, p, ExitZombie)
    ensures var t := Step(s, p, ExitZombie);
            && |t.slots| == |s.slots| && t.slots[p].state == Zombie && t.slots[p].parent == s.slots[p].parent
            && t.waitLock == None && forall c: nat :: c < |s.slots| && c != p ==> t.slots[c] == s.slots[c]
  {
  }

  /** A zombie goes only when its parent's wait reaps it. */
  lemma ZombieGoes(s: State, a: nat, e: Event, z: nat)
    requires Reachable(s) && Can(s, a, e) && z < |s.slots| && s.slots[z].state == Zombie
    requires Step(s, a, e).slots[z].state != Zombie
    ensures e == WaitStep(false) && Reaps(s, a, z, Step(s, a, e))
  {
    ReachableInv(s, a);
    InvAt(s, z);
    InvAt(s, a);
    hide Inv, KidsOk;
    OnlyReaped(s, a, e, z);
    WaitOutcome(s, a, false);
  }

  lemma OnlyReaped(s: State, a: nat, e: Event, z: nat)
    requires Can(s, a, e) && z < |s.slots| && s.slots[z].state == Zombie && Step(s, a, e).slots[z].state != Zombie
    requires Local(s, z) && (Forks(s.slots[a].pc).Some? ==> Pair(s, a, Forks(s.slots[a].pc).value))
    ensures e == WaitStep(false) && s.slots[a].pc.i == z && HasChild(s, a, z)
  {
  }

  /** A child changes hands only from an exiting parent to init. */
  lemma ParentChanges(s: State, a: nat, e: Event, q: nat, c: nat)
    requires Reachable(s) && Can(s, a, e) && HasChild(s, q, c)
    ensures ChangesHands(s, a, e, q, c)
  {
    hide Inv, KidsOk, ChangesHands, Local, Pair;
    ReachableInv(s, q);
    InvAt(s, a);
    InvAt(s, c);
    if IsFork(e) { ForkChanges(s, a, e, q, c); } else { OtherChanges(s, a, e, q, c); }
  }

  ghost predicate ChangesHands(s: State, a: nat, e: Event, q: nat, c: nat)
    requires Can(s, a, e)
  {
    var t := Step(s, a, e);
    || HasChild(t, q, c)
    || (HasChild(t, 0, c) && a == q && Exiting(s.slots[a].pc))
    || (ZombieChild(s, q, c) && c < |t.slots| && t.slots[c] == FREE && a == q)
  }

  lemma ForkChanges(s: State, a: nat, e: Event, q: nat, c: nat)
    requires Can(s, a, e) && HasChild(s, q, c) && IsFork(e) && Local(s, c)
    requires Forks(s.slots[a].pc).Some? ==> Pair(s, a, Forks(s.slots[a].pc).value)
    ensures ChangesHands(s, a, e, q, c)
  {
  }

  lemma OtherChanges(s: State, a: nat, e: Event, q: nat, c: nat)
    requires Can(s, a, e) && HasChild(s, q, c) && !IsFork(e) && Local(s, c)
    ensures ChangesHands(s, a, e, q, c)
  {
  }

  // ------------------------------------------------------------ kill

  /** p has decided to sleep, or sleeps, and will look at nothing before it is woken. */
  predicate Committed(x: Slot) {
    x.pc.SleepEntry? || AtRest(x)
  }

  /** The kill came after wait's look at the flag and before sleep took the process lock. */
  predicate KillMissed(s: State, p: nat, e: Event) {
    e == Kill(p) && p < |s.slots| && s.slots[p].pc.SleepEntry?
  }

  /** kill sets the flag and wakes a sleeper. */
  lemma KillMarks(s: State, a: nat, q: nat)
    requires Reachable(s) && Can(s, a, Kill(q))
    ensures var t := Step(s, a, Kill(q));
            && t.slots[q].killed && !AtRest(t.slots[q]) && t.slots[q].pc == s.slots[q].pc
            && t.slots[q].parent == s.slots[q].parent
            && (s.slots[q].state != Sleeping ==> t.slots[q].state == s.slots[q].state)
            && (s.slots[q].state == Sleeping ==> Can(State(t.slots, None), q, WakeAndLock))
            && (forall c: nat :: c < |s.slots| && c != q ==> t.slots[c] == s.slots[c])
  {
    ReachableInv(s, q);
    InvAt(s, q);
  }

  ghost predicate KillsKept(s: State, a: nat, e: Event, p: nat)
    requires Can(s, a, e) && p < |s.slots|
  {
    var t := Step(s, a, e);
    && |t.slots| == |s.slots|
    && var x, y := s.slots[p], t.slots[p];
       && (Committed(y) && y.killed ==> KillMissed(s, p, e) || (Committed(x) && x.killed))
       && (Committed(y) && (KillMissed(s, p, e) || (Committed(x) && x.killed)) ==> y.killed)
  }

  lemma KillStep(s: State, a: nat, e: Event, p: nat)
    requires Inv(s) && Can(s, a, e) && p < |s.slots|
    ensures KillsKept(s, a, e, p)
  {
    hide Inv, Pair, Local, Can, KillsKept;
    InvAt(s, p);
    if IsFork(e) { KillByFork(s, a, e, p); }
    else if IsExit(e) { KillByExit(s, a, e, p); }
    else { KillByWait(s, a, e, p); }
  }

  lemma KillByFork(s: State, a: nat, e: Event, p: nat)
    requires Can(s, a, e) && IsFork(e) && Local(s, p)
    ensures KillsKept(s, a, e, p)
  {
  }

  lemma KillByExit(s: State, a: nat, e: Event, p: nat)
    requires Can(s, a, e) && IsExit(e) && Local(s, p)
    ensures KillsKept(s, a, e, p)
  {
  }

  lemma KillByWait(s: State, a: nat, e: Event, p: nat)
    requires Can(s, a, e) && !IsFork(e) && !IsExit(e) && Local(s, p)
    ensures KillsKept(s, a, e, p)
  {
  }

  /** A kill was missed at m, and p has been on its way to sleep, or asleep, ever since. */
  ghost predicate MissedAt(states: seq<State>, events: seq<Event>, m: nat, n: nat, p: nat) {
    && m < n < |states| && m < |events| && KillMissed(states[m], p, events[m])
    && forall k :: m <= k <= n ==> p < |states[k].slots| && Committed(states[k].slots[p])
  }

  /** The exact condition for a lost kill: a process at rest in wait has been killed if and
      only if a kill came in that window since it decided to sleep. */
  lemma {:induction false} KillLostExactlyWhen(states: seq<State>, actors: seq<nat>, events: seq<Event>, n: nat, p: nat)
    requires Runs(states, actors, events) && n < |states| && p < |states[n].slots| && Committed(states[n].slots[p])
    ensures states[n].slots[p].killed <==> exists m: nat :: MissedAt(states, events, m, n, p)
  {
    hide Inv, Can, Step, Committed, KillMissed, Start;
    if n == 0 {
      NotAtStart(states[0], p);
    } else {
      var s, x := states[n - 1], states[n].slots[p];
      RunInv(states, actors, events, n - 1);
      StepShape(s, actors[n - 1], events[n - 1]);
      KillStep(s, actors[n - 1], events[n - 1], p);
      if Committed(s.slots[p]) { KillLostExactlyWhen(states, actors, events, n - 1, p); }
      if x.killed {
        if KillMissed(s, p, events[n - 1]) {
          MissedIsCommitted(s, p, events[n - 1]);
          assert MissedAt(states, events, n - 1, n, p);
        } else {
          var m: nat :| MissedAt(states, events, m, n - 1, p);
          assert MissedAt(states, events, m, n, p);
        }
      }
      if m: nat :| MissedAt(states, events, m, n, p) {
        assert Committed(states[n - 1].slots[p]);
        if m < n - 1 { assert MissedAt(states, events, m, n - 1, p); }
      }
    }
  }

  /** One more step of a run. */
  lemma Then(states: seq<State>, actors: seq<nat>, events: seq<Event>, p: nat, e: Event, t: State)
    requires Runs(states, actors, events) && Can(states[|events|], p, e) && t == Step(states[|events|], p, e)
    ensures Runs(states + [t], actors + [p], events + [e])
  {
    hide Can, Step, Start;
  }

  /** Init at some place, with one child. */
  function Family(pc: Pc, killed: bool, waitLock: Option<nat>): State {
    State([FREE.(state := Live, pc := pc, killed := killed), FREE.(state := Live, parent := Some(0))], waitLock)
  }

  /** Init has forked a child. */
  lemma OneChild() returns (states: seq<State>, actors: seq<nat>, events: seq<Event>)
    ensures Runs(states, actors, events) && states[|events|] == Family(Run, false, None)
  {
    var idle := FREE.(state := Live);
    var used := FREE.(state := Used);
    var a := State([idle, FREE], None);
    var b := State([idle.(pc := ForkHas(1)), used], None);
    var c := State([idle.(pc := ForkLocked(1)), used], Some(0));
    var d := State([idle.(pc := ForkParent(1)), used.(parent := Some(0))], None);
    states, actors, events := [a], [], [];
    assert Start(a);
    assert b == Step(a, 0, ForkAlloc(1));
    Then(states, actors, events, 0, ForkAlloc(1), b);
    Then([a, b], [0], [ForkAlloc(1)], 0, ForkLock, c);
    Then([a, b, c], [0, 0], [ForkAlloc(1), ForkLock], 0, ForkSet, d);
    var es := [ForkAlloc(1), ForkLock, ForkSet];
    Then([a, b, c, d], [0, 0, 0], es, 0, ForkRun, Family(Run, false, None));
    states, actors, events := [a, b, c, d] + [Family(Run, false, None)], [0, 0, 0] + [0], es + [ForkRun];
  }

  /** One more step, to init at another place. */
  lemma FamilyThen(states: seq<State>, actors: seq<nat>, events: seq<Event>, e: Event, pc: Pc, killed: bool,
                   waitLock: Option<nat>)
    returns (ss: seq<State>, ps: seq<nat>, es: seq<Event>)
    requires Runs(states, actors, events) && Can(states[|events|], 0, e)
    requires Step(states[|events|], 0, e) == Family(pc, killed, waitLock)
    ensures Runs(ss, ps, es) && ss[|es|] == Family(pc, killed, waitLock)
  {
    hide Can, Step, Family, Start;
    Then(states, actors, events, 0, e, Family(pc, killed, waitLock));
    ss, ps, es := states + [Family(pc, killed, waitLock)], actors + [0], events + [e];
  }

  /** Init takes one step to another place. */
  predicate Goes(pc: Pc, killed: bool, waitLock: Option<nat>, e: Event, pc1: Pc, killed1: bool,
                 waitLock1: Option<nat>)
  {
    var s := Family(pc, killed, waitLock);
    Can(s, 0, e) && Step(s, 0, e) == Family(pc1, killed1, waitLock1)
  }

  lemma FamilyScans()
    ensures Goes(Run, false, None, WaitLock, WaitScan(0, false), false, Some(0))
    ensures Goes(WaitScan(0, false), false, Some(0), WaitStep(false), WaitScan(1, false), false, Some(0))
    ensures Goes(WaitScan(1, false), false, Some(0), WaitStep(false), WaitScan(2, true), false, Some(0))
  {
  }

  lemma FamilySleeps()
    ensures Goes(WaitScan(2, true), false, Some(0), WaitStep(false), SleepEntry, false, Some(0))
    ensures Goes(SleepEntry, false, Some(0), Kill(0), SleepEntry, true, Some(0))
  {
  }

  lemma FamilyAtRest()
    ensures var s := Family(SleepEntry, true, Some(0));
            Can(s, 0, SleepLock) && |Step(s, 0, SleepLock).slots| == 2 && AtRest(Step(s, 0, SleepLock).slots[0])
            && Step(s, 0, SleepLock).slots[0].killed
  {
  }

  /** There is such a run, with one child: init looks at the flag, is killed, and sleeps. */
  lemma LostKill() returns (states: seq<State>, actors: seq<nat>, events: seq<Event>)
    ensures Runs(states, actors, events) && |states[|events|].slots| == 2
    ensures AtRest(states[|events|].slots[0]) && states[|events|].slots[0].killed
  {
    hide Can, Step, Family, AtRest;
    FamilyScans();
    FamilySleeps();
    FamilyAtRest();
    states, actors, events := OneChild();
    states, actors, events := FamilyThen(states, actors, events, WaitLock, WaitScan(0, false), false, Some(0));
    states, actors, events := FamilyThen(states, actors, events, WaitStep(false), WaitScan(1, false), false, Some(0));
    states, actors, events := FamilyThen(states, actors, events, WaitStep(false), WaitScan(2, true), false, Some(0));
    states, actors, events := FamilyThen(states, actors, events, WaitStep(false), SleepEntry, false, Some(0));
    states, actors, events := FamilyThen(states, actors, events, Kill(0), SleepEntry, true, Some(0));
    var last := Step(states[|events|], 0, SleepLock);
    Then(states, actors, events, 0, SleepLock, last);
    states, actors, events := states + [last], actors + [0], events + [SleepLock];
  }

  lemma MissedIsCommitted(s: State, p: nat, e: Event)
    requires KillMissed(s, p, e)
    ensures Committed(s.slots[p])
  {
  }

  lemma NotAtStart(s: State, p: nat)
    requires Start(s) && p < |s.slots|
    ensures !Committed(s.slots[p])
  {
  }

  // ------------------------------------------------------------ wait_lock is released

  /** What a process does next; outside these calls it may wait. */
  function NextOf(pc: Pc): Event {
    match pc
    case Run => WaitLock
    case ForkHas(_) => ForkLock
    case ForkParent(_) => ForkRun
    case Going => Sleep
    case Asleep => WakeAndLock
    case Dead => SwitchedAway
    case ForkLocked(_) => ForkSet
    case Reparent(_) => ReparentStep
    case ReparentWake(_, _) => ReparentWakeStep
    case ExitWake(_) => ExitWakeStep
    case ExitSelf => ExitZombie
    case WaitScan(_, _) => WaitStep(false)
    case SleepEntry => SleepLock
  }

  /** The slot whose lock the next step takes, besides the process's own. */
  function Needs(pc: Pc): Option<nat> {
    match pc
    case ForkParent(np) => Some(np)
    case ReparentWake(_, j) => Some(j)
    case ExitWake(j) => Some(j)
    case WaitScan(i, _) => Some(i)
    case _ => None
  }

  /** A process that is not asleep, dead or unused is held up only by wait_lock, or by the lock
      of a process that is switching away; outside these calls it may also fork, if a slot is
      unused, and exit, unless it is init. */
  lemma NeverStuck(s: State, p: nat)
    requires Reachable(s) && p < |s.slots| && (s.slots[p].state == Live || s.slots[p].locked)
    ensures || Can(s, p, NextOf(s.slots[p].pc))
            || (s.waitLock.Some? && s.waitLock != Some(p))
            || (Needs(s.slots[p].pc).Some? && Needs(s.slots[p].pc).value < |s.slots|
                && s.slots[Needs(s.slots[p].pc).value].locked)
    ensures s.slots[p].pc == Run && s.waitLock == None ==> Can(s, p, WaitLock) && (p != 0 ==> Can(s, p, ExitLock))
    ensures forall np: nat :: s.slots[p].pc == Run && np < |s.slots| && s.slots[np].state == Unused ==>
              Can(s, p, ForkAlloc(np))
    ensures s.slots[p].pc.ForkHas? ==> Can(s, p, ForkFail)
    ensures forall q: nat :: q < |s.slots| && !s.slots[q].locked ==> Can(s, p, Kill(q))
  {
    hide Pair, KidsOk;
    ReachableInv(s, p);
    InvAt(s, p);
    forall np: nat | np < |s.slots| && s.slots[np].state == Unused ensures !s.slots[np].locked { InvAt(s, np); }
  }

  /** The holder of wait_lock can go on, or waits for the lock of a process that is switching
      away and can do that. */
  lemma HolderGoesOn(s: State, p: nat) returns (q: nat)
    requires Reachable(s) && s.waitLock == Some(p)
    ensures p < |s.slots|
    ensures Can(s, p, NextOf(s.slots[p].pc))
            || (q < |s.slots| && s.slots[q].locked && (Can(s, q, Sleep) || Can(s, q, SwitchedAway)))
  {
    ReachableInv(s, p);
    InvAt(s, p);
    hide Pair, KidsOk;
    var e := NextOf(s.slots[p].pc);
    q := p;
    if !Can(s, p, e) {
      var pc := s.slots[p].pc;
      q := if pc.ReparentWake? || pc.ExitWake? then pc.j else if pc.WaitScan? then pc.i else p;
      InvAt(s, q);
    }
  }

  /** What the holder still has to do under wait_lock, with n slots: turns of the loop it is
      in and of those around it, the outer ones first. */
  function Left(pc: Pc, n: nat): (int, int) {
    match pc
    case Reparent(i) => (3 + 2 * (n - i), 0)
    case ReparentWake(i, j) => (2 + 2 * (n - i), n - j)
    case ExitWake(j) => (2, n - j)
    case WaitScan(i, _) => (2, n - i)
    case _ => (1, 0)
  }

  /** Before, with a first part that has a bound below; so has the second while it counts. */
  predicate Before(a: (int, int), b: (int, int)) {
    b.0 >= 1 && (a.0 < b.0 || (a.0 == b.0 && a.1 < b.1 && b.1 >= 0))
  }

  /** Each step of its holder releases wait_lock or leaves less to do. */
  lemma HolderReleases(s: State, p: nat, e: Event)
    requires Reachable(s) && s.waitLock == Some(p) && Can(s, p, e) && !e.Kill?
    ensures var t := Step(s, p, e);
            t.waitLock == None || (t.waitLock == Some(p) && |t.slots| == |s.slots|
                                   && Before(Left(t.slots[p].pc, |s.slots|), Left(s.slots[p].pc, |s.slots|)))
  {
    hide KidsOk, Inv, Pair;
    ReachableInv(s, p);
    InvAt(s, p);
    if e.WaitStep? { HolderWaits(s, p, e); } else { HolderExits(s, p, e); }
  }

  lemma HolderWaits(s: State, p: nat, e: Event)
    requires s.waitLock == Some(p) && Can(s, p, e) && e.WaitStep? && Local(s, p)
    ensures var t := Step(s, p, e);
            t.waitLock == None || (t.waitLock == Some(p) && |t.slots| == |s.slots|
                                   && Before(Left(t.slots[p].pc, |s.slots|), Left(s.slots[p].pc, |s.slots|)))
  {
  }

  lemma HolderExits(s: State, p: nat, e: Event)
    requires s.waitLock == Some(p) && Can(s, p, e) && !e.WaitStep? && !e.Kill? && Local(s, p)
    ensures var t := Step(s, p, e);
            t.waitLock == None || (t.waitLock == Some(p) && |t.slots| == |s.slots|
                                   && Before(Left(t.slots[p].pc, |s.slots|), Left(s.slots[p].pc, |s.slots|)))
  {
  }
}

/** fork, exit, wait, reparent, sleep, wakeup and kill as steps of processes that share
    wait_lock and the process locks (proc.c:302-458, 620-680). A step is what happens
    between two points where another process could run. */
module ExitWait {
  import opened Basics

  datatype PState = Unused | Used | Live | Sleeping | Zombie

  /** Where a process is in its system call. */
  datatype Pc =
    | Run                          // outside these calls
    | ForkHas(np: nat)             // fork: slot np is allocated
    | ForkLocked(np: nat)          // fork: has wait_lock
    | ForkParent(np: nat)          // fork: the child has its parent
    | Reparent(i: nat)             // exit: has wait_lock, looks at slot i
    | ReparentWake(i: nat, j: nat) // exit: slot i is init's; waking init, at slot j
    | ExitWake(j: nat)             // exit: waking the parent, at slot j
    | ExitSelf                     // exit: about to become a zombie
    | Dead
    | WaitScan(i: nat, kids: bool) // wait: has wait_lock, looks at slot i
    | SleepEntry                   // wait: still has wait_lock, about to call sleep
    | Going                        // sleep: has its own lock, wait_lock released
    | Asleep                       // sleep: switched away; back once woken

  datatype Slot = Slot(state: PState, parent: Option<nat>, chan: Option<nat>, pc: Pc, locked: bool, killed: bool)

  /** The process table, whose slot 0 is init, and who has wait_lock. `locked` is set for a
      process that keeps its own lock between steps. */
  datatype State = State(slots: seq<Slot>, waitLock: Option<nat>)

  const FREE := Slot(Unused, None, None, Run, false, false)

  /** The process will not look for zombies before it is woken. */
  predicate AtRest(p: Slot) {
    p.pc == Going || (p.pc == Asleep && p.state == Sleeping)
  }

  predicate HasWait(pc: Pc) {
    pc.ForkLocked? || pc.Reparent? || pc.ReparentWake? || pc.ExitWake? || pc.ExitSelf? || pc.WaitScan?
    || pc.SleepEntry?
  }

  function Forks(pc: Pc): Option<nat> {
    match pc case ForkHas(np) => Some(np) case ForkLocked(np) => Some(np) case ForkParent(np) => Some(np) case _ => None
  }

  // ------------------------------------------------------------ steps

  datatype Event =
    | ForkAlloc(np: nat) | ForkFail | ForkLock | ForkSet | ForkRun
    | ExitLock | ReparentStep | ReparentWakeStep | ExitWakeStep | ExitZombie | SwitchedAway
    | WaitLock | WaitStep(copyFails: bool) | SleepLock | Sleep | WakeAndLock
    | Kill(q: nat)

  /** Process p can take the step; one that needs a lock waits until it is free. */
  predicate Can(s: State, p: nat, e: Event) {
    && p < |s.slots|
    && var me := s.slots[p];
       match e
       case ForkAlloc(np) => me.pc == Run && me.state == Live && np < |s.slots| && s.slots[np].state == Unused
         && !s.slots[np].locked
       case ForkFail => me.pc.ForkHas? && me.pc.np < |s.slots|
       case ForkLock => me.pc.ForkHas? && s.waitLock == None
       case ForkSet => me.pc.ForkLocked? && me.pc.np < |s.slots|
       case ForkRun => me.pc.ForkParent? && me.pc.np < |s.slots| && !s.slots[me.pc.np].locked
       case ExitLock => me.pc == Run && me.state == Live && p != 0 && s.waitLock == None
       case ReparentStep => me.pc.Reparent?
       case ReparentWakeStep => me.pc.ReparentWake?
         && (me.pc.j < |s.slots| && me.pc.j != p ==> !s.slots[me.pc.j].locked)
       case ExitWakeStep => me.pc.ExitWake? && (me.pc.j < |s.slots| && me.pc.j != p ==> !s.slots[me.pc.j].locked)
       case ExitZombie => me.pc.ExitSelf? && !me.locked
       case SwitchedAway => me.pc.Dead? && me.locked
       case WaitLock => me.pc == Run && me.state == Live && s.waitLock == None
       case WaitStep(_) => me.pc.WaitScan?
         && (me.pc.i < |s.slots| && s.slots[me.pc.i].parent == Some(p) ==> !s.slots[me.pc.i].locked) && !me.locked
       case SleepLock => me.pc == SleepEntry && !me.locked
       case Sleep => me.pc == Going
       case WakeAndLock => me.pc == Asleep && me.state == Live && s.waitLock == None
       case Kill(q) => q < |s.slots| && !s.slots[q].locked
  }

  /** wakeup(chan) at slot j, by process p (proc.c:640-655). */
  function Wake(slots: seq<Slot>, p: nat, j: nat, chan: Option<nat>): seq<Slot>
    requires j < |slots|
  {
    if j != p && slots[j].state == Sleeping && chan.Some? && slots[j].chan == chan
        then slots[j := slots[j].(state := Live)] else slots
  }

  function At(slots: seq<Slot>, p: nat, pc: Pc): seq<Slot>
    requires p < |slots|
  {
    slots[p := slots[p].(pc := pc)]
  }

  function Step(s: State, p: nat, e: Event): State
    requires Can(s, p, e)
  {
    var me, t := s.slots[p], s.slots;
    match e
    case ForkAlloc(np) => s.(slots := At(t[np := t[np].(state := Used)], p, ForkHas(np)))
    case ForkFail => s.(slots := At(t[me.pc.np := FREE], p, Run))
    case ForkLock => State(At(t, p, ForkLocked(me.pc.np)), Some(p))
    case ForkSet => State(At(t[me.pc.np := t[me.pc.np].(parent := Some(p))], p, ForkParent(me.pc.np)), None)
    case ForkRun => s.(slots := At(t[me.pc.np := t[me.pc.np].(state := Live)], p, Run))
    case ExitLock => State(At(t, p, Reparent(0)), Some(p))
    case ReparentStep =>
      if me.pc.i >= |t| then s.(slots := At(t, p, ExitWake(0)))
      else if t[me.pc.i].parent == Some(p)
          then s.(slots := At(t[me.pc.i := t[me.pc.i].(parent := Some(0))], p, ReparentWake(me.pc.i, 0)))
      else s.(slots := At(t, p, Reparent(me.pc.i + 1)))
    case ReparentWakeStep =>
      if me.pc.j >= |t| then s.(slots := At(t, p, Reparent(me.pc.i + 1)))
      else s.(slots := At(Wake(t, p, me.pc.j, Some(0)), p, ReparentWake(me.pc.i, me.pc.j + 1)))
    case ExitWakeStep =>
      if me.pc.j >= |t| then s.(slots := At(t, p, ExitSelf))
      else s.(slots := At(Wake(t, p, me.pc.j, me.parent), p, ExitWake(me.pc.j + 1)))
    case ExitZombie => State(t[p := me.(state := Zombie, pc := Dead, locked := true)], None)
    case SwitchedAway => s.(slots := t[p := me.(locked := false)])
    case WaitLock => State(At(t, p, WaitScan(0, false)), Some(p))
    case WaitStep(copyFails) =>
      if me.pc.i >= |t| then
        if !me.pc.kids || me.killed then State(At(t, p, Run), None)
        else s.(slots := At(t, p, SleepEntry))
      else if t[me.pc.i].parent != Some(p) then s.(slots := At(t, p, WaitScan(me.pc.i + 1, me.pc.kids)))
      else if t[me.pc.i].state != Zombie then s.(slots := At(t, p, WaitScan(me.pc.i + 1, true)))
      else if copyFails then State(At(t, p, Run), None)
      else State(At(t[me.pc.i := FREE], p, Run), None)
    case SleepLock => State(t[p := me.(pc := Going, locked := true)], None)
    case Sleep => s.(slots := t[p := me.(state := Sleeping, chan := Some(p), pc := Asleep, locked := false)])
    case WakeAndLock => State(t[p := me.(chan := None, pc := WaitScan(0, false))], Some(p))
    case Kill(q) =>
      s.(slots := t[q := t[q].(killed := true, state := if t[q].state == Sleeping then Live else t[q].state)])
  }

  // ------------------------------------------------------------ the invariant

  /** What a slot says about itself. */
  predicate LocalOk(x: Slot, p: nat, waitLock: Option<nat>, n: nat) {
    && (x.pc == Run ==> x.state == Unused || x.state == Used || x.state == Live)
    && (x.pc == Asleep ==> x.state == Live || (x.state == Sleeping && x.chan == Some(p)))
    && (x.pc == Dead <==> x.state == Zombie)
    && (x.pc != Run && x.pc != Asleep && x.pc != Dead ==> x.state == Live)
    && (x.locked ==> x.pc == Going || x.pc == Dead) && (x.pc == Going ==> x.locked)
    && (HasWait(x.pc) <==> waitLock == Some(p))
    && (x.state == Unused ==> x.parent == None)
    && (p != 0 && x.state != Unused && x.state != Used ==> x.parent.Some?)
    && (x.pc.Reparent? ==> x.pc.i <= n) && (x.pc.ReparentWake? ==> x.pc.i < n)
    && (Exiting(x.pc) ==> p != 0) && (p == 0 ==> x.parent == None && (x.state == Live || x.state == Sleeping))
    && x.parent != Some(p) && (x.parent.Some? ==> x.parent.value < n)
    && Forks(x.pc) != Some(p) && (Forks(x.pc).Some? ==> Forks(x.pc).value < n)
  }

  predicate Exiting(pc: Pc) {
    pc.Reparent? || pc.ReparentWake? || pc.ExitWake? || pc.ExitSelf? || pc.Dead?
  }

  /** An exiting process has no children among the slots it has passed. */
  predicate Orphaned(pc: Pc, c: nat) {
    match pc
    case Reparent(i) => c < i
    case ReparentWake(i, _) => c <= i
    case ExitWake(_) => true
    case ExitSelf => true
    case Dead => true
    case _ => false
  }

  /** An exiting child has woken parent q, if it has passed its slot. */
  predicate HasWoken(pc: Pc, q: nat) {
    (pc.ExitWake? && pc.j > q) || pc.ExitSelf?
  }

  /** What slots p and c say about each other: forks own their slot; a parent has not exited
      and an exiting one has handed its children on; an exiting child has woken its parent;
      a waiting parent has seen that it has children, and no zombie so far; and no zombie
      has a parent at rest, unless init is about to be woken for it. */
  predicate PairOk(x: Slot, p: nat, y: Slot, c: nat, initDue: bool) {
    && (Forks(x.pc) == Some(c) ==> y.state == Used && y.parent == if x.pc.ForkParent? then Some(p) else None)
    && (p != c && Forks(x.pc).Some? ==> Forks(x.pc) != Forks(y.pc))
    && (y.parent == Some(p) ==>
          && (x.state == Live || x.state == Sleeping) && !Orphaned(x.pc, c)
          && (HasWoken(y.pc, p) ==> !AtRest(x))
          && (x.pc.WaitScan? && c < x.pc.i ==> x.pc.kids && y.state != Zombie)
          && (x.pc.SleepEntry? ==> y.state != Zombie)
          && (y.state == Zombie && AtRest(x) ==> p == 0 && initDue))
  }

  /** Whoever has wait_lock has just given init a child and is about to wake it. */
  predicate InitDue(s: State) {
    && s.waitLock.Some? && s.waitLock.value < |s.slots|
    && s.slots[s.waitLock.value].pc.ReparentWake? && s.slots[s.waitLock.value].pc.j == 0
  }

  predicate Local(s: State, p: nat) {
    p < |s.slots| && LocalOk(s.slots[p], p, s.waitLock, |s.slots|)
  }

  predicate Pair(s: State, p: nat, c: nat) {
    p < |s.slots| && c < |s.slots| && PairOk(s.slots[p], p, s.slots[c], c, InitDue(s))
  }

  ghost predicate Inv(s: State) {
    && |s.slots| > 0 && (s.waitLock.Some? ==> s.waitLock.value < |s.slots|)
    && (forall p: nat :: p < |s.slots| ==> Local(s, p))
    && (forall p: nat, c: nat :: p < |s.slots| && c < |s.slots| ==> Pair(s, p, c))
  }

  /** The other slot a step touches or looks at, or p itself. */
  function Target(s: State, p: nat, e: Event): (r: nat)
    requires Can(s, p, e)
    ensures r < |s.slots|
  {
    var me := s.slots[p];
    var z := match e
      case ForkAlloc(np) => np
      case ForkFail => me.pc.np
      case ForkSet => me.pc.np
      case ForkRun => me.pc.np
      case ReparentStep => me.pc.i
      case ReparentWakeStep => me.pc.j
      case ExitWakeStep => me.pc.j
      case WaitStep(_) => me.pc.i
      case Kill(q) => q
      case _ => p;
    if z < |s.slots| then z else p
  }

  /** All four slots agree with themselves and with each other. */
  predicate Agree(s: State, p: nat, z: nat, a: nat, b: nat) {
    && Local(s, p) && Local(s, z) && Local(s, a) && Local(s, b)
    && Pair(s, p, z) && Pair(s, z, p) && Pair(s, p, a) && Pair(s, a, p) && Pair(s, p, b) && Pair(s, b, p)
    && Pair(s, z, a) && Pair(s, a, z) && Pair(s, z, b) && Pair(s, b, z) && Pair(s, a, b) && Pair(s, b, a)
    && Pair(s, p, p) && Pair(s, z, z) && Pair(s, a, a) && Pair(s, b, b)
  }

  lemma LocalAlloc(s: State, p: nat, e: Event, a: nat)
    requires Can(s, p, e) && (e.ForkAlloc?) && Agree(s, p, Target(s, p, e), a, a)
    ensures Local(Step(s, p, e), a)
  {
  }

  lemma PairAlloc(s: State, p: nat, e: Event, a: nat, b: nat)
    requires Can(s, p, e) && (e.ForkAlloc?) && Agree(s, p, Target(s, p, e), a, b)
    ensures Pair(Step(s, p, e), a, b)
  {
  }

  lemma LocalForkFail(s: State, p: nat, e: Event, a: nat)
    requires Can(s, p, e) && (e.ForkFail?) && Agree(s, p, Target(s, p, e), a, a)
    ensures Local(Step(s, p, e), a)
  {
  }

  lemma PairForkFail(s: State, p: nat, e: Event, a: nat, b: nat)
    requires Can(s, p, e) && (e.ForkFail?) && Agree(s, p, Target(s, p, e), a, b)
    ensures Pair(Step(s, p, e), a, b)
  {
  }

  lemma LocalForkLock(s: State, p: nat, e: Event, a: nat)
    requires Can(s, p, e) && (e.ForkLock?) && Agree(s, p, Target(s, p, e), a, a)
    ensures Local(Step(s, p, e), a)
  {
  }

  lemma PairForkLock(s: State, p: nat, e: Event, a: nat, b: nat)
    requires Can(s, p, e) && (e.ForkLock?) && Agree(s, p, Target(s, p, e), a, b)
    ensures Pair(Step(s, p, e), a, b)
  {
  }

  lemma LocalForkSet(s: State, p: nat, e: Event, a: nat)
    requires Can(s, p, e) && (e.ForkSet?) && Agree(s, p, Target(s, p, e), a, a)
    ensures Local(Step(s, p, e), a)
  {
  }

  lemma PairForkSet(s: State, p: nat, e: Event, a: nat, b: nat)
    requires Can(s, p, e) && (e.ForkSet?) && Agree(s, p, Target(s, p, e), a, b)
    ensures Pair(Step(s, p, e), a, b)
  {
  }

  lemma LocalForkRun(s: State, p: nat, e: Event, a: nat)
    requires Can(s, p, e) && (e.ForkRun?) && Agree(s, p, Target(s, p, e), a, a)
    ensures Local(Step(s, p, e), a)
  {
  }

  lemma PairForkRun(s: State, p: nat, e: Event, a: nat, b: nat)
    requires Can(s, p, e) && (e.ForkRun?) && Agree(s, p, Target(s, p, e), a, b)
    ensures Pair(Step(s, p, e), a, b)
  {
  }

  lemma LocalExitLock(s: State, p: nat, e: Event, a: nat)
    requires Can(s, p, e) && (e.ExitLock?) && Agree(s, p, Target(s, p, e), a, a)
    ensures Local(Step(s, p, e), a)
  {
  }

  lemma PairExitLock(s: State, p: nat, e: Event, a: nat, b: nat)
    requires Can(s, p, e) && (e.ExitLock?) && Agree(s, p, Target(s, p, e), a, b)
    ensures Pair(Step(s, p, e), a, b)
  {
  }

  lemma LocalReparent(s: State, p: nat, e: Event, a: nat)
    requires Can(s, p, e) && (e.ReparentStep?) && Agree(s, p, Target(s, p, e), a, a)
    ensures Local(Step(s, p, e), a)
  {
  }

  lemma PairReparentEnds(s: State, p: nat, e: Event, a: nat, b: nat)
    requires Can(s, p, e) && e.ReparentStep? && s.slots[p].pc.i >= |s.slots|
    requires Agree(s, p, Target(s, p, e), a, b)
    ensures Pair(Step(s, p, e), a, b)
  {
  }

  lemma PairReparentChild(s: State, p: nat, e: Event, a: nat, b: nat)
    requires Can(s, p, e) && e.ReparentStep? && s.slots[p].pc.i < |s.slots|
             && s.slots[s.slots[p].pc.i].parent == Some(p)
    requires Agree(s, p, Target(s, p, e), a, b)
    ensures Pair(Step(s, p, e), a, b)
  {
  }

  lemma PairReparentOther(s: State, p: nat, e: Event, a: nat, b: nat)
    requires Can(s, p, e) && e.ReparentStep? && s.slots[p].pc.i < |s.slots|
             && s.slots[s.slots[p].pc.i].parent != Some(p)
    requires Agree(s, p, Target(s, p, e), a, b)
    ensures Pair(Step(s, p, e), a, b)
  {
  }

  lemma PairReparent(s: State, p: nat, e: Event, a: nat, b: nat)
    requires Can(s, p, e) && e.ReparentStep? && Agree(s, p, Target(s, p, e), a, b)
    ensures Pair(Step(s, p, e), a, b)
  {
    hide Agree, Pair, Step, Target;
    var i := s.slots[p].pc.i;
    if i >= |s.slots| { PairReparentEnds(s, p, e, a, b); }
    else if s.slots[i].parent == Some(p) { PairReparentChild(s, p, e, a, b); }
    else { PairReparentOther(s, p, e, a, b); }
  }

  lemma LocalInitWoken(s: State, p: nat, e: Event, a: nat)
    requires Can(s, p, e) && (e.ReparentWakeStep?) && Agree(s, p, Target(s, p, e), a, a)
    ensures Local(Step(s, p, e), a)
  {
  }

  /** Slot j sleeps on the channel that p wakes. */
  predicate Sleeps(s: State, p: nat, j: nat, chan: Option<nat>) {
    j < |s.slots| && j != p && s.slots[j].state == Sleeping && chan.Some? && s.slots[j].chan == chan
  }

  lemma PairInitWakes(s: State, p: nat, e: Event, a: nat, b: nat)
    requires Can(s, p, e) && e.ReparentWakeStep? && Sleeps(s, p, s.slots[p].pc.j, Some(0))
    requires Agree(s, p, Target(s, p, e), a, b)
    ensures Pair(Step(s, p, e), a, b)
  {
  }

  lemma PairInitPasses(s: State, p: nat, e: Event, a: nat, b: nat)
    requires Can(s, p, e) && e.ReparentWakeStep? && s.slots[p].pc.j < |s.slots|
             && !Sleeps(s, p, s.slots[p].pc.j, Some(0))
    requires Agree(s, p, Target(s, p, e), a, b)
    ensures Pair(Step(s, p, e), a, b)
  {
  }

  lemma PairInitDone(s: State, p: nat, e: Event, a: nat, b: nat)
    requires Can(s, p, e) && e.ReparentWakeStep? && s.slots[p].pc.j >= |s.slots|
    requires Agree(s, p, Target(s, p, e), a, b)
    ensures Pair(Step(s, p, e), a, b)
  {
  }

  lemma PairInitWoken(s: State, p: nat, e: Event, a: nat, b: nat)
    requires Can(s, p, e) && e.ReparentWakeStep? && Agree(s, p, Target(s, p, e), a, b)
    ensures Pair(Step(s, p, e), a, b)
  {
    hide Agree, Pair, Step, Target;
    if s.slots[p].pc.j >= |s.slots| { PairInitDone(s, p, e, a, b); }
    else if Sleeps(s, p, s.slots[p].pc.j, Some(0)) { PairInitWakes(s, p, e, a, b); }
    else { PairInitPasses(s, p, e, a, b); }
  }

  lemma LocalParentWoken(s: State, p: nat, e: Event, a: nat)
    requires Can(s, p, e) && (e.ExitWakeStep?) && Agree(s, p, Target(s, p, e), a, a)
    ensures Local(Step(s, p, e), a)
  {
  }

  lemma PairParentWakes(s: State, p: nat, e: Event, a: nat, b: nat)
    requires Can(s, p, e) && e.ExitWakeStep? && Sleeps(s, p, s.slots[p].pc.j, s.slots[p].parent)
    requires Agree(s, p, Target(s, p, e), a, b)
    ensures Pair(Step(s, p, e), a, b)
  {
  }

  lemma PairParentPasses(s: State, p: nat, e: Event, a: nat, b: nat)
    requires Can(s, p, e) && e.ExitWakeStep? && s.slots[p].pc.j < |s.slots|
             && !Sleeps(s, p, s.slots[p].pc.j, s.slots[p].parent)
    requires Agree(s, p, Target(s, p, e), a, b)
    ensures Pair(Step(s, p, e), a, b)
  {
  }

  lemma PairParentDone(s: State, p: nat, e: Event, a: nat, b: nat)
    requires Can(s, p, e) && e.ExitWakeStep? && s.slots[p].pc.j >= |s.slots|
    requires Agree(s, p, Target(s, p, e), a, b)
    ensures Pair(Step(s, p, e), a, b)
  {
  }

  lemma PairParentWoken(s: State, p: nat, e: Event, a: nat, b: nat)
    requires Can(s, p, e) && e.ExitWakeStep? && Agree(s, p, Target(s, p, e), a, b)
    ensures Pair(Step(s, p, e), a, b)
  {
    hide Agree, Pair, Step, Target;
    if s.slots[p].pc.j >= |s.slots| { PairParentDone(s, p, e, a, b); }
    else if Sleeps(s, p, s.slots[p].pc.j, s.slots[p].parent) { PairParentWakes(s, p, e, a, b); }
    else { PairParentPasses(s, p, e, a, b); }
  }

  lemma LocalZombie(s: State, p: nat, e: Event, a: nat)
    requires Can(s, p, e) && (e.ExitZombie? || e.SwitchedAway?) && Agree(s, p, Target(s, p, e), a, a)
    ensures Local(Step(s, p, e), a)
  {
  }

  lemma PairZombie(s: State, p: nat, e: Event, a: nat, b: nat)
    requires Can(s, p, e) && (e.ExitZombie? || e.SwitchedAway?) && Agree(s, p, Target(s, p, e), a, b)
    ensures Pair(Step(s, p, e), a, b)
  {
  }

  lemma LocalLock(s: State, p: nat, e: Event, a: nat)
    requires Can(s, p, e) && (e.WaitLock? || e.WakeAndLock?) && Agree(s, p, Target(s, p, e), a, a)
    ensures Local(Step(s, p, e), a)
  {
  }

  lemma PairLock(s: State, p: nat, e: Event, a: nat, b: nat)
    requires Can(s, p, e) && (e.WaitLock? || e.WakeAndLock?) && Agree(s, p, Target(s, p, e), a, b)
    ensures Pair(Step(s, p, e), a, b)
  {
  }

  lemma LocalSleep(s: State, p: nat, e: Event, a: nat)
    requires Can(s, p, e) && (e.Sleep? || e.SleepLock?) && Agree(s, p, Target(s, p, e), a, a)
    ensures Local(Step(s, p, e), a)
  {
  }

  lemma PairSleep(s: State, p: nat, e: Event, a: nat, b: nat)
    requires Can(s, p, e) && (e.Sleep? || e.SleepLock?) && Agree(s, p, Target(s, p, e), a, b)
    ensures Pair(Step(s, p, e), a, b)
  {
  }

  lemma LocalKill(s: State, p: nat, e: Event, a: nat)
    requires Can(s, p, e) && (e.Kill?) && Agree(s, p, Target(s, p, e), a, a)
    ensures Local(Step(s, p, e), a)
  {
  }

  lemma PairKill(s: State, p: nat, e: Event, a: nat, b: nat)
    requires Can(s, p, e) && (e.Kill?) && Agree(s, p, Target(s, p, e), a, b)
    ensures Pair(Step(s, p, e), a, b)
  {
  }

  /** The slot a waiting process looks at holds a child of its. */
  predicate AtChild(s: State, p: nat) {
    && p < |s.slots| && s.slots[p].pc.WaitScan? && s.slots[p].pc.i < |s.slots|
    && s.slots[s.slots[p].pc.i].parent == Some(p)
  }

  lemma LocalWaitEnds(s: State, p: nat, e: Event, a: nat)
    requires Can(s, p, e) && e.WaitStep? && s.slots[p].pc.i >= |s.slots|
    requires Agree(s, p, Target(s, p, e), a, a)
    ensures Local(Step(s, p, e), a)
  {
  }

  lemma PairWaitEnds(s: State, p: nat, e: Event, a: nat, b: nat)
    requires Can(s, p, e) && e.WaitStep? && s.slots[p].pc.i >= |s.slots|
    requires Agree(s, p, Target(s, p, e), a, b)
    ensures Pair(Step(s, p, e), a, b)
  {
  }

  lemma LocalWaitSkips(s: State, p: nat, e: Event, a: nat)
    requires Can(s, p, e) && e.WaitStep? && s.slots[p].pc.i < |s.slots| && !AtChild(s, p)
    requires Agree(s, p, Target(s, p, e), a, a)
    ensures Local(Step(s, p, e), a)
  {
  }

  lemma PairWaitSkips(s: State, p: nat, e: Event, a: nat, b: nat)
    requires Can(s, p, e) && e.WaitStep? && s.slots[p].pc.i < |s.slots| && !AtChild(s, p)
    requires Agree(s, p, Target(s, p, e), a, b)
    ensures Pair(Step(s, p, e), a, b)
  {
  }

  lemma LocalWaitSees(s: State, p: nat, e: Event, a: nat)
    requires Can(s, p, e) && e.WaitStep? && AtChild(s, p) && s.slots[s.slots[p].pc.i].state != Zombie
    requires Agree(s, p, Target(s, p, e), a, a)
    ensures Local(Step(s, p, e), a)
  {
  }

  lemma PairWaitSees(s: State, p: nat, e: Event, a: nat, b: nat)
    requires Can(s, p, e) && e.WaitStep? && AtChild(s, p) && s.slots[s.slots[p].pc.i].state != Zombie
    requires Agree(s, p, Target(s, p, e), a, b)
    ensures Pair(Step(s, p, e), a, b)
  {
  }

  lemma LocalWaitReaps(s: State, p: nat, e: Event, a: nat)
    requires Can(s, p, e) && e.WaitStep? && AtChild(s, p) && s.slots[s.slots[p].pc.i].state == Zombie
    requires Agree(s, p, Target(s, p, e), a, a)
    ensures Local(Step(s, p, e), a)
  {
  }

  lemma PairWaitReaps(s: State, p: nat, e: Event, a: nat, b: nat)
    requires Can(s, p, e) && e.WaitStep? && AtChild(s, p) && s.slots[s.slots[p].pc.i].state == Zombie
    requires Agree(s, p, Target(s, p, e), a, b)
    ensures Pair(Step(s, p, e), a, b)
  {
  }

  lemma LocalWait(s: State, p: nat, e: Event, a: nat)
    requires Can(s, p, e) && e.WaitStep? && Agree(s, p, Target(s, p, e), a, a)
    ensures Local(Step(s, p, e), a)
  {
    hide Agree, Local, Step, Target;
    if s.slots[p].pc.i >= |s.slots| { LocalWaitEnds(s, p, e, a); }
    else if !AtChild(s, p) { LocalWaitSkips(s, p, e, a); }
    else if s.slots[s.slots[p].pc.i].state != Zombie { LocalWaitSees(s, p, e, a); }
    else { LocalWaitReaps(s, p, e, a); }
  }

  lemma PairWait(s: State, p: nat, e: Event, a: nat, b: nat)
    requires Can(s, p, e) && e.WaitStep? && Agree(s, p, Target(s, p, e), a, b)
    ensures Pair(Step(s, p, e), a, b)
  {
    hide Agree, Pair, Step, Target;
    if s.slots[p].pc.i >= |s.slots| { PairWaitEnds(s, p, e, a, b); }
    else if !AtChild(s, p) { PairWaitSkips(s, p, e, a, b); }
    else if s.slots[s.slots[p].pc.i].state != Zombie { PairWaitSees(s, p, e, a, b); }
    else { PairWaitReaps(s, p, e, a, b); }
  }

  predicate IsFork(e: Event) {
    e.ForkAlloc? || e.ForkFail? || e.ForkLock? || e.ForkSet? || e.ForkRun? || e.Kill?
  }

  predicate IsExit(e: Event) {
    e.ExitLock? || e.ReparentStep? || e.ReparentWakeStep? || e.ExitWakeStep? || e.ExitZombie? || e.SwitchedAway?
  }

  lemma StepLocalForks(s: State, p: nat, e: Event, a: nat)
    requires IsFork(e) && Can(s, p, e) && Agree(s, p, Target(s, p, e), a, a)
    ensures Local(Step(s, p, e), a)
  {
    hide Can, Agree, Local, Step, Target;
    match e
    case ForkAlloc(_) => LocalAlloc(s, p, e, a);
    case ForkFail => LocalForkFail(s, p, e, a);
    case ForkLock => LocalForkLock(s, p, e, a);
    case ForkSet => LocalForkSet(s, p, e, a);
    case ForkRun => LocalForkRun(s, p, e, a);
    case Kill(_) => LocalKill(s, p, e, a);
  }

  lemma StepLocalExits(s: State, p: nat, e: Event, a: nat)
    requires IsExit(e) && Can(s, p, e) && Agree(s, p, Target(s, p, e), a, a)
    ensures Local(Step(s, p, e), a)
  {
    hide Can, Agree, Local, Step, Target;
    match e
    case ExitLock => LocalExitLock(s, p, e, a);
    case ReparentStep => LocalReparent(s, p, e, a);
    case ReparentWakeStep => LocalInitWoken(s, p, e, a);
    case ExitWakeStep => LocalParentWoken(s, p, e, a);
    case ExitZombie => LocalZombie(s, p, e, a);
    case SwitchedAway => LocalZombie(s, p, e, a);
  }

  lemma StepLocalWaits(s: State, p: nat, e: Event, a: nat)
    requires !IsFork(e) && !IsExit(e) && Can(s, p, e) && Agree(s, p, Target(s, p, e), a, a)
    ensures Local(Step(s, p, e), a)
  {
    hide Can, Agree, Local, Step, Target;
    match e
    case WaitLock => LocalLock(s, p, e, a);
    case WakeAndLock => LocalLock(s, p, e, a);
    case SleepLock => LocalSleep(s, p, e, a);
    case Sleep => LocalSleep(s, p, e, a);
    case WaitStep(_) => LocalWait(s, p, e, a);
  }

  lemma StepLocal(s: State, p: nat, e: Event, a: nat)
    requires Can(s, p, e) && Agree(s, p, Target(s, p, e), a, a)
    ensures Local(Step(s, p, e), a)
  {
    hide Can, Agree, Local, Step, Target, IsFork, IsExit;
    if IsFork(e) { StepLocalForks(s, p, e, a); }
    else if IsExit(e) { StepLocalExits(s, p, e, a); }
    else { StepLocalWaits(s, p, e, a); }
  }

  lemma StepPairForks(s: State, p: nat, e: Event, a: nat, b: nat)
    requires IsFork(e) && Can(s, p, e) && Agree(s, p, Target(s, p, e), a, b)
    ensures Pair(Step(s, p, e), a, b)
  {
    hide Can, Agree, Pair, Step, Target;
    match e
    case ForkAlloc(_) => PairAlloc(s, p, e, a, b);
    case ForkFail => PairForkFail(s, p, e, a, b);
    case ForkLock => PairForkLock(s, p, e, a, b);
    case ForkSet => PairForkSet(s, p, e, a, b);
    case ForkRun => PairForkRun(s, p, e, a, b);
    case Kill(_) => PairKill(s, p, e, a, b);
  }

  lemma StepPairExits(s: State, p: nat, e: Event, a: nat, b: nat)
    requires IsExit(e) && Can(s, p, e) && Agree(s, p, Target(s, p, e), a, b)
    ensures Pair(Step(s, p, e), a, b)
  {
    hide Can, Agree, Pair, Step, Target;
    match e
    case ExitLock => PairExitLock(s, p, e, a, b);
    case ReparentStep => PairReparent(s, p, e, a, b);
    case ReparentWakeStep => PairInitWoken(s, p, e, a, b);
    case ExitWakeStep => PairParentWoken(s, p, e, a, b);
    case ExitZombie => PairZombie(s, p, e, a, b);
    case SwitchedAway => PairZombie(s, p, e, a, b);
  }

  lemma StepPairWaits(s: State, p: nat, e: Event, a: nat, b: nat)
    requires !IsFork(e) && !IsExit(e) && Can(s, p, e) && Agree(s, p, Target(s, p, e), a, b)
    ensures Pair(Step(s, p, e), a, b)
  {
    hide Can, Agree, Pair, Step, Target;
    match e
    case WaitLock => PairLock(s, p, e, a, b);
    case WakeAndLock => PairLock(s, p, e, a, b);
    case SleepLock => PairSleep(s, p, e, a, b);
    case Sleep => PairSleep(s, p, e, a, b);
    case WaitStep(_) => PairWait(s, p, e, a, b);
  }

  lemma StepPair(s: State, p: nat, e: Event, a: nat, b: nat)
    requires Can(s, p, e) && Agree(s, p, Target(s, p, e), a, b)
    ensures Pair(Step(s, p, e), a, b)
  {
    hide Can, Agree, Pair, Step, Target, IsFork, IsExit;
    if IsFork(e) { StepPairForks(s, p, e, a, b); }
    else if IsExit(e) { StepPairExits(s, p, e, a, b); }
    else { StepPairWaits(s, p, e, a, b); }
  }

  lemma StepInv(s: State, p: nat, e: Event)
    requires Inv(s) && Can(s, p, e)
    ensures Inv(Step(s, p, e))
  {
    var t, z := Step(s, p, e), Target(s, p, e);
    StepShape(s, p, e);
    hide Step, Target, Local, Pair;
    forall a: nat | a < |t.slots| ensures Local(t, a) {
      StepLocal(s, p, e, a);
    }
    forall a: nat, b: nat | a < |t.slots| && b < |t.slots| ensures Pair(t, a, b) {
      StepPair(s, p, e, a, b);
    }
  }

  lemma StepShape(s: State, p: nat, e: Event)
    requires Inv(s) && Can(s, p, e)
    ensures |Step(s, p, e).slots| == |s.slots|
    ensures Step(s, p, e).waitLock.Some? ==> Step(s, p, e).waitLock.value < |s.slots|
  {
    hide Local, Pair;
  }

  // ------------------------------------------------------------ runs

  /** Only init, outside these calls. */
  ghost predicate Start(s: State) {
    && |s.slots| > 0 && s.waitLock == None && s.slots[0] == FREE.(state := Live)
    && forall p: nat :: 0 < p < |s.slots| ==> s.slots[p] == FREE
  }

  ghost predicate Runs(states: seq<State>, actors: seq<nat>, events: seq<Event>) {
    && |states| == |events| + 1 && |actors| == |events| && Start(states[0])
    && forall i :: 0 <= i < |events| ==>
         Can(states[i], actors[i], events[i]) && states[i + 1] == Step(states[i], actors[i], events[i])
  }

  lemma StartInv(s: State)
    requires Start(s)
    ensures Inv(s)
  {
  }

  lemma {:induction false} RunInv(states: seq<State>, actors: seq<nat>, events: seq<Event>, n: nat)
    requires Runs(states, actors, events) && n < |states|
    ensures Inv(states[n])
  {
    hide Inv, Step;
    if n == 0 {
      StartInv(states[0]);
    } else {
      RunInv(states, actors, events, n - 1);
      StepInv(states[n - 1], actors[n - 1], events[n - 1]);
    }
  }

  /** No exit is lost: whenever wait_lock is free, no process asleep in wait, or on its way
      to sleep there, has a zombie child. */
  lemma NoLostExit(states: seq<State>, actors: seq<nat>, events: seq<Event>, n: nat, q: nat, z: nat)
    requires Runs(states, actors, events) && n < |states| && states[n].waitLock == None
    requires q < |states[n].slots| && z < |states[n].slots| && states[n].slots[z].parent == Some(q)
    ensures AtRest(states[n].slots[q]) ==> states[n].slots[z].state != Zombie
  {
    RunInv(states, actors, events, n);
    assert Pair(states[n], q, z);
  }

  /** No zombie and no unused slot is anyone's parent. */
  lemma ParentsLive(states: seq<State>, actors: seq<nat>, events: seq<Event>, n: nat, q: nat, c: nat)
    requires Runs(states, actors, events) && n < |states|
    requires q < |states[n].slots| && c < |states[n].slots| && states[n].slots[c].parent == Some(q)
    ensures states[n].slots[q].state == Live || states[n].slots[q].state == Sleeping
  {
    RunInv(states, actors, events, n);
    assert Pair(states[n], q, c);
  }
}

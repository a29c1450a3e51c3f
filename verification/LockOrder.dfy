/** Process locks on any number of CPUs: the scheduler keeps one while it takes others,
    all other code takes one at a time, inside or outside any other spinlocks
    (proc.c:471-601, spinlock.c:21-110). */
module LockOrder {
  import opened Basics

  const NPROC: nat := 64

  /** Where a CPU is, as far as process locks go: in the scheduler's selection loop, at slot
      p with the best slot so far, or in other code, with a number of other spinlocks. Other
      code runs for a process, or is an interrupt handler that came in between two slots of
      the loop; then irq is the slot to go on with. */
  datatype Pc =
    | Code(lock: Option<nat>, others: nat, irq: Option<nat>)
    | CodeWants(p: nat, others: nat, irq: Option<nat>)
    | ScanNext(p: nat, best: Option<nat>)
    | ScanWants(p: nat, best: Option<nat>)
    | ScanHas(p: nat, best: Option<nat>)
    | Back(p: nat)

  /** Each CPU's place and count of push_off calls, and the CPU that has each lock. */
  datatype State = State(pcs: seq<Pc>, noff: seq<nat>, owner: map<nat, nat>)

  function Opt(x: Option<nat>): set<nat> {
    if x.Some? then {x.value} else {}
  }

  function Held(pc: Pc): set<nat> {
    match pc
    case Code(lock, _, _) => Opt(lock)
    case CodeWants(_, _, _) => {}
    case ScanNext(_, best) => Opt(best)
    case ScanWants(_, best) => Opt(best)
    case ScanHas(p, best) => Opt(best) + {p}
    case Back(p) => {p}
  }

  function Wants(pc: Pc): Option<nat> {
    match pc
    case CodeWants(p, _, _) => Some(p)
    case ScanWants(p, _) => Some(p)
    case _ => None
  }

  function Others(pc: Pc): nat {
    if pc.Code? || pc.CodeWants? then pc.others else 0
  }

  /** acquire calls push_off before it spins, so a wanted lock counts too. */
  function Depth(pc: Pc): nat {
    |Held(pc)| + Others(pc) + if Wants(pc).Some? then 1 else 0
  }

  /** The best slot so far has a smaller index than the one looked at. */
  predicate Ordered(pc: Pc) {
    match pc
    case Code(lock, _, irq) => (lock.Some? ==> lock.value < NPROC) && (irq.Some? ==> irq.value <= NPROC)
    case CodeWants(p, _, irq) => p < NPROC && (irq.Some? ==> irq.value <= NPROC)
    case ScanNext(p, best) => p <= NPROC && (best.Some? ==> best.value < p)
    case ScanWants(p, best) => p < NPROC && (best.Some? ==> best.value < p)
    case ScanHas(p, best) => p < NPROC && (best.Some? ==> best.value < p)
    case Back(p) => p < NPROC
  }

  ghost predicate Inv(s: State) {
    && |s.noff| == |s.pcs|
    && (forall c :: 0 <= c < |s.pcs| ==> Ordered(s.pcs[c]) && s.noff[c] == Depth(s.pcs[c]))
    && (forall c: nat :: c < |s.pcs| ==> Owns(s.owner, c, Held(s.pcs[c])))
    && (forall l :: l in s.owner ==> s.owner[l] < |s.pcs|)
  }

  /** CPU c has exactly these locks. */
  ghost predicate Owns(owner: map<nat, nat>, c: nat, locks: set<nat>) {
    forall l: nat :: l in locks <==> l in owner && owner[l] == c
  }

  // ------------------------------------------------------------ steps

  datatype Event =
    | Acquire(p: nat)   // other code calls acquire on a process lock, holding none
    | Got               // the spin succeeds
    | Release           // other code releases
    | TakeOther         // other code acquires a spinlock that is no process lock
    | GiveOther         // and releases one
    | Sched             // a process gives up the CPU, past the checks of sched (proc.c:572-576)
    | Resume            // the scheduler is back and releases that lock (proc.c:559-560)
    | Look              // the scheduler calls acquire on the next slot (proc.c:488)
    | Skip              // slot p is not better: release it (proc.c:490-493, 543)
    | Choose            // slot p is the best so far: release the old best (proc.c:534-541)
    | Dispatch          // swtch to the best, or start over
    | Interrupt         // the scheduler is interrupted, which push_off keeps from happening
    | Return            // the handler is done

  predicate Can(s: State, c: nat, e: Event) {
    && c < |s.pcs|
    && match e
       case Acquire(p) => s.pcs[c].Code? && s.pcs[c].lock.None? && p < NPROC
       case Got => Wants(s.pcs[c]).Some? && Wants(s.pcs[c]).value !in s.owner
       case Release => s.pcs[c].Code? && s.pcs[c].lock.Some?
       case TakeOther => s.pcs[c].Code?
       case GiveOther => s.pcs[c].Code? && s.pcs[c].others > 0
       case Sched => s.pcs[c].Code? && s.pcs[c].lock.Some? && s.pcs[c].irq.None? && c < |s.noff| && s.noff[c] == 1
       case Resume => s.pcs[c].Back?
       case Look => s.pcs[c].ScanNext? && s.pcs[c].p < NPROC
       case Skip => s.pcs[c].ScanHas?
       case Choose => s.pcs[c].ScanHas?
       case Dispatch => s.pcs[c].ScanNext? && s.pcs[c].p >= NPROC
       case Interrupt => s.pcs[c].ScanNext? && c < |s.noff| && s.noff[c] == 0
       case Return => s.pcs[c].Code? && s.pcs[c].irq.Some? && s.pcs[c].lock.None? && s.pcs[c].others == 0
  }

  function After(pc: Pc, e: Event): Pc {
    match (pc, e)
    case (Code(_, others, irq), Acquire(p)) => CodeWants(p, others, irq)
    case (CodeWants(p, others, irq), Got) => Code(Some(p), others, irq)
    case (ScanWants(p, best), Got) => ScanHas(p, best)
    case (Code(_, others, irq), Release) => Code(None, others, irq)
    case (Code(lock, others, irq), TakeOther) => Code(lock, others + 1, irq)
    case (Code(lock, others, irq), GiveOther) => if others > 0 then Code(lock, others - 1, irq) else pc
    case (Code(lock, _, _), Sched) => if lock.Some? then Back(lock.value) else pc
    case (Back(_), Resume) => ScanNext(0, None)
    case (ScanNext(p, best), Look) => ScanWants(p, best)
    case (ScanHas(p, best), Skip) => ScanNext(p + 1, best)
    case (ScanHas(p, best), Choose) => ScanNext(p + 1, Some(p))
    case (ScanNext(_, best), Dispatch) => if best.Some? then Code(best, 0, None) else ScanNext(0, None)
    case (ScanNext(p, _), Interrupt) => Code(None, 0, Some(p))
    case (Code(_, _, irq), Return) => if irq.Some? then ScanNext(irq.value, None) else pc
    case _ => pc
  }

  /** The lock a step takes, */
  function Takes(pc: Pc, e: Event): Option<nat> {
    if e == Got then Wants(pc) else None
  }

  /** and the one it releases. */
  function Gives(pc: Pc, e: Event): Option<nat> {
    match (pc, e)
    case (Code(lock, _, _), Release) => lock
    case (Back(p), Resume) => Some(p)
    case (ScanHas(p, _), Skip) => Some(p)
    case (ScanHas(_, best), Choose) => best
    case _ => None
  }

  function Locks(owner: map<nat, nat>, c: nat, pc: Pc, e: Event): map<nat, nat> {
    var rest := owner - Opt(Gives(pc, e));
    if Takes(pc, e).Some? then rest[Takes(pc, e).value := c] else rest
  }

  /** push_off when acquire starts, pop_off when release ends. */
  function Noff(noff: nat, pc: Pc, e: Event): int {
    match (pc, e)
    case (Code(_, _, _), Acquire(_)) => noff + 1
    case (Code(lock, _, _), Release) => noff - |Opt(lock)|
    case (Code(_, _, _), TakeOther) => noff + 1
    case (Code(_, others, _), GiveOther) => if others > 0 then noff - 1 else noff
    case (Back(_), Resume) => noff - 1
    case (ScanNext(_, _), Look) => noff + 1
    case (ScanHas(_, _), Skip) => noff - 1
    case (ScanHas(_, best), Choose) => noff - |Opt(best)|
    case _ => noff
  }

  ghost predicate Step(s: State, c: nat, e: Event, t: State) {
    && Can(s, c, e) && |t.noff| == |s.noff| == |s.pcs|
    && t.pcs == s.pcs[c := After(s.pcs[c], e)]
    && t.noff[c] == Noff(s.noff[c], s.pcs[c], e) && t.noff == s.noff[c := t.noff[c]]
    && t.owner == Locks(s.owner, c, s.pcs[c], e)
  }

  /** What Can says of one CPU. */
  predicate Allowed(pc: Pc, e: Event, noff: nat, owner: map<nat, nat>) {
    && (e == Got && Wants(pc).Some? ==> Wants(pc).value !in owner)
    && (e.Acquire? ==> pc.Code? && pc.lock.None? && e.p < NPROC)
    && (e == Look ==> pc.ScanNext? && pc.p < NPROC)
    && (e == Sched ==> noff == 1) && (e == Interrupt ==> noff == 0)
    && (e == Return && pc.Code? ==> pc.lock.None? && pc.others == 0)
  }

  lemma AfterOrdered(pc: Pc, e: Event, noff: nat, owner: map<nat, nat>)
    requires Ordered(pc) && Allowed(pc, e, noff, owner)
    ensures Ordered(After(pc, e))
  {
  }

  /** The counts follow. */
  lemma AfterDepth(pc: Pc, e: Event, noff: nat, owner: map<nat, nat>)
    requires Ordered(pc) && noff == Depth(pc) && Allowed(pc, e, noff, owner)
    ensures Noff(noff, pc, e) == Depth(After(pc, e))
  {
    hide Held, Opt;
    AfterOrdered(pc, e, noff, owner);
    HeldSize(pc);
    HeldSize(After(pc, e));
  }

  /** How many locks those are. */
  lemma HeldSize(pc: Pc)
    requires Ordered(pc)
    ensures |Held(pc)| == match pc
                          case Code(lock, _, _) => |Opt(lock)|
                          case CodeWants(_, _, _) => 0
                          case ScanHas(_, best) => |Opt(best)| + 1
                          case ScanNext(_, best) => |Opt(best)|
                          case ScanWants(_, best) => |Opt(best)|
                          case Back(_) => 1
    ensures |Opt(None)| == 0 && forall l :: |Opt(Some(l))| == 1
  {
    if pc.ScanHas? { assert pc.p !in Opt(pc.best); }
  }

  /** The locks follow: those of this CPU as its place says, those of the others as before. */
  lemma AfterLocks(owner: map<nat, nat>, c: nat, pc: Pc, e: Event, l: nat)
    requires Ordered(pc) && Owns(owner, c, Held(pc)) && Allowed(pc, e, Depth(pc), owner)
    ensures var now := Locks(owner, c, pc, e);
            && (l in Held(After(pc, e)) <==> l in now && now[l] == c)
            && (l in now && now[l] != c <==> l in owner && owner[l] != c)
            && (l in now && now[l] != c ==> now[l] == owner[l])
  {
    AfterHeld(pc, e, l, owner);
    hide Held, After, Takes, Gives, Depth, Ordered;
    assert Takes(pc, e).Some? ==> Takes(pc, e).value !in owner by { TakesFree(pc, e, owner); }
    assert l in Held(pc) <==> l in owner && owner[l] == c;
  }

  lemma TakesFree(pc: Pc, e: Event, owner: map<nat, nat>)
    requires Allowed(pc, e, Depth(pc), owner)
    ensures Takes(pc, e).Some? ==> Takes(pc, e).value !in owner
  {
  }

  lemma AfterHeld(pc: Pc, e: Event, l: nat, owner: map<nat, nat>)
    requires Ordered(pc) && Allowed(pc, e, Depth(pc), owner)
    ensures l in Held(After(pc, e)) <==> (l in Held(pc) && Gives(pc, e) != Some(l)) || Takes(pc, e) == Some(l)
    ensures Gives(pc, e) == Some(l) ==> l in Held(pc)
  {
    hide Held, Opt;
    HeldHas(pc, l);
    HeldHas(After(pc, e), l);
    HeldSize(pc);
    match pc {
      case Code(_, _, _) => {}
      case CodeWants(_, _, _) => {}
      case ScanNext(_, _) => {}
      case ScanWants(_, _) => {}
      case ScanHas(_, _) => {}
      case Back(_) => {}
    }
  }

  lemma HeldHas(pc: Pc, l: nat)
    ensures l in Held(pc) <==> match pc
                               case Code(lock, _, _) => lock == Some(l)
                               case CodeWants(_, _, _) => false
                               case ScanHas(p, best) => best == Some(l) || p == l
                               case ScanNext(_, best) => best == Some(l)
                               case ScanWants(_, best) => best == Some(l)
                               case Back(p) => p == l
  {
  }

  lemma CanAllowed(s: State, c: nat, e: Event)
    requires Can(s, c, e) && |s.noff| == |s.pcs|
    ensures c < |s.pcs| && Allowed(s.pcs[c], e, s.noff[c], s.owner)
  {
  }

  lemma StepInv(s: State, c: nat, e: Event, t: State)
    requires Inv(s) && Step(s, c, e, t)
    ensures Inv(t)
  {
    hide Can, Allowed, Ordered, Held, After, Wants, Depth, Locks, Noff, Owns;
    CanAllowed(s, c, e);
    AfterOrdered(s.pcs[c], e, s.noff[c], s.owner);
    AfterDepth(s.pcs[c], e, s.noff[c], s.owner);
    OwnLocks(s.owner, c, s.pcs[c], e);
    forall d: nat | d < |t.pcs| ensures Owns(t.owner, d, Held(t.pcs[d])) {
      if d != c { OtherLocks(s.owner, c, s.pcs[c], e, d, Held(s.pcs[d])); }
    }
    forall l | l in t.owner ensures t.owner[l] < |t.pcs| { StillOwned(s.owner, c, s.pcs[c], e, l); }
  }

  lemma OwnLocks(owner: map<nat, nat>, c: nat, pc: Pc, e: Event)
    requires Ordered(pc) && Owns(owner, c, Held(pc))
    requires Allowed(pc, e, Depth(pc), owner)
    ensures Owns(Locks(owner, c, pc, e), c, Held(After(pc, e)))
  {
    hide Held, After, Locks, Wants, Depth, Allowed, Ordered;
    forall l: nat ensures l in Held(After(pc, e)) <==> l in Locks(owner, c, pc, e) && Locks(owner, c, pc, e)[l] == c {
      AfterLocks(owner, c, pc, e, l);
    }
  }

  lemma OtherLocks(owner: map<nat, nat>, c: nat, pc: Pc, e: Event, d: nat, locks: set<nat>)
    requires Ordered(pc) && Owns(owner, c, Held(pc)) && Owns(owner, d, locks) && d != c
    requires Allowed(pc, e, Depth(pc), owner)
    ensures Owns(Locks(owner, c, pc, e), d, locks)
  {
    hide Held, After, Locks, Wants, Depth, Allowed, Ordered;
    forall l: nat ensures l in locks <==> l in Locks(owner, c, pc, e) && Locks(owner, c, pc, e)[l] == d {
      AfterLocks(owner, c, pc, e, l);
    }
  }

  lemma StillOwned(owner: map<nat, nat>, c: nat, pc: Pc, e: Event, l: nat)
    requires l in Locks(owner, c, pc, e)
    ensures Locks(owner, c, pc, e)[l] == c || (l in owner && Locks(owner, c, pc, e)[l] == owner[l])
  {
  }

  ghost predicate Run(states: seq<State>, cpus: seq<nat>, events: seq<Event>) {
    && |states| == |events| + 1 && |cpus| == |events| && Start(states[0])
    && forall i :: 0 <= i < |events| ==> Step(states[i], cpus[i], events[i], states[i + 1])
  }

  /** All CPUs at the start of the scheduler, before the first slot. */
  ghost predicate Start(s: State) {
    && |s.noff| == |s.pcs| && s.owner == map[]
    && forall c :: 0 <= c < |s.pcs| ==> s.pcs[c] == ScanNext(0, None) && s.noff[c] == 0
  }

  lemma {:induction false} RunInv(states: seq<State>, cpus: seq<nat>, events: seq<Event>, n: nat)
    requires Run(states, cpus, events) && n < |states|
    ensures Inv(states[n])
  {
    if n > 0 {
      RunInv(states, cpus, events, n - 1);
      StepInv(states[n - 1], cpus[n - 1], events[n - 1], states[n]);
    }
  }

  // ------------------------------------------------------------ what follows

  ghost predicate Waits(s: State, c: nat, d: nat) {
    c < |s.pcs| && Wants(s.pcs[c]).Some? && Wants(s.pcs[c]).value in s.owner && s.owner[Wants(s.pcs[c]).value] == d
  }

  /** A CPU that waits while others wait for it holds one lock, with a smaller index. */
  lemma WaitsUp(s: State, c: nat, d: nat)
    requires Inv(s) && Waits(s, c, d) && d < |s.pcs| && Wants(s.pcs[d]).Some?
    ensures Wants(s.pcs[c]).value < Wants(s.pcs[d]).value && Held(s.pcs[d]) == {Wants(s.pcs[c]).value}
  {
    assert Owns(s.owner, d, Held(s.pcs[d]));
  }

  /** CPUs that wait for each other round a cycle. */
  ghost predicate Cycle(s: State, cs: seq<nat>) {
    cs != [] && forall i :: 0 <= i < |cs| ==> Waits(s, cs[i], cs[if i + 1 < |cs| then i + 1 else 0])
  }

  function WantOf(s: State, c: nat): nat {
    if c < |s.pcs| && Wants(s.pcs[c]).Some? then Wants(s.pcs[c]).value else 0
  }

  lemma {:induction false} ChainUp(s: State, cs: seq<nat>, k: nat)
    requires Inv(s) && Cycle(s, cs) && k < |cs|
    ensures WantOf(s, cs[0]) <= WantOf(s, cs[k])
  {
    if k > 0 {
      ChainUp(s, cs, k - 1);
      assert Waits(s, cs[k - 1], cs[k]) && Waits(s, cs[k], cs[if k + 1 < |cs| then k + 1 else 0]);
      WaitsUp(s, cs[k - 1], cs[k]);
    }
  }

  /** No wait cycle over process locks is reachable. */
  lemma NoCycle(states: seq<State>, cpus: seq<nat>, events: seq<Event>, n: nat, cs: seq<nat>)
    requires Run(states, cpus, events) && n < |states|
    ensures !Cycle(states[n], cs)
  {
    var s := states[n];
    RunInv(states, cpus, events, n);
    if Cycle(s, cs) {
      ChainUp(s, cs, |cs| - 1);
      assert Waits(s, cs[|cs| - 1], cs[0]);
      assert Waits(s, cs[0], cs[if 0 + 1 < |cs| then 0 + 1 else 0]);
      WaitsUp(s, cs[|cs| - 1], cs[0]);
    }
  }

  lemma {:induction false} LargestWant(s: State, n: nat) returns (c: nat)
    requires 0 < n <= |s.pcs| && forall d :: 0 <= d < |s.pcs| ==> Wants(s.pcs[d]).Some?
    ensures c < n && forall d :: 0 <= d < n ==> Wants(s.pcs[d]).value <= Wants(s.pcs[c]).value
  {
    c := 0;
    if n > 1 {
      c := LargestWant(s, n - 1);
      if Wants(s.pcs[n - 1]).value > Wants(s.pcs[c]).value { c := n - 1; }
    }
  }

  /** If every CPU is spinning on a process lock, one of those locks is free. */
  lemma NoDeadlock(states: seq<State>, cpus: seq<nat>, events: seq<Event>, n: nat) returns (c: nat)
    requires Run(states, cpus, events) && n < |states| && |states[n].pcs| > 0
    requires forall d :: 0 <= d < |states[n].pcs| ==> Wants(states[n].pcs[d]).Some?
    ensures Can(states[n], c, Got)
  {
    var s := states[n];
    RunInv(states, cpus, events, n);
    c := LargestWant(s, |s.pcs|);
    if Wants(s.pcs[c]).value in s.owner {
      WaitsUp(s, c, s.owner[Wants(s.pcs[c]).value]);
    }
  }

  /** The scheduler switches to a process, and is switched back to, with exactly that
      process's lock and one level of push_off; and it starts each pass with none. An
      interrupt can come in between two slots exactly when it has no lock. The check of the
      nesting count in sched passes exactly when no other spinlock is held. */
  lemma OneLockAtSwitch(states: seq<State>, cpus: seq<nat>, events: seq<Event>, n: nat, c: nat, l: nat)
    requires Run(states, cpus, events) && n < |states| && c < |states[n].pcs|
    ensures var s, pc := states[n], states[n].pcs[c];
            && |s.noff| == |s.pcs|
            && (pc.ScanNext? && pc.best.Some? ==>
                  s.noff[c] == 1 && (l in s.owner && s.owner[l] == c <==> l == pc.best.value))
            && (pc.ScanNext? && pc.best.None? ==> s.noff[c] == 0 && !(l in s.owner && s.owner[l] == c))
            && (pc.Back? ==> s.noff[c] == 1 && (l in s.owner && s.owner[l] == c <==> l == pc.p))
            && (pc.Code? && pc.lock.Some? ==> (s.noff[c] == 1 <==> pc.others == 0))
            && (pc.ScanNext? ==> (Can(s, c, Interrupt) <==> pc.best.None?))
  {
    RunInv(states, cpus, events, n);
    assert Owns(states[n].owner, c, Held(states[n].pcs[c]));
  }

  // ------------------------------------------------------------ a whole pass

  ghost predicate Reachable(s: State) {
    exists states, cpus, events :: Run(states, cpus, events) && states[|events|] == s
  }

  lemma ReachNext(s: State, c: nat, e: Event, t: State)
    requires Reachable(s) && Step(s, c, e, t)
    ensures Reachable(t)
  {
    hide Step, Start;
    var states, cpus, events :| Run(states, cpus, events) && states[|events|] == s;
    var ss, cs, es := states + [t], cpus + [c], events + [e];
    forall i | 0 <= i < |es| ensures Step(ss[i], cs[i], es[i], ss[i + 1]) {
      if i < |events| { assert Step(states[i], cpus[i], events[i], states[i + 1]); }
    }
    assert Run(ss, cs, es) && ss[|es|] == t;
  }

  /** CPU c is at pc with its locks, and the others have not begun. */
  function Solo(n: nat, c: nat, pc: Pc): State {
    State(seq(n, d => if d == c then pc else ScanNext(0, None)), seq(n, d => if d == c then Depth(pc) else 0),
          map l | l in Held(pc) :: c)
  }

  /** One step of CPU c. */
  lemma SoloStep(n: nat, c: nat, pc: Pc, e: Event)
    requires c < n && Reachable(Solo(n, c, pc)) && Can(Solo(n, c, pc), c, e) && Ordered(pc)
    ensures Reachable(Solo(n, c, After(pc, e)))
  {
    var s, t := Solo(n, c, pc), Solo(n, c, After(pc, e));
    assert s.pcs[c] == pc && s.noff[c] == Depth(pc);
    CanAllowed(s, c, e);
    AfterDepth(pc, e, Depth(pc), s.owner);
    hide Can, Held, After, Depth, Takes, Gives, Noff, Allowed, Ordered;
    assert t.pcs == s.pcs[c := After(pc, e)] && t.noff == s.noff[c := Depth(After(pc, e))];
    assert Owns(s.owner, c, Held(pc));
    forall l: nat ensures l in t.owner <==> l in Locks(s.owner, c, pc, e)
      ensures l in Locks(s.owner, c, pc, e) ==> Locks(s.owner, c, pc, e)[l] == c
    {
      AfterLocks(s.owner, c, pc, e, l);
    }
    assert t.owner == Locks(s.owner, c, pc, e);
    ReachNext(s, c, e, t);
  }

  lemma SoloStarts(n: nat, c: nat)
    requires c < n
    ensures Reachable(Solo(n, c, ScanNext(0, None)))
  {
    var s := Solo(n, c, ScanNext(0, None));
    assert Run([s], [], []) && [s][0] == s;
  }

  /** The scan has passed j slots and chosen slot p, if that was among them. */
  lemma {:induction false} ScanTo(n: nat, c: nat, p: nat, j: nat)
    requires c < n && j <= NPROC
    ensures Reachable(Solo(n, c, ScanNext(j, if p < j then Some(p) else None)))
  {
    hide Reachable, Solo;
    if j == 0 {
      SoloStarts(n, c);
    } else {
      var i := j - 1;
      var best := if p < i then Some(p) else None;
      ScanTo(n, c, p, i);
      SoloCan(n, c, i, best);
      SoloStep(n, c, ScanNext(i, best), Look);
      SoloStep(n, c, ScanWants(i, best), Got);
      SoloStep(n, c, ScanHas(i, best), if i == p then Choose else Skip);
    }
  }

  lemma SoloCan(n: nat, c: nat, i: nat, best: Option<nat>)
    requires c < n && i < NPROC && (best.Some? ==> best.value < i)
    ensures Can(Solo(n, c, ScanNext(i, best)), c, Look) && Can(Solo(n, c, ScanWants(i, best)), c, Got)
    ensures Can(Solo(n, c, ScanHas(i, best)), c, Choose) && Can(Solo(n, c, ScanHas(i, best)), c, Skip)
  {
  }

  /** On any CPU any slot can be chosen in a pass; its process then runs with just its own
      lock held, and when it gives up the CPU the next pass starts with no lock held. */
  lemma AnySlotRuns(n: nat, c: nat, p: nat)
    requires c < n && p < NPROC
    ensures Reachable(Solo(n, c, Code(Some(p), 0, None))) && Solo(n, c, Code(Some(p), 0, None)).owner == map[p := c]
    ensures Reachable(Solo(n, c, Back(p))) && Solo(n, c, Back(p)).owner == map[p := c]
  {
    ScanTo(n, c, p, NPROC);
    hide Reachable;
    SoloStep(n, c, ScanNext(NPROC, Some(p)), Dispatch);
    SoloStep(n, c, Code(Some(p), 0, None), Sched);
    SoloStep(n, c, Back(p), Resume);
  }

  /** A handler can come in between any two slots while nothing is chosen, also at the end of a
      pass that chooses nothing, and take any process lock. */
  lemma HandlerRuns(n: nat, c: nat, p: nat, l: nat)
    requires c < n && p <= NPROC && l < NPROC
    ensures var s := Solo(n, c, Code(Some(l), 0, Some(p))); Reachable(s) && s.owner == map[l := c]
  {
    ScanTo(n, c, NPROC, p);
    hide Reachable;
    SoloStep(n, c, ScanNext(p, None), Interrupt);
    SoloStep(n, c, Code(None, 0, Some(p)), Acquire(l));
    SoloStep(n, c, CodeWants(l, 0, Some(p)), Got);
  }

  // ------------------------------------------------------------ push_off and pop_off

  datatype Cpu = Cpu(intr: bool, noff: nat, intena: bool)

  /** push_off (spinlock.c:88-97). */
  function PushOff(c: Cpu): Cpu {
    Cpu(false, c.noff + 1, if c.noff == 0 then c.intr else c.intena)
  }

  /** pop_off (spinlock.c:99-110); it panics with interrupts on or nothing pushed. */
  function PopOff(c: Cpu): Cpu
    requires !c.intr && c.noff >= 1
  {
    Cpu(c.noff == 1 && c.intena, c.noff - 1, c.intena)
  }

  /** How deep a sequence of calls goes, true being push_off; None if it pops too much. */
  function Nesting(ops: seq<bool>): Option<nat> {
    if ops == [] then Some(0)
    else
      var d := Nesting(ops[..|ops| - 1]);
      if d.None? then None
      else if ops[|ops| - 1] then Some(d.value + 1)
      else if d.value == 0 then None else Some(d.value - 1)
  }

  function Apply(c: Cpu, ops: seq<bool>): (r: Cpu)
    requires c.noff == 0 && Nesting(ops).Some?
    ensures r.noff == Nesting(ops).value
    ensures r.noff == 0 ==> r.intr == c.intr
    ensures r.noff > 0 ==> !r.intr && r.intena == c.intr
  {
    if ops == [] then c
    else
      var d := Apply(c, ops[..|ops| - 1]);
      if ops[|ops| - 1] then PushOff(d) else PopOff(d)
  }

  class Hart {
    var intr: bool
    var noff: nat
    var intena: bool

    ghost function Now(): Cpu
      reads this
    {
      Cpu(intr, noff, intena)
    }

    method Push()
      modifies this
      ensures Now() == PushOff(old(Now()))
    {
      var was := intr;
      intr := false;
      if noff == 0 { intena := was; }
      noff := noff + 1;
    }

    method Pop()
      requires !intr && noff >= 1
      modifies this
      ensures Now() == PopOff(old(Now()))
    {
      noff := noff - 1;
      if noff == 0 && intena { intr := true; }
    }
  }
}

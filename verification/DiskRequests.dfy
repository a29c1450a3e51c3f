/** Whole requests to the virtio disk, in every run of Virtqueue: each is carried out once
    between its start and its return, a write with the data its buffer had, a read with what
    the disk had; and a request in flight can always go on. */
module DiskRequests {
  import opened Basics
  import opened Virtqueue

  /** What the device does for a request: disk and buffers move the data one way, and
      nothing else of either changes. */
  ghost predicate Transfers(s: State, f: Flight, t: State) {
    && f.req.sector in s.disk && f.buf in s.data
    && (f.req.out ==> t.disk == s.disk[f.req.sector := s.data[f.buf]] && t.data == s.data)
    && (!f.req.out ==> t.data == s.data[f.buf := s.disk[f.req.sector]] && t.disk == s.disk)
  }

  /** The disk changes only by a write that completes, and buffers only by a read that
      completes or by whoever holds them. */
  ghost predicate Moves(s: State, e: Event, t: State) {
    match e
    case DeviceCompletes(h) => h in s.flight && Transfers(s, s.flight[h], t)
    case Store(b, v) =>
      t.disk == s.disk && t.data == s.data[b := v] && forall h :: h in s.flight ==> s.flight[h].buf != b
    case _ => t.disk == s.disk && t.data == s.data
  }

  lemma StepMoves(s: State, e: Event)
    requires Inv(s) && CanHappen(s, e) && Defined(s, e)
    ensures Moves(s, e, Step(s, e))
  {
    hide Inv, CanSubmit, Decode, Defined;
    if e.DeviceCompletes? { CompleteInv(s, e.h); }
    if e.Request? { assert Step(s, e).data == s.data; }
  }

  lemma DataMoves(states: seq<State>, events: seq<Event>, n: nat)
    requires Run(states, events) && n < |events|
    ensures Moves(states[n], events[n], states[n + 1])
  {
    hide Inv, Defined, CanHappen, Step, Start, Moves;
    AllRuns(states, events, n);
    StepMoves(states[n], events[n]);
  }

  // ------------------------------------------------------------ stages

  /** The stages in order; Return is behind the last. */
  function Rank(f: Flight): nat {
    match f.stage case Queued => 1 case Taken => 2 case Used => 3 case Seen => 4
  }

  /** The request that a step moves on, if any. */
  ghost function Mover(s: State, e: Event): Option<nat> {
    match e
    case Request(_, _, d0, _, _) => Some(d0)
    case DeviceTakes => if s.queued != [] then Some(s.queued[0]) else None
    case DeviceCompletes(h) => Some(h)
    case Interrupt => if s.done != [] then Some(s.done[0]) else None
    case Return(h) => Some(h)
    case Store(_, _) => None
  }

  /** A step moves one request on by one stage, or none; what was asked stays. */
  ghost predicate MovesOn(s: State, e: Event, t: State) {
    && (forall h :: Mover(s, e) != Some(h) ==> (h in t.flight <==> h in s.flight))
    && (forall h :: h in s.flight && Mover(s, e) != Some(h) ==> t.flight[h] == s.flight[h])
    && (Mover(s, e).Some? ==>
          var h := Mover(s, e).value;
          if e.Request? then
            && h !in s.flight && h in t.flight && t.flight[h].stage == Queued && t.flight[h].buf == e.b
            && t.flight[h].req == e.req
          else if e.Return? then h in s.flight && h !in t.flight && s.flight[h].stage == Seen
          else
            && h in s.flight && h in t.flight && Rank(t.flight[h]) == Rank(s.flight[h]) + 1
            && t.flight[h].buf == s.flight[h].buf && t.flight[h].req == s.flight[h].req
            && (t.flight[h].stage == Used <==> e == DeviceCompletes(h)))
  }

  lemma StepMovesOn(s: State, e: Event)
    requires Inv(s) && CanHappen(s, e) && Defined(s, e)
    ensures MovesOn(s, e, Step(s, e))
  {
    hide Inv, CanSubmit, Decode, ChainsOk, FlightsOk, RingHolds, Lists;
    StepDefined(s, e);
    match e
    case Request(_, _, _, _, _) => HeadIsNew(s, e);
    case DeviceTakes => TakesFirst(s);
    case DeviceCompletes(h) => CompleteInv(s, h);
    case Interrupt => SeesFirst(s);
    case Return(h) =>
    case Store(_, _) =>
  }

  lemma HeadIsNew(s: State, e: Event)
    requires Inv(s) && e.Request? && CanHappen(s, e)
    ensures e.d0 !in s.flight
  {
    hide FlightsOk, QueuesOk;
    NotHead(s.free, s.flight, s.holder, e.d0);
  }

  lemma TakesFirst(s: State)
    requires Inv(s) && s.devIdx != s.availIdx
    ensures s.queued != [] && |s.avail| == NUM && s.avail[s.devIdx % NUM] == s.queued[0] && s.queued[0] in s.flight
    ensures s.flight[s.queued[0]].stage == Queued
  {
    hide ChainsOk, FlightsOk, RingHolds;
    News(s);
    TakeInv(s);
    InvSizes(s);
    assert s.queued[0] in s.queued;
  }

  lemma SeesFirst(s: State)
    requires Inv(s) && s.seenIdx != s.usedIdx
    ensures s.done != [] && |s.used| == NUM && s.used[s.seenIdx % NUM] == s.done[0] && s.done[0] in s.flight
    ensures s.flight[s.done[0]].stage == Used
  {
    hide ChainsOk, FlightsOk, RingHolds;
    News(s);
    SeeInv(s);
    InvSizes(s);
    assert s.done[0] in s.done;
  }

  /** A request in flight is never stuck: at each stage there is a step to take. */
  lemma CanGoOn(states: seq<State>, events: seq<Event>, n: nat, h: nat)
    requires Run(states, events) && n < |states| && h in states[n].flight
    ensures var s := states[n];
            match s.flight[h].stage
            case Queued => CanHappen(s, DeviceTakes)
            case Taken => CanHappen(s, DeviceCompletes(h))
            case Used => CanHappen(s, Interrupt)
            case Seen => CanHappen(s, Return(h))
  {
    hide Run, Inv, Defined, CanSubmit;
    AllRuns(states, events, n);
    var s := states[n];
    News(s);
    StageListed(s, h);
  }

  lemma StageListed(s: State, h: nat)
    requires Inv(s) && h in s.flight
    ensures s.flight[h].stage == Queued ==> s.queued != []
    ensures s.flight[h].stage == Used ==> s.done != []
    ensures s.flight[h].stage == Seen ==> s.flight[h].buf !in s.busy
  {
    hide ChainsOk, RingHolds, FlightsOk, BufsApart;
    FlightAt(s, h);
  }

  // ------------------------------------------------------------ whole requests

  /** Between m and n the request that started at m with head d has not returned. */
  ghost predicate Pending(events: seq<Event>, m: nat, n: nat, d: nat) {
    && m < n <= |events| && events[m].Request? && events[m].d0 == d
    && forall k :: m < k < n ==> events[k] != Return(d)
  }

  /** It was carried out at k and at no other time. */
  ghost predicate DoneAt(events: seq<Event>, m: nat, n: nat, d: nat, k: nat) {
    && m < k < n <= |events| && events[k] == DeviceCompletes(d)
    && forall j :: m < j < n && j != k ==> events[j] != DeviceCompletes(d)
  }

  /** What the flight says, with the buffer's contents at the start and the time it was
      carried out, if it was. */
  ghost predicate Tracked(s: State, d: nat, b: nat, req: Req, start: int, done: bool) {
    && d in s.flight && s.flight[d].buf == b && s.flight[d].req == req && (Rank(s.flight[d]) >= 3 <==> done)
    && b in s.data && (req.out ==> s.data[b] == start)
  }

  lemma StartTracked(s: State, e: Event, t: State)
    requires Inv(s) && CanHappen(s, e) && Defined(s, e) && e.Request? && t == Step(s, e)
    ensures e.b in s.data && Tracked(t, e.d0, e.b, e.req, s.data[e.b], false)
  {
    hide Inv, Defined, Step;
    StepMoves(s, e);
    StepMovesOn(s, e);
  }

  lemma StillTracked(s: State, e: Event, t: State, d: nat, b: nat, req: Req, start: int, done: bool)
    requires Inv(s) && Inv(t) && CanHappen(s, e) && Defined(s, e) && t == Step(s, e) && e != Return(d)
    requires Tracked(s, d, b, req, start, done)
    ensures Tracked(t, d, b, req, start, done || e == DeviceCompletes(d)) && !(done && e == DeviceCompletes(d))
    ensures done ==> t.data[b] == s.data[b]
    ensures e == DeviceCompletes(d) ==> Transfers(s, s.flight[d], t)
  {
    hide Inv, Defined, Step, CanSubmit;
    StepMoves(s, e);
    StepMovesOn(s, e);
    if e.DeviceCompletes? && e.h != d { OtherBuffer(s, d, e.h); }
  }

  lemma OtherBuffer(s: State, d: nat, h: nat)
    requires Inv(s) && d in s.flight && h in s.flight && d != h
    ensures s.flight[h].buf != s.flight[d].buf
  {
    hide ChainsOk, QueuesOk, FlightOk;
  }

  /** Up to state n of its life a request was carried out at most once; if so, a write put
      the data its buffer had at the start on the disk, and a read left in its buffer what
      the disk had. */
  lemma {:induction false} Follow(states: seq<State>, events: seq<Event>, m: nat, n: nat, d: nat)
    returns (k: nat, done: bool)
    requires Run(states, events) && Pending(events, m, n, d)
    ensures var e := events[m];
            && e.b in states[m].data && Tracked(states[n], d, e.b, e.req, states[m].data[e.b], done)
            && (!done ==> forall j :: m < j < n ==> events[j] != DeviceCompletes(d))
            && (done ==> DoneAt(events, m, n, d, k) && CarriedOut(states, m, k, n, e.b, e.req))
    decreases n
  {
    hide Inv, Defined, CanHappen, Step, Start, Tracked;
    var e := events[m];
    k, done := 0, false;
    AllRuns(states, events, n - 1);
    AllRuns(states, events, n);
    if n == m + 1 {
      StartTracked(states[m], e, states[n]);
    } else {
      k, done := Follow(states, events, m, n - 1, d);
      var s, t, f := states[n - 1], states[n], events[n - 1];
      StillTracked(s, f, t, d, e.b, e.req, states[m].data[e.b], done);
      if f == DeviceCompletes(d) {
        NowDone(states, events, m, n, d);
        k, done := n - 1, true;
      } else if done {
        StillCarried(states, events, m, k, n, d, e.b, e.req);
      }
    }
  }

  /** At step k the data went the right way, and it was still in the buffer at n. */
  ghost predicate CarriedOut(states: seq<State>, m: nat, k: nat, n: nat, b: nat, req: Req) {
    && m < k < n < |states| && b in states[m].data && b in states[n].data && b in states[k].data
    && req.sector in states[k].disk && req.sector in states[k + 1].disk
    && if req.out then states[k + 1].disk == states[k].disk[req.sector := states[m].data[b]]
       else states[k + 1].disk == states[k].disk && states[n].data[b] == states[k].disk[req.sector]
  }

  lemma StillCarried(states: seq<State>, events: seq<Event>, m: nat, k: nat, n: nat, d: nat, b: nat, req: Req)
    requires 0 < n < |states| && CarriedOut(states, m, k, n - 1, b, req) && DoneAt(events, m, n - 1, d, k)
    requires n <= |events| && events[n - 1] != DeviceCompletes(d)
    requires exists start, was :: Tracked(states[n], d, b, req, start, was)
    requires b in states[n].data ==> states[n].data[b] == states[n - 1].data[b]
    ensures CarriedOut(states, m, k, n, b, req) && DoneAt(events, m, n, d, k)
  {
  }

  lemma NowDone(states: seq<State>, events: seq<Event>, m: nat, n: nat, d: nat)
    requires m + 1 < n < |states| == |events| + 1 && events[m].Request? && events[m].b in states[m].data
    requires var e, s := events[m], states[n - 1];
             Tracked(s, d, e.b, e.req, states[m].data[e.b], false) && Transfers(s, s.flight[d], states[n])
    ensures CarriedOut(states, m, n - 1, n, events[m].b, events[m].req)
  {
  }

  /** Every request that returns was carried out exactly once since it started: a write put on
      the disk what its buffer had when it started, and a read that returns leaves in the
      buffer what the disk had. */
  lemma WholeRequest(states: seq<State>, events: seq<Event>, m: nat, n: nat, d: nat) returns (k: nat)
    requires Run(states, events) && Pending(events, m, n, d) && n < |events| && events[n] == Return(d)
    ensures DoneAt(events, m, n, d, k) && CarriedOut(states, m, k, n, events[m].b, events[m].req)
  {
    hide Inv, Defined, CanHappen, Step, Start, CarriedOut;
    var done;
    k, done := Follow(states, events, m, n, d);
    AllRuns(states, events, n);
    StepMovesOn(states[n], events[n]);
  }
}

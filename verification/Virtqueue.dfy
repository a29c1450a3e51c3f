/** The driver and the device on one virtqueue (virtio_disk.c; sections 2.6 and 5.2 of
    virtio 1.1): shared memory as a value, the steps of both sides, and the invariant
    that every interleaving keeps. */
module Virtqueue {
  import opened Basics

  const NUM: nat := 8
  const TWO16: nat := 0x1_0000

  /** What a descriptor may point to: a request header, a buffer's data, a status byte. */
  datatype Addr = Null | Header(i: nat) | Data(b: nat) | Status(i: nat)

  datatype Desc = Desc(addr: Addr, more: bool, write: bool, next: nat)

  const CLEAR := Desc(Null, false, false, 0)

  /** A request header; out means a write to the disk. */
  datatype Req = Req(out: bool, sector: nat)

  /** How far a request has come: in the avail ring, with the device, in the used ring,
      and seen by the interrupt handler. */
  datatype Stage = Queued | Taken | Used | Seen

  /** A request in flight, by the head of its chain: the other two descriptors, what was
      asked, how often the device carried it out, and the data it moved. */
  datatype Flight = Flight(mid: nat, last: nat, buf: nat, req: Req, stage: Stage, runs: nat, moved: int)

  datatype State = State(
    free: seq<bool>, desc: seq<Desc>, ops: seq<Req>, status: seq<nat>, infob: seq<Option<nat>>,
    avail: seq<nat>, availIdx: nat, used: seq<nat>, usedIdx: nat, seenIdx: nat,
    busy: set<nat>, data: map<nat, int>, disk: map<nat, int>,
    devIdx: nat, queued: seq<nat>, done: seq<nat>, flight: map<nat, Flight>, holder: map<nat, nat>)

  // ------------------------------------------------------------ rings with 16-bit indices

  /** The ring entries from index lo on, up to index hi, are q. */
  ghost predicate RingHolds(ring: seq<nat>, lo: nat, hi: nat, q: seq<nat>) {
    && |ring| == NUM && lo < TWO16 && |q| <= NUM && hi == (lo + |q|) % TWO16
    && forall k :: 0 <= k < |q| ==> ring[(lo + k) % NUM] == q[k]
  }

  lemma IndexMod(lo: nat, k: nat)
    ensures (lo + k) % TWO16 % NUM == (lo + k) % NUM
    ensures ((lo + k) % TWO16 + 1) % TWO16 == (lo + k + 1) % TWO16
  {
    var q, r := (lo + k) / TWO16, (lo + k) % TWO16;
    assert lo + k == TWO16 * q + r;
    RingMod(0x2000 * q, r);
    IndexNext(q, r);
  }

  lemma RingMod(x: nat, r: nat)
    ensures (8 * x + r) % 8 == r % 8
  {
    assert 8 * x + r == 8 * (x + r / 8) + r % 8;
  }

  lemma IndexNext(q: nat, r: nat)
    requires r < TWO16
    ensures (TWO16 * q + r + 1) % TWO16 == (r + 1) % TWO16
  {
    if r + 1 == TWO16 { assert TWO16 * q + r + 1 == TWO16 * (q + 1); }
  }

  /** Adding an entry overwrites none that is waiting, also when the index wraps. */
  lemma RingPush(ring: seq<nat>, lo: nat, hi: nat, q: seq<nat>, x: nat)
    requires RingHolds(ring, lo, hi, q) && |q| < NUM
    ensures RingHolds(ring[hi % NUM := x], lo, (hi + 1) % TWO16, q + [x])
  {
    IndexMod(lo, |q|);
    var r := ring[hi % NUM := x];
    forall k | 0 <= k < |q + [x]| ensures r[(lo + k) % NUM] == (q + [x])[k] {
      if k < |q| { OtherPlace(lo, k, |q|); }
    }
  }

  /** Fewer than NUM entries apart are different places. */
  lemma OtherPlace(lo: nat, k: nat, n: nat)
    requires k < n < k + NUM
    ensures (lo + k) % NUM != (lo + n) % NUM
  {
    var a := (lo + k) / NUM;
    assert lo + n == NUM * a + (lo + k) % NUM + (n - k);
  }

  lemma RingPop(ring: seq<nat>, lo: nat, hi: nat, q: seq<nat>)
    requires RingHolds(ring, lo, hi, q) && q != []
    ensures ring[lo % NUM] == q[0] && RingHolds(ring, (lo + 1) % TWO16, hi, q[1..])
  {
    assert ring[(lo + 0) % NUM] == q[0];
    var l := (lo + 1) % TWO16;
    forall k | 0 <= k < |q[1..]| ensures ring[(l + k) % NUM] == q[1..][k] {
      assert (l + k) % NUM == (lo + (k + 1)) % NUM;
    }
  }

  /** The driver's test for news: the indices differ exactly when something waits. */
  lemma RingEmpty(ring: seq<nat>, lo: nat, hi: nat, q: seq<nat>)
    requires RingHolds(ring, lo, hi, q)
    ensures lo == hi <==> q == []
  {
  }

  // ------------------------------------------------------------ descriptors

  predicate InChain(h: nat, f: Flight, d: nat) {
    d == h || d == f.mid || d == f.last
  }

  /** A chain is three different descriptors. */
  predicate ChainOk(h: nat, f: Flight) {
    h < NUM && f.mid < NUM && f.last < NUM && h != f.mid && h != f.last && f.mid != f.last
  }

  /** Each descriptor is free or in exactly one chain, that of its holder. */
  ghost predicate ChainsOk(free: seq<bool>, flight: map<nat, Flight>, holder: map<nat, nat>) {
    && |free| == NUM
    && (forall d: nat :: d < NUM ==> (free[d] <==> d !in holder))
    && (forall d :: d in holder ==> d < NUM && holder[d] in flight && InChain(holder[d], flight[holder[d]], d))
    && (forall h :: h in flight ==> ChainOk(h, flight[h]) && HeldBy(holder, h, flight[h]))
  }

  predicate HeldBy(holder: map<nat, nat>, h: nat, f: Flight) {
    && h in holder && holder[h] == h && f.mid in holder && holder[f.mid] == h && f.last in holder && holder[f.last] == h
  }

  /** Chains share no descriptor. */
  lemma ChainsDisjoint(free: seq<bool>, flight: map<nat, Flight>, holder: map<nat, nat>, h: nat, g: nat, d: nat)
    requires ChainsOk(free, flight, holder) && h in flight && g in flight
    requires InChain(h, flight[h], d) && InChain(g, flight[g], d)
    ensures h == g
  {
    assert HeldBy(holder, h, flight[h]) && HeldBy(holder, g, flight[g]);
  }

  /** The descriptors of some chains. */
  function DescOf(holder: map<nat, nat>, heads: set<nat>): set<nat> {
    set d | d in holder && holder[d] in heads
  }

  lemma {:induction false} ThreeEach(free: seq<bool>, flight: map<nat, Flight>, holder: map<nat, nat>, heads: set<nat>)
    requires ChainsOk(free, flight, holder) && heads <= flight.Keys
    ensures |DescOf(holder, heads)| == 3 * |heads|
  {
    if heads == {} {
      assert DescOf(holder, heads) == {};
    } else {
      var h :| h in heads;
      ThreeEach(free, flight, holder, heads - {h});
      var f := flight[h];
      assert ChainOk(h, f) && HeldBy(holder, h, f);
      OneMore(flight, holder, heads, h);
    }
  }

  lemma OneMore(flight: map<nat, Flight>, holder: map<nat, nat>, heads: set<nat>, h: nat)
    requires h in heads && h in flight && ChainOk(h, flight[h]) && HeldBy(holder, h, flight[h])
    requires forall d :: d in holder && holder[d] == h ==> InChain(h, flight[h], d)
    ensures |DescOf(holder, heads)| == |DescOf(holder, heads - {h})| + 3
  {
    var f := flight[h];
    var rest, three := DescOf(holder, heads - {h}), {h, f.mid, f.last};
    assert DescOf(holder, heads) == rest + three;
    assert rest !! three && |three| == 3;
  }

  /** With eight descriptors at most two requests are in flight. */
  lemma AtMostTwo(free: seq<bool>, flight: map<nat, Flight>, holder: map<nat, nat>)
    requires ChainsOk(free, flight, holder)
    ensures |flight.Keys| <= 2
  {
    ThreeEach(free, flight, holder, flight.Keys);
    var s := DescOf(holder, flight.Keys);
    Bounded(s, NUM);
  }

  lemma {:induction false} Bounded(s: set<nat>, n: nat)
    requires forall d :: d in s ==> d < n
    ensures |s| <= n
  {
    if n > 0 { Bounded(s - {n - 1}, n - 1); } else { assert s == {}; }
  }

  // ------------------------------------------------------------ the invariant

  ghost predicate Sizes(s: State) {
    |s.desc| == NUM && |s.ops| == NUM && |s.status| == NUM && |s.infob| == NUM
  }

  /** The chain in memory says what was asked, and where its result goes. */
  predicate Formatted(desc: seq<Desc>, ops: seq<Req>, infob: seq<Option<nat>>, h: nat, f: Flight)
    requires |desc| == NUM && |ops| == NUM && |infob| == NUM && ChainOk(h, f)
  {
    && desc[h] == Desc(Header(h), true, false, f.mid) && desc[f.mid] == Desc(Data(f.buf), true, !f.req.out, f.last)
    && desc[f.last] == Desc(Status(h), false, true, 0) && ops[h] == f.req && infob[h] == Some(f.buf)
  }

  predicate Completed(f: Flight) {
    f.stage.Used? || f.stage.Seen?
  }

  /** Carried out exactly once when completed, never before; the buffer holds what was
      moved, and is busy until the interrupt handler has seen the completion. */
  predicate ProgressOk(status: seq<nat>, busy: set<nat>, data: map<nat, int>, disk: map<nat, int>, h: nat, f: Flight)
    requires |status| == NUM && h < NUM
  {
    && f.runs == (if Completed(f) then 1 else 0) && (Completed(f) ==> status[h] == 0)
    && f.buf in data && f.req.sector in disk && (f.req.out || Completed(f) ==> data[f.buf] == f.moved)
    && (f.buf in busy <==> !f.stage.Seen?)
  }

  ghost predicate FlightOk(s: State, h: nat, f: Flight) {
    && Sizes(s) && ChainOk(h, f)
    && Formatted(s.desc, s.ops, s.infob, h, f) && ProgressOk(s.status, s.busy, s.data, s.disk, h, f)
  }

  /** Different requests use different buffers. */
  ghost predicate BufsApart(flight: map<nat, Flight>) {
    forall h, g :: h in flight && g in flight && flight[h].buf == flight[g].buf ==> h == g
  }

  ghost predicate FlightsOk(s: State) {
    Sizes(s) && BufsApart(s.flight) && forall h :: h in s.flight ==> FlightOk(s, h, s.flight[h])
  }

  /** q lists the requests at a stage. */
  ghost predicate Lists(q: seq<nat>, flight: map<nat, Flight>, stage: Stage) {
    Distinct(q) && forall h: nat :: h in q <==> h in flight && flight[h].stage == stage
  }

  ghost predicate QueuesOk(s: State) {
    && RingHolds(s.avail, s.devIdx, s.availIdx, s.queued) && Lists(s.queued, s.flight, Queued)
    && RingHolds(s.used, s.seenIdx, s.usedIdx, s.done) && Lists(s.done, s.flight, Used)
  }

  ghost predicate Inv(s: State) {
    ChainsOk(s.free, s.flight, s.holder) && FlightsOk(s) && QueuesOk(s)
  }

  // ------------------------------------------------------------ steps

  /** The three descriptors of a request (virtio_disk.c:236-253). */
  function Chained(desc: seq<Desc>, b: nat, req: Req, d0: nat, d1: nat, d2: nat): seq<Desc>
    requires |desc| == NUM && d0 < NUM && d1 < NUM && d2 < NUM
  {
    desc[d0 := Desc(Header(d0), true, false, d1)]
        [d1 := Desc(Data(b), true, !req.out, d2)]
        [d2 := Desc(Status(d0), false, true, 0)]
  }

  /** virtio_disk_rw up to the notification (virtio_disk.c:215-265), with the three
      descriptors that alloc3_desc found. */
  function Submit(s: State, b: nat, req: Req, d0: nat, d1: nat, d2: nat): State
    requires |s.free| == NUM && Sizes(s) && |s.avail| == NUM && d0 < NUM && d1 < NUM && d2 < NUM && b in s.data
  {
    s.(free := s.free[d0 := false][d1 := false][d2 := false],
       desc := Chained(s.desc, b, req, d0, d1, d2),
       ops := s.ops[d0 := req], status := s.status[d0 := 0xff], infob := s.infob[d0 := Some(b)], busy := s.busy + {b},
       avail := s.avail[s.availIdx % NUM := d0], availIdx := (s.availIdx + 1) % TWO16, queued := s.queued + [d0],
       flight := s.flight[d0 := Flight(d1, d2, b, req, Queued, 0, s.data[b])],
       holder := s.holder[d0 := d0][d1 := d0][d2 := d0])
  }

  ghost predicate CanSubmit(s: State, b: nat, req: Req, d0: nat, d1: nat, d2: nat) {
    && |s.free| == NUM && d0 < NUM && d1 < NUM && d2 < NUM && d0 != d1 && d0 != d2 && d1 != d2
    && s.free[d0] && s.free[d1] && s.free[d2]
    && b in s.data && req.sector in s.disk && forall h :: h in s.flight ==> s.flight[h].buf != b
  }

  lemma SubmitChains(free: seq<bool>, flight: map<nat, Flight>, holder: map<nat, nat>, d0: nat, d1: nat, d2: nat,
                     f: Flight)
    requires ChainsOk(free, flight, holder) && ChainOk(d0, f) && f.mid == d1 && f.last == d2 && free[d0] && free[d1]
             && free[d2]
    ensures ChainsOk(free[d0 := false][d1 := false][d2 := false], flight[d0 := f], holder[d0 := d0][d1 := d0][d2 := d0])
    ensures d0 !in flight
  {
    NotHead(free, flight, holder, d0);
    var hold, fl := holder[d0 := d0][d1 := d0][d2 := d0], flight[d0 := f];
    forall h | h in fl ensures ChainOk(h, fl[h]) && HeldBy(hold, h, fl[h]) {
      if h != d0 { assert ChainOk(h, flight[h]) && HeldBy(holder, h, flight[h]); }
    }
  }

  lemma NotHead(free: seq<bool>, flight: map<nat, Flight>, holder: map<nat, nat>, d: nat)
    requires ChainsOk(free, flight, holder) && d < NUM && free[d]
    ensures d !in flight
  {
  }

  /** A descriptor that is free is in nobody's chain. */
  lemma FreeElsewhere(s: State, d: nat, h: nat)
    requires ChainsOk(s.free, s.flight, s.holder) && d < NUM && s.free[d] && h in s.flight
    ensures d != h && d != s.flight[h].mid && d != s.flight[h].last
  {
    assert HeldBy(s.holder, h, s.flight[h]);
  }

  lemma SubmitOther(s: State, b: nat, req: Req, d0: nat, d1: nat, d2: nat, h: nat, f: Flight)
    requires Sizes(s) && |s.free| == NUM && |s.avail| == NUM && d0 < NUM && d1 < NUM && d2 < NUM && b in s.data
    requires FlightOk(s, h, f) && f.buf != b
    requires d0 != h && d0 != f.mid && d0 != f.last && d1 != h && d1 != f.mid && d1 != f.last && d2 != h
             && d2 != f.mid && d2 != f.last
    ensures FlightOk(Submit(s, b, req, d0, d1, d2), h, f)
  {
  }

  lemma SubmitNew(s: State, b: nat, req: Req, d0: nat, d1: nat, d2: nat)
    requires Sizes(s) && |s.free| == NUM && |s.avail| == NUM && b in s.data && req.sector in s.disk
    requires ChainOk(d0, Flight(d1, d2, b, req, Queued, 0, s.data[b]))
    ensures FlightOk(Submit(s, b, req, d0, d1, d2), d0, Flight(d1, d2, b, req, Queued, 0, s.data[b]))
  {
  }

  lemma SubmitFlights(s: State, b: nat, req: Req, d0: nat, d1: nat, d2: nat)
    requires Inv(s) && CanSubmit(s, b, req, d0, d1, d2)
    ensures FlightsOk(Submit(s, b, req, d0, d1, d2))
  {
    assert |s.free| == NUM && |s.avail| == NUM;
    hide QueuesOk, FlightOk, ChainsOk;
    var t := Submit(s, b, req, d0, d1, d2);
    SubmitNew(s, b, req, d0, d1, d2);
    forall h | h in t.flight ensures FlightOk(t, h, t.flight[h]) {
      if h != d0 {
        FreeElsewhere(s, d0, h);
        FreeElsewhere(s, d1, h);
        FreeElsewhere(s, d2, h);
        SubmitOther(s, b, req, d0, d1, d2, h, s.flight[h]);
      }
    }
  }

  lemma ListsGrow(q: seq<nat>, flight: map<nat, Flight>, stage: Stage, h: nat, f: Flight)
    requires Lists(q, flight, stage) && h !in flight
    ensures Lists(if f.stage == stage then q + [h] else q, flight[h := f], stage)
  {
  }

  /** At most two entries wait in a ring. */
  lemma ListsShort(s: State, q: seq<nat>, stage: Stage)
    requires ChainsOk(s.free, s.flight, s.holder) && Lists(q, s.flight, stage)
    ensures |q| <= 2
  {
    AtMostTwo(s.free, s.flight, s.holder);
    DistinctCard(q);
    SubsetSize(ToSet(q), s.flight.Keys);
  }

  lemma {:induction false} DistinctCard(q: seq<nat>)
    requires Distinct(q)
    ensures |ToSet(q)| == |q|
  {
    if q != [] {
      var p := q[..|q| - 1];
      DistinctCard(p);
      assert ToSet(q) == ToSet(p) + {q[|q| - 1]};
    }
  }

  lemma SubmitInv(s: State, b: nat, req: Req, d0: nat, d1: nat, d2: nat)
    requires Inv(s) && CanSubmit(s, b, req, d0, d1, d2)
    ensures Inv(Submit(s, b, req, d0, d1, d2))
  {
    hide FlightsOk, ChainsOk, Lists, RingHolds;
    SubmitFlights(s, b, req, d0, d1, d2);
    var f := Flight(d1, d2, b, req, Queued, 0, s.data[b]);
    SubmitChains(s.free, s.flight, s.holder, d0, d1, d2, f);
    ListsShort(s, s.queued, Queued);
    RingPush(s.avail, s.devIdx, s.availIdx, s.queued, d0);
    ListsGrow(s.queued, s.flight, Queued, d0, f);
    ListsGrow(s.done, s.flight, Used, d0, f);
  }

  /** A request moves on to another stage; nothing else about it changes. */
  function Moved(flight: map<nat, Flight>, h: nat, stage: Stage): map<nat, Flight>
    requires h in flight
  {
    flight[h := flight[h].(stage := stage)]
  }

  /** The device fetches the next chain head from the avail ring. */
  function Take(s: State): State
    requires |s.avail| == NUM && s.avail[s.devIdx % NUM] in s.flight && s.queued != []
  {
    s.(devIdx := (s.devIdx + 1) % TWO16, queued := s.queued[1..],
       flight := Moved(s.flight, s.avail[s.devIdx % NUM], Taken))
  }

  /** What the device reads by following a chain: request, buffer, and status byte. It may
      write just what is marked so: the status, and the data unless they go to the disk. */
  function Decode(s: State, h: nat): Option<(Req, nat, nat)>
    requires Sizes(s)
  {
    if h < NUM && s.desc[h].addr.Header? && s.desc[h].addr.i < NUM && s.desc[h].more && s.desc[h].next < NUM then
      var m := s.desc[s.desc[h].next];
      var req := s.ops[s.desc[h].addr.i];
      if m.addr.Data? && m.more && m.next < NUM && s.desc[m.next].addr.Status? && s.desc[m.next].write
          && !s.desc[m.next].more && !s.desc[h].write && m.write == !req.out
      then Some((req, m.addr.b, s.desc[m.next].addr.i)) else None
    else None
  }

  /** The device carries out a request it has taken and reports it in the used ring. */
  function Complete(s: State, h: nat): State
    requires Sizes(s) && |s.used| == NUM && h in s.flight && Decode(s, h).Some?
    requires var (req, b, i) := Decode(s, h).value; req.sector in s.disk && b in s.data && i < NUM
  {
    var (req, b, i) := Decode(s, h).value;
    var moved := if req.out then s.data[b] else s.disk[req.sector];
    s.(disk := if req.out then s.disk[req.sector := moved] else s.disk,
       data := if req.out then s.data else s.data[b := moved],
       status := s.status[i := 0], used := s.used[s.usedIdx % NUM := h], usedIdx := (s.usedIdx + 1) % TWO16,
       done := s.done + [h],
       flight := s.flight[h := s.flight[h].(stage := Used, runs := s.flight[h].runs + 1, moved := moved)])
  }

  /** One turn of the loop of virtio_disk_intr (virtio_disk.c:300-312). */
  function See(s: State): State
    requires |s.used| == NUM && |s.infob| == NUM && s.done != []
    requires var id := s.used[s.seenIdx % NUM]; id in s.flight && id < NUM && s.infob[id].Some?
  {
    var id := s.used[s.seenIdx % NUM];
    s.(busy := s.busy - {s.infob[id].value}, seenIdx := (s.seenIdx + 1) % TWO16, done := s.done[1..],
       flight := Moved(s.flight, id, Seen))
  }

  /** The end of virtio_disk_rw (virtio_disk.c:276-277), with free_chain. */
  function Finish(s: State, h: nat): State
    requires Sizes(s) && |s.free| == NUM && h in s.flight && ChainOk(h, s.flight[h])
  {
    var f := s.flight[h];
    s.(infob := s.infob[h := None], desc := s.desc[h := CLEAR][f.mid := CLEAR][f.last := CLEAR],
       free := s.free[h := true][f.mid := true][f.last := true],
       flight := s.flight - {h}, holder := s.holder - {h, f.mid, f.last})
  }

  // ------------------------------------------------------------ each step keeps the invariant

  lemma ListsMove(q: seq<nat>, flight: map<nat, Flight>, from: Stage, h: nat, f: Flight)
    requires Lists(q, flight, from) && h in flight && flight[h].stage == from && f.stage != from && q != [] && q[0] == h
    ensures Lists(q[1..], flight[h := f], from)
  {
    assert q == [q[0]] + q[1..];
  }

  lemma ListsStay(q: seq<nat>, flight: map<nat, Flight>, stage: Stage, h: nat, f: Flight)
    requires Lists(q, flight, stage) && h in flight && flight[h].stage != stage && f.stage != stage
    ensures Lists(q, flight[h := f], stage)
  {
  }

  lemma ListsArrive(q: seq<nat>, flight: map<nat, Flight>, stage: Stage, h: nat, f: Flight)
    requires Lists(q, flight, stage) && h in flight && flight[h].stage != stage && f.stage == stage
    ensures Lists(q + [h], flight[h := f], stage)
  {
    assert h !in q;
  }

  /** The same chains with the same descriptors. */
  lemma ChainsStay(free: seq<bool>, flight: map<nat, Flight>, holder: map<nat, nat>, h: nat, f: Flight)
    requires ChainsOk(free, flight, holder) && h in flight && f.mid == flight[h].mid && f.last == flight[h].last
    ensures ChainsOk(free, flight[h := f], holder)
  {
    var fl := flight[h := f];
    forall g | g in fl ensures ChainOk(g, fl[g]) && HeldBy(holder, g, fl[g]) {
      assert ChainOk(g, flight[g]) && HeldBy(holder, g, flight[g]);
    }
  }

  lemma BufsStay(flight: map<nat, Flight>, h: nat, f: Flight)
    requires BufsApart(flight) && h in flight && f.buf == flight[h].buf
    ensures BufsApart(flight[h := f])
  {
  }

  /** Flights other than h do not see a change of h's stage. */
  lemma StageFlights(s: State, h: nat, stage: Stage)
    requires FlightsOk(s) && h in s.flight && (s.flight[h].stage == Queued && stage == Taken)
    ensures FlightsOk(s.(flight := Moved(s.flight, h, stage)))
  {
    var t := s.(flight := Moved(s.flight, h, stage));
    BufsStay(s.flight, h, t.flight[h]);
    forall g | g in t.flight ensures FlightOk(t, g, t.flight[g]) {
      assert FlightOk(s, g, s.flight[g]);
    }
  }

  lemma Listed(q: seq<nat>, flight: map<nat, Flight>, stage: Stage, h: nat)
    requires Lists(q, flight, stage) && h in q
    ensures h in flight && flight[h].stage == stage
  {
  }

  lemma RingLength(ring: seq<nat>, lo: nat, hi: nat, q: seq<nat>)
    requires RingHolds(ring, lo, hi, q)
    ensures |ring| == NUM
  {
  }

  lemma FlightAt(s: State, h: nat)
    requires FlightsOk(s) && h in s.flight
    ensures FlightOk(s, h, s.flight[h]) && Sizes(s)
  {
  }

  lemma ChainsSize(free: seq<bool>, flight: map<nat, Flight>, holder: map<nat, nat>)
    requires ChainsOk(free, flight, holder)
    ensures |free| == NUM
  {
  }

  lemma TakeInv(s: State)
    requires Inv(s) && s.queued != []
    ensures s.avail[s.devIdx % NUM] == s.queued[0] && s.queued[0] in s.flight && Inv(Take(s))
  {
    hide FlightsOk, ChainsOk, Lists, RingHolds;
    RingPop(s.avail, s.devIdx, s.availIdx, s.queued);
    var h := s.queued[0];
    Listed(s.queued, s.flight, Queued, h);
    var f := s.flight[h].(stage := Taken);
    ChainsStay(s.free, s.flight, s.holder, h, f);
    StageFlights(s, h, Taken);
    SameFlights(s.(flight := Moved(s.flight, h, Taken)), Take(s));
    ListsMove(s.queued, s.flight, Queued, h, f);
    ListsStay(s.done, s.flight, Used, h, f);
  }

  lemma SameFlights(s: State, t: State)
    requires FlightsOk(s) && t.flight == s.flight && t.desc == s.desc && t.ops == s.ops && t.infob == s.infob
    requires t.status == s.status && t.busy == s.busy && t.data == s.data && t.disk == s.disk
    ensures FlightsOk(t)
  {
    forall h | h in t.flight ensures FlightOk(t, h, t.flight[h]) {
      assert FlightOk(s, h, s.flight[h]);
    }
  }

  /** The device finds in the chain exactly what its request asked for. */
  lemma DecodeOk(s: State, h: nat, f: Flight)
    requires FlightOk(s, h, f)
    ensures Decode(s, h) == Some((f.req, f.buf, h)) && f.req.sector in s.disk && f.buf in s.data && h < NUM
  {
  }

  lemma CompleteOther(s: State, t: State, h: nat, f: Flight, g: nat, e: Flight, moved: int)
    requires FlightOk(s, h, f) && FlightOk(s, g, e) && g != h && e.buf != f.buf
    requires t.desc == s.desc && t.ops == s.ops && t.infob == s.infob && t.busy == s.busy
             && t.status == s.status[h := 0]
    requires t.disk == if f.req.out then s.disk[f.req.sector := moved] else s.disk
    requires t.data == if f.req.out then s.data else s.data[f.buf := moved]
    ensures FlightOk(t, g, e)
  {
  }

  lemma CompleteOwn(s: State, t: State, h: nat, f: Flight, moved: int)
    requires FlightOk(s, h, f) && f.stage == Taken && moved == if f.req.out then s.data[f.buf] else s.disk[f.req.sector]
    requires t.desc == s.desc && t.ops == s.ops && t.infob == s.infob && t.busy == s.busy
             && t.status == s.status[h := 0]
    requires t.disk == if f.req.out then s.disk[f.req.sector := moved] else s.disk
    requires t.data == if f.req.out then s.data else s.data[f.buf := moved]
    ensures FlightOk(t, h, f.(stage := Used, runs := f.runs + 1, moved := moved))
  {
  }

  lemma CompleteFlights(s: State, h: nat)
    requires FlightsOk(s) && h in s.flight && s.flight[h].stage == Taken && |s.used| == NUM
    ensures Decode(s, h) == Some((s.flight[h].req, s.flight[h].buf, h))
    ensures s.flight[h].req.sector in s.disk && s.flight[h].buf in s.data && h < NUM && FlightsOk(Complete(s, h))
  {
    hide FlightOk, Decode;
    var f := s.flight[h];
    DecodeOk(s, h, f);
    var t := Complete(s, h);
    var moved := if f.req.out then s.data[f.buf] else s.disk[f.req.sector];
    BufsStay(s.flight, h, t.flight[h]);
    CompleteOwn(s, t, h, f, moved);
    forall g | g in t.flight ensures FlightOk(t, g, t.flight[g]) {
      if g != h { CompleteOther(s, t, h, f, g, s.flight[g], moved); }
    }
  }

  /** The device carries out its request on the right sector and buffer. */
  lemma CompleteInv(s: State, h: nat)
    requires Inv(s) && h in s.flight && s.flight[h].stage == Taken
    ensures Decode(s, h) == Some((s.flight[h].req, s.flight[h].buf, h))
    ensures s.flight[h].req.sector in s.disk && s.flight[h].buf in s.data && h < NUM && Inv(Complete(s, h))
  {
    hide FlightsOk, ChainsOk, Lists, RingHolds, Decode;
    RingLength(s.used, s.seenIdx, s.usedIdx, s.done);
    FlightAt(s, h);
    CompleteFlights(s, h);
    ListsShort(s, s.done, Used);
    var f := Complete(s, h).flight[h];
    ChainsStay(s.free, s.flight, s.holder, h, f);
    RingPush(s.used, s.seenIdx, s.usedIdx, s.done, h);
    ListsStay(s.queued, s.flight, Queued, h, f);
    ListsArrive(s.done, s.flight, Used, h, f);
  }

  lemma SeeFlights(s: State, h: nat)
    requires FlightsOk(s) && h in s.flight && s.flight[h].stage == Used
    ensures FlightsOk(s.(busy := s.busy - {s.flight[h].buf}, flight := Moved(s.flight, h, Seen)))
  {
    var t := s.(busy := s.busy - {s.flight[h].buf}, flight := Moved(s.flight, h, Seen));
    BufsStay(s.flight, h, t.flight[h]);
    forall g | g in t.flight ensures FlightOk(t, g, t.flight[g]) {
      assert FlightOk(s, g, s.flight[g]) && FlightOk(s, h, s.flight[h]);
    }
  }

  /** The interrupt handler finds a finished request with status 0, so it cannot panic,
      and releases that request's own buffer. */
  lemma SeeInv(s: State)
    requires Inv(s) && s.done != []
    ensures s.used[s.seenIdx % NUM] == s.done[0] && s.done[0] in s.flight && s.done[0] < NUM
    ensures s.status[s.done[0]] == 0 && s.infob[s.done[0]] == Some(s.flight[s.done[0]].buf) && Inv(See(s))
  {
    hide FlightsOk, ChainsOk, Lists, RingHolds;
    RingPop(s.used, s.seenIdx, s.usedIdx, s.done);
    var h := s.done[0];
    Listed(s.done, s.flight, Used, h);
    FlightAt(s, h);
    RingLength(s.used, s.seenIdx, s.usedIdx, s.done);
    var f := s.flight[h].(stage := Seen);
    ChainsStay(s.free, s.flight, s.holder, h, f);
    SeeFlights(s, h);
    SameFlights(s.(busy := s.busy - {s.flight[h].buf}, flight := Moved(s.flight, h, Seen)), See(s));
    ListsStay(s.queued, s.flight, Queued, h, f);
    ListsMove(s.done, s.flight, Used, h, f);
  }

  lemma FinishChains(free: seq<bool>, flight: map<nat, Flight>, holder: map<nat, nat>, h: nat)
    requires ChainsOk(free, flight, holder) && h in flight
    ensures var f := flight[h];
            ChainsOk(free[h := true][f.mid := true][f.last := true], flight - {h}, holder - {h, f.mid, f.last})
  {
    var f, fl := flight[h], flight - {h};
    var hold := holder - {h, f.mid, f.last};
    assert ChainOk(h, f) && HeldBy(holder, h, f);
    forall g | g in fl ensures ChainOk(g, fl[g]) && HeldBy(hold, g, fl[g]) {
      assert ChainOk(g, flight[g]) && HeldBy(holder, g, flight[g]);
    }
    forall d | d in hold ensures d < NUM && hold[d] in fl && InChain(hold[d], fl[hold[d]], d) {
      assert InChain(holder[d], flight[holder[d]], d);
    }
  }

  lemma FinishOther(s: State, t: State, h: nat, f: Flight, g: nat, e: Flight)
    requires FlightOk(s, g, e) && ChainOk(h, f)
    requires forall d :: InChain(h, f, d) ==> !InChain(g, e, d)
    requires t.desc == s.desc[h := CLEAR][f.mid := CLEAR][f.last := CLEAR] && t.infob == s.infob[h := None]
    requires t.ops == s.ops && t.status == s.status && t.busy == s.busy && t.data == s.data && t.disk == s.disk
    ensures FlightOk(t, g, e)
  {
    assert InChain(g, e, g) && InChain(g, e, e.mid) && InChain(g, e, e.last);
    assert InChain(h, f, h) && InChain(h, f, f.mid) && InChain(h, f, f.last);
  }

  lemma FinishInv(s: State, h: nat)
    requires Inv(s) && h in s.flight && s.flight[h].stage == Seen
    ensures ChainOk(h, s.flight[h]) && Inv(Finish(s, h))
    ensures s.flight[h].runs == 1 && s.data[s.flight[h].buf] == s.flight[h].moved && s.flight[h].buf !in s.busy
  {
    hide ChainsOk, FlightsOk, RingHolds, Lists;
    FlightAt(s, h);
    ChainsSize(s.free, s.flight, s.holder);
    FinishChains(s.free, s.flight, s.holder, h);
    FinishFlights(s, h);
    ListsLeave(s.queued, s.flight, Queued, h);
    ListsLeave(s.done, s.flight, Used, h);
  }

  lemma ListsLeave(q: seq<nat>, flight: map<nat, Flight>, stage: Stage, h: nat)
    requires Lists(q, flight, stage) && h in flight && flight[h].stage != stage
    ensures Lists(q, flight - {h}, stage)
  {
  }

  lemma FinishFlights(s: State, h: nat)
    requires ChainsOk(s.free, s.flight, s.holder) && FlightsOk(s) && h in s.flight
    ensures ChainOk(h, s.flight[h]) && FlightsOk(Finish(s, h))
  {
    assert ChainOk(h, s.flight[h]);
    var f, t := s.flight[h], Finish(s, h);
    hide ChainsOk, FlightOk;
    forall g | g in t.flight ensures FlightOk(t, g, t.flight[g]) {
      forall d | InChain(h, f, d) ensures !InChain(g, s.flight[g], d) {
        if InChain(g, s.flight[g], d) { ChainsDisjoint(s.free, s.flight, s.holder, h, g, d); }
      }
      FinishOther(s, t, h, f, g, s.flight[g]);
    }
  }

  // ------------------------------------------------------------ runs

  datatype Event =
    | Request(b: nat, req: Req, d0: nat, d1: nat, d2: nat)
    | DeviceTakes
    | DeviceCompletes(h: nat)
    | Interrupt
    | Return(h: nat)
    | Store(b: nat, v: int)   // the holder of a buffer that is not in use writes it

  /** When a step can happen: the driver asks with three free descriptors for a buffer
      that is not in use, the device takes and completes what is there, the handler runs
      when the used ring has news, a request returns when its buffer is released, and
      anyone may write a buffer that no request uses. */
  ghost predicate CanHappen(s: State, e: Event) {
    match e
    case Request(b, req, d0, d1, d2) => CanSubmit(s, b, req, d0, d1, d2)
    case DeviceTakes => s.devIdx != s.availIdx
    case DeviceCompletes(h) => h in s.flight && s.flight[h].stage == Taken
    case Interrupt => s.seenIdx != s.usedIdx
    case Return(h) => h in s.flight && s.flight[h].buf !in s.busy
    case Store(b, _) => Idle(s, b)
  }

  ghost predicate Idle(s: State, b: nat) {
    b in s.data && forall h :: h in s.flight ==> s.flight[h].buf != b
  }

  /** The step finds in memory what it relies on: the device a chain it can decode, the
      handler a request with status 0 (else it panics), the returning call its chain. */
  ghost predicate Defined(s: State, e: Event) {
    && Sizes(s) && |s.free| == NUM && |s.avail| == NUM && |s.used| == NUM
    && match e
       case Request(_, _, _, _, _) => true
       case DeviceTakes => s.queued != [] && s.avail[s.devIdx % NUM] in s.flight
       case DeviceCompletes(h) =>
         && h in s.flight && Decode(s, h).Some?
         && var (req, b, i) := Decode(s, h).value; req.sector in s.disk && b in s.data && i < NUM
       case Interrupt =>
         var id := s.used[s.seenIdx % NUM];
         s.done != [] && id in s.flight && id < NUM && s.infob[id].Some? && s.status[id] == 0
       case Return(h) => h in s.flight && ChainOk(h, s.flight[h])
       case Store(_, _) => true
  }

  ghost function Step(s: State, e: Event): State
    requires CanHappen(s, e) && Defined(s, e)
  {
    match e
    case Request(b, req, d0, d1, d2) => Submit(s, b, req, d0, d1, d2)
    case DeviceTakes => Take(s)
    case DeviceCompletes(h) => Complete(s, h)
    case Interrupt => See(s)
    case Return(h) => Finish(s, h)
    case Store(b, v) => s.(data := s.data[b := v])
  }

  /** In a state with the invariant no step finds anything else. */
  lemma StepDefined(s: State, e: Event)
    requires Inv(s) && CanHappen(s, e)
    ensures Defined(s, e) && (e.Return? ==> s.flight[e.h].stage == Seen)
  {
    hide Inv, Decode, CanSubmit;
    InvSizes(s);
    match e
    case Request(_, _, _, _, _) =>
    case DeviceTakes =>
      News(s);
      TakeInv(s);
    case DeviceCompletes(h) => CompleteInv(s, h);
    case Interrupt =>
      News(s);
      SeeInv(s);
    case Return(h) => Released(s, h);
    case Store(_, _) =>
  }

  /** The tests for news of the device and of the handler. */
  lemma News(s: State)
    requires Inv(s)
    ensures (s.devIdx == s.availIdx <==> s.queued == []) && (s.seenIdx == s.usedIdx <==> s.done == [])
  {
    hide FlightsOk, ChainsOk, Lists, RingHolds;
    RingEmpty(s.avail, s.devIdx, s.availIdx, s.queued);
    RingEmpty(s.used, s.seenIdx, s.usedIdx, s.done);
  }

  lemma Released(s: State, h: nat)
    requires Inv(s) && h in s.flight && s.flight[h].buf !in s.busy
    ensures ChainOk(h, s.flight[h]) && s.flight[h].stage == Seen
  {
    hide ChainsOk, FlightsOk, QueuesOk;
    FlightAt(s, h);
  }

  lemma InvSizes(s: State)
    requires Inv(s)
    ensures Sizes(s) && |s.free| == NUM && |s.avail| == NUM && |s.used| == NUM
  {
  }

  lemma StepInv(s: State, e: Event)
    requires Inv(s) && CanHappen(s, e) && Defined(s, e)
    ensures Inv(Step(s, e))
  {
    hide Inv, CanSubmit, Decode;
    StepDefined(s, e);
    match e
    case Request(b, req, d0, d1, d2) => SubmitInv(s, b, req, d0, d1, d2);
    case DeviceTakes => TakeInv(s);
    case DeviceCompletes(h) => CompleteInv(s, h);
    case Interrupt => SeeInv(s);
    case Return(h) => FinishInv(s, h);
    case Store(b, v) => StoreInv(s, b, v);
  }

  lemma StoreInv(s: State, b: nat, v: int)
    requires Inv(s) && Idle(s, b)
    ensures Inv(s.(data := s.data[b := v]))
  {
    hide ChainsOk, Lists, RingHolds, Formatted;
    var t := s.(data := s.data[b := v]);
    forall h | h in t.flight ensures FlightOk(t, h, t.flight[h]) {
      FlightAt(s, h);
    }
  }

  /** What virtio_disk_init leaves (virtio_disk.c:125-138): zeroed rings and all
      descriptors free, with some buffers and a disk. */
  function Start(data: map<nat, int>, disk: map<nat, int>): State {
    State(seq(NUM, _ => true), seq(NUM, _ => CLEAR), seq(NUM, _ => Req(false, 0)), seq(NUM, _ => 0),
          seq(NUM, _ => None), seq(NUM, _ => 0), 0, seq(NUM, _ => 0), 0, 0, {}, data, disk, 0, [], [], map[], map[])
  }

  lemma StartInv(data: map<nat, int>, disk: map<nat, int>)
    ensures Inv(Start(data, disk))
  {
  }

  ghost predicate Run(states: seq<State>, events: seq<Event>) {
    && |states| == |events| + 1 && states[0] == Start(states[0].data, states[0].disk)
    && forall i :: 0 <= i < |events| ==>
         CanHappen(states[i], events[i]) && Defined(states[i], events[i]) && states[i + 1] == Step(states[i], events[i])
  }

  /** In every run from virtio_disk_init on: at most two requests are in flight, so no ring
      entry is overwritten before it is read; whatever can happen next finds memory as it
      should be; and a request that returns was carried out exactly once, on its own buffer. */
  lemma {:induction false} AllRuns(states: seq<State>, events: seq<Event>, n: nat)
    requires Run(states, events) && n < |states|
    ensures Inv(states[n]) && |states[n].flight.Keys| <= 2 && |states[n].queued| <= 2 && |states[n].done| <= 2
    ensures forall e :: CanHappen(states[n], e) ==> Defined(states[n], e)
    ensures n < |events| && events[n].Return? ==>
              var h := events[n].h;
              h in states[n].flight && states[n].flight[h].runs == 1 && states[n].flight[h].buf in states[n].data
              && states[n].data[states[n].flight[h].buf] == states[n].flight[h].moved
  {
    hide Inv, Defined, CanHappen, Step, Start;
    var s := states[n];
    if n == 0 {
      StartInv(s.data, s.disk);
    } else {
      AllRuns(states, events, n - 1);
      StepInv(states[n - 1], events[n - 1]);
    }
    InFlight(s);
    forall e | CanHappen(s, e) ensures Defined(s, e) { StepDefined(s, e); }
    if n < |events| && events[n].Return? { Returned(s, events[n].h); }
  }

  lemma InFlight(s: State)
    requires Inv(s)
    ensures |s.flight.Keys| <= 2 && |s.queued| <= 2 && |s.done| <= 2
  {
    hide ChainsOk, FlightsOk, RingHolds, Lists;
    AtMostTwo(s.free, s.flight, s.holder);
    ListsShort(s, s.queued, Queued);
    ListsShort(s, s.done, Used);
  }

  lemma Returned(s: State, h: nat)
    requires Inv(s) && CanHappen(s, Return(h))
    ensures h in s.flight && s.flight[h].runs == 1 && s.flight[h].buf in s.data
    ensures s.data[s.flight[h].buf] == s.flight[h].moved
  {
    hide ChainsOk, FlightsOk, QueuesOk;
    StepDefined(s, Return(h));
    FinishInv(s, h);
    FlightAt(s, h);
  }
}

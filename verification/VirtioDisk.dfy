/** The disk driver's own code (virtio_disk.c), updating the shared memory in place; each
    operation is the step of Virtqueue it stands for. */
module VirtioDisk {
  import opened Basics
  import opened Virtqueue

  function FreeSet(free: seq<bool>): set<nat>
    requires |free| == NUM
  {
    set d: nat | d < NUM && free[d]
  }

  class Disk {
    var free: seq<bool>
    var desc: seq<Desc>
    var ops: seq<Req>
    var status: seq<nat>
    var infob: seq<Option<nat>>
    var avail: seq<nat>
    var availIdx: nat
    var used: seq<nat>
    var usedIdx: nat
    var seenIdx: nat
    /** The buffers whose `disk` field is 1. */
    var busy: set<nat>
    ghost var data: map<nat, int>
    ghost var disk: map<nat, int>
    ghost var devIdx: nat
    ghost var queued: seq<nat>
    ghost var done: seq<nat>
    ghost var flight: map<nat, Flight>
    ghost var holder: map<nat, nat>

    ghost function Now(): State
      reads this
    {
      State(free, desc, ops, status, infob, avail, availIdx, used, usedIdx, seenIdx, busy, data, disk,
            devIdx, queued, done, flight, holder)
    }

    /** The tables that virtio_disk_init sets up (virtio_disk.c:125-138). */
    constructor (ghost bufs: map<nat, int>, ghost sectors: map<nat, int>)
      ensures Now() == Start(bufs, sectors) && Inv(Now())
    {
      desc, ops := seq(NUM, _ => CLEAR), seq(NUM, _ => Req(false, 0));
      status, infob := seq(NUM, _ => 0), seq(NUM, _ => None);
      avail, availIdx, used, usedIdx, seenIdx := seq(NUM, _ => 0), 0, seq(NUM, _ => 0), 0, 0;
      free, busy, data, disk, devIdx := seq(NUM, _ => false), {}, bufs, sectors, 0;
      queued, done, flight, holder := [], [], map[], map[];
      new;
      ghost var s := Now();
      var i := 0;
      while i < NUM
        invariant i <= NUM && |free| == NUM && Now() == s.(free := free) && forall d :: 0 <= d < i ==> free[d]
      {
        free := free[i := true];
        i := i + 1;
      }
      assert free == seq(NUM, _ => true);
      StartInv(bufs, sectors);
    }

    /** alloc_desc (virtio_disk.c:144-154): the lowest free descriptor. */
    method AllocDesc() returns (i: int)
      requires |free| == NUM
      modifies this`free
      ensures i == -1 ==> free == old(free) && forall d :: 0 <= d < NUM ==> !free[d]
      ensures i != -1 ==> 0 <= i < NUM && old(free)[i] && free == old(free)[i := false]
      ensures i != -1 ==> forall d :: 0 <= d < i ==> !old(free)[d]
    {
      i := 0;
      while i < NUM
        invariant 0 <= i <= NUM && free == old(free) && forall d :: 0 <= d < i ==> !free[d]
      {
        if free[i] {
          free := free[i := false];
          return;
        }
        i := i + 1;
      }
      i := -1;
    }

    /** free_desc (virtio_disk.c:157-170); its panics need an index out of range or a
        descriptor that is already free. */
    method FreeDesc(i: nat)
      requires |free| == NUM && |desc| == NUM && i < NUM && !free[i]
      modifies this`free, this`desc
      ensures free == old(free)[i := true] && desc == old(desc)[i := CLEAR]
    {
      desc := desc[i := CLEAR];
      free := free[i := true];
    }

    /** free_chain (virtio_disk.c:173-185) on a chain of three. */
    method FreeChain(h: nat, ghost f: Flight)
      requires |free| == NUM && |desc| == NUM && ChainOk(h, f) && !free[h] && !free[f.mid] && !free[f.last]
      requires desc[h].more && desc[h].next == f.mid && desc[f.mid].more && desc[f.mid].next == f.last
               && !desc[f.last].more
      modifies this`free, this`desc
      ensures free == old(free)[h := true][f.mid := true][f.last := true]
      ensures desc == old(desc)[h := CLEAR][f.mid := CLEAR][f.last := CLEAR]
    {
      ghost var chain := [h, f.mid, f.last];
      ghost var k := 0;
      var i := h;
      while true
        invariant k < 3 && i == chain[k] && |free| == NUM && |desc| == NUM
        invariant k == 0 ==> free == old(free) && desc == old(desc)
        invariant k == 1 ==> free == old(free)[h := true] && desc == old(desc)[h := CLEAR]
        invariant k == 2 ==>
                  free == old(free)[h := true][f.mid := true] && desc == old(desc)[h := CLEAR][f.mid := CLEAR]
        decreases 3 - k
      {
        var more, next := desc[i].more, desc[i].next;
        FreeDesc(i);
        if more {
          i := next;
          k := k + 1;
        } else {
          break;
        }
      }
    }

    /** alloc3_desc (virtio_disk.c:189-201): three descriptors or none. */
    method Alloc3() returns (ok: bool, idx: seq<nat>)
      requires |free| == NUM && |desc| == NUM
      modifies this`free, this`desc
      ensures |free| == NUM && |desc| == NUM
      ensures ok ==> |idx| == 3 && (forall k :: 0 <= k < 3 ==> idx[k] < NUM && old(free)[idx[k]])
      ensures ok ==> idx[0] != idx[1] && idx[0] != idx[2] && idx[1] != idx[2] && desc == old(desc)
      ensures ok ==> free == old(free)[idx[0] := false][idx[1] := false][idx[2] := false]
      ensures !ok ==> free == old(free) && |FreeSet(free)| <= 2
      ensures !ok ==> SameTaken(free, old(desc), desc)
    {
      hide Marks, AllFrom, SameTaken, FreeSet;
      ghost var was, desc0 := free, desc;
      idx := [];
      MarkNone(was);
      while |idx| < 3
        invariant |idx| <= 3 && |free| == NUM && desc == desc0 && AllFrom(was, idx) && Marks(free, was, idx)
      {
        ghost var free0 := free;
        var i := AllocDesc();
        if i < 0 {
          FewFree(free, was, idx);
          FreeAll(idx, was);
          return false, [];
        }
        MarkOne(free0, was, idx, i);
        idx := idx + [i];
      }
      ok := true;
      MarkedThree(free, was, idx);
    }

    /** Undoing a failed alloc3_desc (virtio_disk.c:195-197). */
    method FreeAll(idx: seq<nat>, ghost was: seq<bool>)
      requires |free| == NUM && |desc| == NUM && |was| == NUM && AllFrom(was, idx) && Marks(free, was, idx)
      modifies this`free, this`desc
      ensures free == was && |desc| == NUM && SameTaken(was, old(desc), desc)
    {
      hide Marks, AllFrom, SameTaken;
      ghost var desc0 := desc;
      TakenSame(was, desc);
      var j := 0;
      while j < |idx|
        invariant j <= |idx| && |free| == NUM && |desc| == NUM && Marks(free, was, idx[j..])
                  && SameTaken(was, desc0, desc)
      {
        UnmarkOne(free, was, idx, j, desc0, desc);
        FreeDesc(idx[j]);
        j := j + 1;
      }
      assert idx[j..] == [];
      MarkedAgain(free, was);
    }

    /** The rest of virtio_disk_rw up to the notification (virtio_disk.c:226-265). */
    method Publish(b: nat, req: Req, d0: nat, d1: nat, d2: nat)
      requires |desc| == NUM && |ops| == NUM && |status| == NUM && |infob| == NUM && |avail| == NUM
      requires d0 < NUM && d1 < NUM && d2 < NUM && b in data
      modifies this`desc, this`ops, this`status, this`infob, this`busy, this`avail, this`availIdx, this`queued,
               this`flight, this`holder
      ensures SentFrom(old(Now()), Now(), b, req, d0, d1, d2)
    {
      FormatChain(b, req, d0, d1, d2);
      Record(b, Flight(d1, d2, b, req, Queued, 0, data[b]), d0);
      Announce(d0);
    }

    /** The struct buf of the request (virtio_disk.c:255-257). */
    method Record(b: nat, ghost f: Flight, d0: nat)
      requires |infob| == NUM && d0 < NUM
      modifies this`infob, this`busy, this`flight, this`holder
      ensures busy == old(busy) + {b} && infob == old(infob)[d0 := Some(b)]
      ensures flight == old(flight)[d0 := f] && holder == old(holder)[d0 := d0][f.mid := d0][f.last := d0]
    {
      busy := busy + {b};
      infob := infob[d0 := Some(b)];
      flight := flight[d0 := f];
      holder := holder[d0 := d0][f.mid := d0][f.last := d0];
    }

    /** The avail ring (virtio_disk.c:260-265). */
    method Announce(d0: nat)
      requires |avail| == NUM
      modifies this`avail, this`availIdx, this`queued
      ensures avail == old(avail)[old(availIdx) % NUM := d0] && availIdx == (old(availIdx) + 1) % TWO16
      ensures queued == old(queued) + [d0]
    {
      avail := avail[availIdx % NUM := d0];
      availIdx := (availIdx + 1) % TWO16;
      queued := queued + [d0];
    }

    /** The three descriptors of a request (virtio_disk.c:226-253). */
    method FormatChain(b: nat, req: Req, d0: nat, d1: nat, d2: nat)
      requires |desc| == NUM && |ops| == NUM && |status| == NUM && d0 < NUM && d1 < NUM && d2 < NUM
      modifies this`desc, this`ops, this`status
      ensures ops == old(ops)[d0 := req] && status == old(status)[d0 := 0xff]
      ensures desc == Chained(old(desc), b, req, d0, d1, d2)
    {
      ops := ops[d0 := req];
      desc := desc[d0 := Desc(Header(d0), true, false, d1)];
      desc := desc[d1 := Desc(Data(b), true, !req.out, d2)];
      status := status[d0 := 0xff];
      desc := desc[d2 := Desc(Status(d0), false, true, 0)];
    }

    /** A request (virtio_disk.c:203-269): it goes out exactly when fewer than two are in
        flight; otherwise the caller sleeps and nothing has changed. */
    method StartRw(b: nat, req: Req) returns (ok: bool, h: nat)
      requires Inv(Now()) && b in data && req.sector in disk && forall g :: g in flight ==> flight[g].buf != b
      modifies this`free, this`desc, this`ops, this`status, this`infob, this`busy, this`avail, this`availIdx,
               this`queued, this`flight, this`holder
      ensures Inv(Now()) && (ok <==> |old(flight).Keys| < 2)
      ensures ok ==> h in flight && h < NUM && flight[h].mid < NUM && flight[h].last < NUM && InvSized(old(Now()))
      ensures ok ==> Now() == Submit(old(Now()), b, req, h, flight[h].mid, flight[h].last)
      ensures !ok ==> Now() == old(Now()).(desc := desc)
    {
      hide Inv, Submit, SameTaken, FreeSet, CanSubmit, SentFrom;
      ghost var s := Now();
      InvSizes(s);
      FreeCount(s);
      var idx;
      ok, idx := Alloc3();
      h := 0;
      if ok {
        h := idx[0];
        ghost var d1, d2 := idx[1], idx[2];
        FreeThree(s.free, h, d1, d2);
        Ready(s, b, req, h, d1, d2);
        SubmitInv(s, b, req, h, d1, d2);
        ghost var v := Now();
        assert v == s.(free := v.free);
        Publish(b, req, idx[0], idx[1], idx[2]);
        Published(s, v, Now(), b, req, h, d1, d2);
      } else {
        OnlyFreeDesc(s, Now());
      }
    }

    /** virtio_disk_intr (virtio_disk.c:282-315): releases the buffer of every request in
        the used ring, in order. */
    method Intr()
      requires Inv(Now())
      modifies this`busy, this`seenIdx, this`done, this`flight
      ensures Inv(Now()) && done == [] && seenIdx == usedIdx
      ensures flight.Keys == old(flight).Keys
      ensures forall h :: h in flight ==> flight[h] == if old(flight)[h].stage == Used
              then old(flight)[h].(stage := Seen) else old(flight)[h]
    {
      hide Inv;
      ghost var was := flight;
      while seenIdx != usedIdx
        invariant Inv(Now()) && SomeSeen(was, flight)
        decreases |done|
      {
        ghost var s := Now();
        NewsInRing(s);
        SeeInv(s);
        SeeOne();
        assert Now() == See(s);
        SeenOne(was, s, s.done[0]);
      }
      AllSeen(Now());
    }

    /** One turn of the loop (virtio_disk.c:302-311). */
    method SeeOne()
      requires |used| == NUM && |infob| == NUM && |status| == NUM && done != []
      requires var id := used[seenIdx % NUM]; id in flight && id < NUM && infob[id].Some? && status[id] == 0
      modifies this`busy, this`seenIdx, this`done, this`flight
      ensures busy == old(busy) - {infob[used[old(seenIdx) % NUM]].value} && seenIdx == (old(seenIdx) + 1) % TWO16
      ensures done == old(done)[1..] && flight == Moved(old(flight), used[old(seenIdx) % NUM], Seen)
    {
      var id := used[seenIdx % NUM];
      if status[id] != 0 { assert false; }
      busy := busy - {infob[id].value};
      seenIdx := (seenIdx + 1) % TWO16;
      done := done[1..];
      flight := Moved(flight, id, Seen);
    }

    /** The end of virtio_disk_rw (virtio_disk.c:272-280), once b->disk is 0. */
    method EndRw(h: nat)
      requires Inv(Now()) && h in flight && flight[h].buf !in busy
      modifies this`free, this`desc, this`infob, this`flight, this`holder
      ensures Inv(Now()) && flight == old(flight) - {h}
      ensures old(flight)[h].runs == 1 && old(flight)[h].buf in data && data[old(flight)[h].buf] == old(flight)[h].moved
    {
      hide Inv;
      ghost var s := Now();
      StepDefined(s, Return(h));
      FinishInv(s, h);
      ChainTaken(s, h);
      Release(h, flight[h]);
      assert Now() == Finish(s, h);
    }

    /** Clear the record and free the chain (virtio_disk.c:276-277). */
    method Release(h: nat, ghost f: Flight)
      requires |free| == NUM && |desc| == NUM && |ops| == NUM && |status| == NUM && |infob| == NUM
      requires h in flight && f == flight[h] && ChainOk(h, f) && Formatted(desc, ops, infob, h, f)
      requires !free[h] && !free[f.mid] && !free[f.last]
      modifies this`free, this`desc, this`infob, this`flight, this`holder
      ensures infob == old(infob)[h := None] && desc == old(desc)[h := CLEAR][f.mid := CLEAR][f.last := CLEAR]
      ensures free == old(free)[h := true][f.mid := true][f.last := true]
      ensures flight == old(flight) - {h} && holder == old(holder) - {h, f.mid, f.last}
    {
      infob := infob[h := None];
      FreeChain(h, f);
      flight := flight - {h};
      holder := holder - {h, f.mid, f.last};
    }
  }

  /** Some of the requests in the used ring have been seen. */
  ghost predicate SomeSeen(was: map<nat, Flight>, now: map<nat, Flight>) {
    && now.Keys == was.Keys
    && forall h :: h in now ==> now[h] == was[h] || (was[h].stage == Used && now[h] == was[h].(stage := Seen))
  }

  lemma SeenOne(was: map<nat, Flight>, s: State, h: nat)
    requires SomeSeen(was, s.flight) && h in s.flight && s.flight[h].stage == Used
    ensures SomeSeen(was, Moved(s.flight, h, Seen))
  {
  }

  /** Different descriptors that were free. */
  ghost predicate AllFrom(was: seq<bool>, idx: seq<nat>) {
    && |was| == NUM && (forall k :: 0 <= k < |idx| ==> idx[k] < NUM && was[idx[k]])
    && forall j, k :: 0 <= j < k < |idx| ==> idx[j] != idx[k]
  }

  /** Just the descriptors in idx were taken. */
  ghost predicate Marks(free: seq<bool>, was: seq<bool>, idx: seq<nat>) {
    |free| == NUM && |was| == NUM && forall d :: 0 <= d < NUM ==> free[d] == (was[d] && d !in idx)
  }

  /** Descriptors in use are as they were. */
  ghost predicate SameTaken(was: seq<bool>, desc: seq<Desc>, now: seq<Desc>) {
    |was| == NUM && |desc| == NUM && |now| == NUM && forall d :: 0 <= d < NUM && !was[d] ==> now[d] == desc[d]
  }

  lemma MarkNone(was: seq<bool>)
    requires |was| == NUM
    ensures Marks(was, was, []) && AllFrom(was, [])
  {
  }

  lemma MarkOne(free: seq<bool>, was: seq<bool>, idx: seq<nat>, i: nat)
    requires Marks(free, was, idx) && AllFrom(was, idx) && i < NUM && free[i]
    ensures Marks(free[i := false], was, idx + [i]) && AllFrom(was, idx + [i])
  {
  }

  lemma UnmarkOne(free: seq<bool>, was: seq<bool>, idx: seq<nat>, j: nat, desc: seq<Desc>, now: seq<Desc>)
    requires AllFrom(was, idx) && j < |idx| && Marks(free, was, idx[j..]) && SameTaken(was, desc, now)
    ensures idx[j] < NUM && !free[idx[j]] && Marks(free[idx[j] := true], was, idx[j + 1..])
    ensures SameTaken(was, desc, now[idx[j] := CLEAR])
  {
    assert idx[j..] == [idx[j]] + idx[j + 1..];
    assert idx[j] !in idx[j + 1..];
  }

  lemma MarkedAgain(free: seq<bool>, was: seq<bool>)
    requires Marks(free, was, [])
    ensures free == was
  {
  }

  lemma TakenSame(was: seq<bool>, desc: seq<Desc>)
    requires |was| == NUM && |desc| == NUM
    ensures SameTaken(was, desc, desc)
  {
  }

  lemma MarkedThree(free: seq<bool>, was: seq<bool>, idx: seq<nat>)
    requires Marks(free, was, idx) && AllFrom(was, idx) && |idx| == 3
    ensures |was| == NUM && forall k :: 0 <= k < 3 ==> idx[k] < NUM && was[idx[k]]
    ensures idx[0] != idx[1] && idx[0] != idx[2] && idx[1] != idx[2]
    ensures free == was[idx[0] := false][idx[1] := false][idx[2] := false]
  {
  }

  /** No more were free than alloc3_desc got before it failed. */
  lemma FewFree(free: seq<bool>, was: seq<bool>, idx: seq<nat>)
    requires AllFrom(was, idx) && |idx| <= 2 && Marks(free, was, idx) && forall d :: 0 <= d < NUM ==> !free[d]
    ensures |was| == NUM && |FreeSet(was)| <= 2
  {
    SubsetSize(FreeSet(was), ToSet(idx));
    DistinctCard(idx);
  }

  /** Eight descriptors: three for each request in flight, and the free ones. */
  lemma FreeCount(s: State)
    requires Inv(s)
    ensures |s.free| == NUM && |FreeSet(s.free)| + 3 * |s.flight.Keys| == NUM
  {
    hide FlightsOk, QueuesOk;
    var f, d := FreeSet(s.free), DescOf(s.holder, s.flight.Keys);
    ThreeEach(s.free, s.flight, s.holder, s.flight.Keys);
    forall x: nat ensures x in d <==> x < NUM && !s.free[x] {
    }
    Complement(f, d);
  }

  lemma Complement(f: set<nat>, d: set<nat>)
    requires f !! d && forall x: nat :: x in f || x in d <==> x < NUM
    ensures |f| + |d| == NUM
  {
    EightIn(f + d);
    assert |f + d| == |f| + |d|;
  }

  lemma EightIn(s: set<nat>)
    requires forall x: nat :: x in s <==> x < NUM
    ensures |s| == NUM
  {
    assert s == {0, 1, 2, 3, 4, 5, 6, 7};
  }

  lemma FreeThree(free: seq<bool>, a: nat, b: nat, c: nat)
    requires |free| == NUM && a < NUM && b < NUM && c < NUM && a != b && a != c && b != c && free[a] && free[b]
             && free[c]
    ensures |FreeSet(free)| >= 3
  {
    SubsetSize({a, b, c}, FreeSet(free));
  }

  ghost predicate InvSized(s: State) {
    Sizes(s) && |s.free| == NUM && |s.avail| == NUM && |s.used| == NUM
  }

  lemma Ready(s: State, b: nat, req: Req, d0: nat, d1: nat, d2: nat)
    requires Inv(s) && |s.free| == NUM && d0 < NUM && d1 < NUM && d2 < NUM && d0 != d1 && d0 != d2 && d1 != d2
    requires s.free[d0] && s.free[d1] && s.free[d2] && b in s.data && req.sector in s.disk
    requires forall g :: g in s.flight ==> s.flight[g].buf != b
    ensures CanSubmit(s, b, req, d0, d1, d2)
  {
    hide Inv;
  }

  /** t is s with the request formatted, recorded and announced. */
  ghost predicate SentFrom(s: State, t: State, b: nat, req: Req, d0: nat, d1: nat, d2: nat) {
    && Sizes(s) && |s.avail| == NUM && d0 < NUM && d1 < NUM && d2 < NUM && b in s.data
    && t.ops == s.ops[d0 := req] && t.status == s.status[d0 := 0xff] && t.infob == s.infob[d0 := Some(b)]
    && t.desc == Chained(s.desc, b, req, d0, d1, d2)
    && t.busy == s.busy + {b} && t.avail == s.avail[s.availIdx % NUM := d0] && t.availIdx == (s.availIdx + 1) % TWO16
    && t.queued == s.queued + [d0] && t.flight == s.flight[d0 := Flight(d1, d2, b, req, Queued, 0, s.data[b])]
    && t.holder == s.holder[d0 := d0][d1 := d0][d2 := d0] && t.free == s.free
    && t.used == s.used && t.usedIdx == s.usedIdx && t.seenIdx == s.seenIdx && t.data == s.data && t.disk == s.disk
    && t.devIdx == s.devIdx && t.done == s.done
  }

  /** After alloc3_desc that is the whole step. */
  lemma Published(s: State, v: State, t: State, b: nat, req: Req, d0: nat, d1: nat, d2: nat)
    requires InvSized(s) && d0 < NUM && d1 < NUM && d2 < NUM && b in s.data && SentFrom(v, t, b, req, d0, d1, d2)
    requires v == s.(free := s.free[d0 := false][d1 := false][d2 := false])
    ensures t == Submit(s, b, req, d0, d1, d2) && d0 in t.flight && t.flight[d0].mid == d1 && t.flight[d0].last == d2
  {
  }

  /** Only descriptors that are free were cleared. */
  lemma OnlyFreeDesc(s: State, t: State)
    requires Inv(s) && |t.desc| == NUM && t == s.(desc := t.desc)
    requires SameTaken(s.free, s.desc, t.desc)
    ensures Inv(t)
  {
    assert forall h :: h in s.flight ==> HeldBy(s.holder, h, s.flight[h]);
    hide QueuesOk;
    forall h | h in t.flight ensures FlightOk(t, h, t.flight[h]) {
      assert FlightOk(s, h, s.flight[h]) && HeldBy(s.holder, h, s.flight[h]);
    }
    assert QueuesOk(t) by { SameQueues(s, t); }
  }

  lemma SameQueues(s: State, t: State)
    requires QueuesOk(s) && t == s.(desc := t.desc)
    ensures QueuesOk(t)
  {
  }

  lemma NewsInRing(s: State)
    requires Inv(s) && s.seenIdx != s.usedIdx
    ensures s.done != [] && Sizes(s) && |s.used| == NUM && s.done[0] in s.flight && s.flight[s.done[0]].stage == Used
  {
    RingEmpty(s.used, s.seenIdx, s.usedIdx, s.done);
    assert s.done[0] in s.done;
    SeeInv(s);
  }

  lemma AllSeen(s: State)
    requires Inv(s) && s.seenIdx == s.usedIdx
    ensures s.done == [] && forall h :: h in s.flight ==> s.flight[h].stage != Used
  {
    RingEmpty(s.used, s.seenIdx, s.usedIdx, s.done);
  }

  lemma ChainTaken(s: State, h: nat)
    requires Inv(s) && h in s.flight
    ensures var f := s.flight[h];
            && FlightOk(s, h, f) && |s.free| == NUM && !s.free[h] && !s.free[f.mid] && !s.free[f.last]
  {
    FlightAt(s, h);
    assert HeldBy(s.holder, h, s.flight[h]);
  }
}

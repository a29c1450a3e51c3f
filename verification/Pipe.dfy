/** Pipes (pipe.c). A step is one critical section, from taking the pipe's lock to
    releasing it by returning or going to sleep; the value-level machine comes first,
    then the ring that refines it. */
module Pipe {
  import opened Basics

  const PIPESIZE: nat := 512

  /** A pipe without its ring: all bytes ever enqueued and dequeued, the open ends, and
      who is asleep on nwrite and on nread. */
  datatype State = State(sent: seq<Byte>, got: seq<Byte>, readopen: bool, writeopen: bool,
                         writers: set<nat>, readers: set<nat>)

  predicate Fifo(p: State) {
    p.got <= p.sent && |p.sent| - |p.got| <= PIPESIZE
  }

  predicate Full(p: State) {
    |p.sent| == |p.got| + PIPESIZE
  }

  predicate Empty(p: State) {
    |p.sent| == |p.got|
  }

  /** No writer sleeps without cause. */
  predicate WritersOk(p: State) {
    p.writers != {} ==> Full(p) && p.readopen
  }

  /** No reader sleeps without cause. */
  predicate ReadersOk(p: State) {
    p.readers != {} ==> Empty(p) && p.writeopen
  }

  // ------------------------------------------------------------ sections

  /** A section of pipewrite by pid with n bytes to go, the first |data| of which copyin
      can fetch; the process sees itself killed from turn `kill` of the loop on. */
  datatype Event =
    | Write(pid: nat, n: nat, data: seq<Byte>, kill: Option<nat>)
    | Read(pid: nat, n: nat, room: Option<nat>, killed: bool)
    | CloseWrite
    | CloseRead
    | Kill(pid: nat)

  predicate CanHappen(p: State, e: Event) {
    match e
    case Write(pid, n, data, _) => |data| <= n && p.writeopen && pid !in p.writers && pid !in p.readers
    case Read(pid, _, _, _) => p.readopen && pid !in p.writers && pid !in p.readers
    case CloseWrite => p.writeopen
    case CloseRead => p.readopen
    case Kill(_) => true
  }

  function Least(a: nat, b: nat): nat {
    if a < b then a else b
  }

  /** The bytes in the pipe, and the room left. */
  function Waiting(p: State): nat {
    if |p.got| <= |p.sent| then |p.sent| - |p.got| else 0
  }

  function Room(p: State): nat {
    if Waiting(p) <= PIPESIZE then PIPESIZE - Waiting(p) else 0
  }

  /** How many bytes a write section enqueues. */
  function Accepts(p: State, data: seq<Byte>, kill: Option<nat>): (k: nat)
    ensures k <= |data|
  {
    if !p.readopen then 0
    else Least(Least(|data|, Room(p)), if kill.None? then |data| else kill.value)
  }

  predicate Killed(kill: Option<nat>, turn: nat) {
    kill.Some? && turn >= kill.value
  }

  function WriteStep(p: State, pid: nat, n: nat, data: seq<Byte>, kill: Option<nat>): State
  {
    var k := Accepts(p, data, kill);
    var q := p.(sent := p.sent + data[..k]);
    if k == n then q.(readers := {})
    else if !p.readopen || Killed(kill, k) then q
    else if Full(q) then q.(readers := {}, writers := q.writers + {pid})
    else q.(readers := {})
  }

  /** How many bytes a read section dequeues; the last one is lost if copyout fails. */
  function Takes(p: State, n: nat, room: Option<nat>): (k: nat)
    ensures k <= Waiting(p)
  {
    Least(Least(n, Waiting(p)), if room.None? then n else room.value + 1)
  }

  function ReadStep(p: State, pid: nat, n: nat, room: Option<nat>, killed: bool): State {
    if Empty(p) && p.writeopen then
      if killed then p else p.(readers := p.readers + {pid})
    else
      var k := Takes(p, n, room);
      p.(got := if k == 0 then p.got else p.sent[..|p.got| + k], writers := {})
  }

  function Step(p: State, e: Event): State {
    match e
    case Write(pid, n, data, kill) => WriteStep(p, pid, n, data, kill)
    case Read(pid, n, room, killed) => ReadStep(p, pid, n, room, killed)
    case CloseWrite => p.(writeopen := false, readers := {})
    case CloseRead => p.(readopen := false, writers := {})
    case Kill(pid) => p.(writers := p.writers - {pid}, readers := p.readers - {pid})
  }

  /** A write section that has enqueued i bytes: how each way to stop completes the step,
      and when it goes on. */
  lemma WriteTurn(p: State, pid: nat, n: nat, data: seq<Byte>, kill: Option<nat>, i: nat)
    requires Fifo(p) && |data| <= n && i <= |data| && i <= Accepts(p, data, kill)
    ensures var q, t := p.(sent := p.sent + data[..i]), Step(p, Write(pid, n, data, kill));
            var stop := !p.readopen || Killed(kill, i);
            && (i < n && stop ==> t == q)
            && (i < n && !stop && Full(q) ==> t == q.(readers := {}, writers := q.writers + {pid}))
            && (i < n && !stop && !Full(q) && i < |data| ==> i + 1 <= Accepts(p, data, kill))
            && (i == n || (!stop && !Full(q) && i == |data|) ==> t == q.(readers := {}))
    ensures Killed(kill, i) <==> kill.Some? && i >= kill.value
  {
  }

  lemma TakenPrefix(p: State, bytes: seq<Byte>)
    requires Fifo(p) && p.got + bytes <= p.sent
    ensures p.got + bytes == p.sent[..|p.got| + |bytes|]
  {
  }

  /** The write was cut short by a kill after it had enqueued something. */
  predicate CutShort(p: State, e: Event) {
    && e.Write? && Accepts(p, e.data, e.kill) > 0 && Accepts(p, e.data, e.kill) < e.n
    && Killed(e.kill, Accepts(p, e.data, e.kill))
  }

  /** A write cut short by a kill while a reader sleeps. */
  predicate Strands(p: State, e: Event) {
    CutShort(p, e) && p.readers != {}
  }

  /** Bytes stay in order and within the ring, and writers sleep with cause, whatever
      happens. Readers do exactly unless a write was cut short while one slept. */
  lemma StepKeeps(p: State, e: Event)
    requires Fifo(p) && WritersOk(p) && ReadersOk(p) && CanHappen(p, e)
    ensures Fifo(Step(p, e)) && WritersOk(Step(p, e)) && p.sent <= Step(p, e).sent && p.got <= Step(p, e).got
    ensures ReadersOk(Step(p, e)) <==> !Strands(p, e)
  {
  }

  lemma StepFifo(p: State, e: Event)
    requires Fifo(p) && WritersOk(p) && CanHappen(p, e)
    ensures Fifo(Step(p, e)) && WritersOk(Step(p, e)) && p.sent <= Step(p, e).sent && p.got <= Step(p, e).got
  {
  }

  // ------------------------------------------------------------ runs

  const START: State := State([], [], true, true, {}, {})

  lemma StartOk()
    ensures ReadersOk(START)
  {
  }

  ghost predicate Trace(t: seq<State>, events: seq<Event>) {
    && |t| == |events| + 1 && t[0] == START
    && forall i :: 0 <= i < |events| ==> CanHappen(t[i], events[i]) && t[i + 1] == Step(t[i], events[i])
  }

  /** In every run: what was read is what was written, in order, at most 512 bytes are
      outstanding, and a writer asleep means full with the read end open. */
  lemma {:induction false} AllRuns(t: seq<State>, events: seq<Event>, n: nat)
    requires Trace(t, events) && n < |t|
    ensures Fifo(t[n]) && WritersOk(t[n])
  {
    if n > 0 {
      AllRuns(t, events, n - 1);
      StepFifo(t[n - 1], events[n - 1]);
    }
  }

  /** In every run: up to any point, a reader asleep has always meant empty with the write
      end open, exactly if no write was cut short by a kill while a reader slept. */
  lemma {:induction false} NoLostReader(t: seq<State>, events: seq<Event>, n: nat)
    requires Trace(t, events) && n < |t|
    ensures (forall i :: 0 <= i <= n ==> ReadersOk(t[i])) <==> (forall i :: 0 <= i < n ==> !Strands(t[i], events[i]))
  {
    hide Step, CanHappen, Strands, ReadersOk;
    if n == 0 {
      assert ReadersOk(t[0]) by { StartOk(); }
    } else {
      var m := n - 1;
      NoLostReader(t, events, m);
      AllRuns(t, events, m);
      if ReadersOk(t[m]) {
        StepKeeps(t[m], events[m]);
        assert t[m + 1] == Step(t[m], events[m]);
        assert ReadersOk(t[n]) <==> !Strands(t[m], events[m]);
      }
    }
  }

  /** A kill during a write can leave a reader asleep on a pipe that is not empty. */
  lemma LostReader() returns (t: seq<State>, events: seq<Event>)
    ensures Trace(t, events) && !ReadersOk(t[|t| - 1])
  {
    var a := Read(1, 1, None, false);
    var b := Write(2, 2, [7, 8], Some(1));
    var s1 := Step(START, a);
    var s2 := Step(s1, b);
    assert [7, 8][..1] == [7];
    assert s2.sent == [7] && s2.readers == {1};
    t, events := [START, s1, s2], [a, b];
  }

  // ------------------------------------------------------------ the ring

  /** Of the bytes taken, those that reach the reader: a copyout that fails loses the last. */
  function Delivered(taken: seq<Byte>, room: Option<nat>): seq<Byte> {
    if room.Some? && |taken| == room.value + 1 then taken[..room.value] else taken
  }

  datatype WriteResult = Wrote(count: nat) | WriteFailed | WriteSlept
  datatype ReadResult = ReadBytes(data: seq<Byte>) | ReadFailed | ReadSlept

  class Ring {
    var data: array<Byte>
    var nread: nat
    var nwrite: nat
    var readopen: bool
    var writeopen: bool
    /** All bytes so far, and the processes asleep on &nwrite and &nread. */
    ghost var sent: seq<Byte>
    ghost var got: seq<Byte>
    ghost var writers: set<nat>
    ghost var readers: set<nat>

    ghost function View(): State
      reads this
    {
      State(sent, got, readopen, writeopen, writers, readers)
    }

    /** The ring holds the outstanding bytes; both counters wrap at 32 bits. */
    ghost predicate Valid()
      reads this, data
    {
      && data.Length == PIPESIZE && Fifo(View())
      && nwrite == |sent| % TWO32 && nread == |got| % TWO32
      && forall i :: |got| <= i < |sent| ==> data[i % PIPESIZE] == sent[i]
    }

    /** pipealloc (pipe.c:32-36). */
    constructor ()
      ensures Valid() && View() == START && fresh(data)
    {
      data := new Byte[PIPESIZE];
      nread, nwrite, readopen, writeopen := 0, 0, true, true;
      sent, got, writers, readers := [], [], {}, {};
    }

    /** nwrite == nread + PIPESIZE in 32 bits. */
    method IsFull() returns (r: bool)
      requires Valid()
      ensures r <==> Full(View())
    {
      r := nwrite == (nread + PIPESIZE) % TWO32;
      FullWraps(|sent|, |got|);
    }

    /** data[nwrite++ % PIPESIZE] = ch */
    method Enqueue(ch: Byte)
      requires Valid() && !Full(View())
      modifies this`nwrite, this`sent, data
      ensures Valid() && sent == old(sent) + [ch]
    {
      IndexWraps(|sent|);
      NextSlot(|got|, |sent|);
      data[nwrite % PIPESIZE] := ch;
      nwrite := (nwrite + 1) % TWO32;
      sent := sent + [ch];
    }

    /** ch = data[nread++ % PIPESIZE] */
    method Dequeue() returns (ch: Byte)
      requires Valid() && !Empty(View())
      modifies this`nread, this`got
      ensures Valid() && ch == sent[|old(got)|] && got == old(got) + [ch]
    {
      IndexWraps(|got|);
      ch := data[nread % PIPESIZE];
      nread := (nread + 1) % TWO32;
      got := got + [ch];
    }

    /** A section of pipewrite (pipe.c:76-103); `bytes` are those copyin can fetch of the n
        still to be written. */
    method WriteSection(pid: nat, n: nat, bytes: seq<Byte>, kill: Option<nat>) returns (r: WriteResult)
      requires Valid() && CanHappen(View(), Write(pid, n, bytes, kill))
      modifies this`nwrite, this`sent, this`writers, this`readers, data
      ensures Valid() && View() == Step(old(View()), Write(pid, n, bytes, kill))
      ensures |old(sent)| <= |sent| <= |old(sent)| + |bytes| && sent == old(sent) + bytes[..|sent| - |old(sent)|]
      ensures r.Wrote? ==> r.count == |sent| - |old(sent)| && (r.count == n || r.count == |bytes|)
      ensures r.Wrote? ==> readers == {} && writers == old(writers)
      ensures r.WriteSlept? ==> Full(View()) && readopen && readers == {} && writers == old(writers) + {pid}
      ensures r.WriteFailed? ==> readers == old(readers) && writers == old(writers)
      ensures r.WriteSlept? <==> pid in writers
      ensures r.WriteFailed? <==> |sent| < |old(sent)| + n && (!readopen || Killed(kill, |sent| - |old(sent)|))
    {
      hide Step, Accepts, Killed;
      ghost var p := View();
      var i := 0;
      while i < n
        invariant i <= n && i <= |bytes| && Valid() && sent == p.sent + bytes[..i]
        invariant got == p.got && readopen == p.readopen && writeopen == p.writeopen
        invariant writers == p.writers && readers == p.readers
        invariant i <= Accepts(p, bytes, kill)
      {
        WriteTurn(p, pid, n, bytes, kill, i);
        if !readopen || (kill.Some? && i >= kill.value) {
          return WriteFailed;
        }
        var full := IsFull();
        if full {
          readers := {};
          writers := writers + {pid};
          return WriteSlept;
        }
        if i == |bytes| { break; }
        Enqueue(bytes[i]);
        i := i + 1;
        assert bytes[..i] == bytes[..i - 1] + [bytes[i - 1]];
      }
      WriteTurn(p, pid, n, bytes, kill, i);
      readers := {};
      r := Wrote(i);
    }

    /** A section of piperead (pipe.c:105-130); copyout fails at byte `room`, if any. */
    method ReadSection(pid: nat, n: nat, room: Option<nat>, killed: bool) returns (r: ReadResult)
      requires Valid() && CanHappen(View(), Read(pid, n, room, killed))
      modifies this`nread, this`got, this`writers, this`readers
      ensures Valid() && View() == Step(old(View()), Read(pid, n, room, killed))
      ensures old(got) <= got <= sent
      ensures r.ReadBytes? ==> r.data == Delivered(got[|old(got)|..], room) && writers == {} && readers == old(readers)
      ensures r.ReadBytes? ==> |r.data| <= n && (|r.data| == n || room == Some(|r.data|) || Empty(View()))
      ensures r.ReadSlept? <==> pid in readers
      ensures r.ReadSlept? <==> old(Empty(View())) && writeopen && !killed
      ensures r.ReadFailed? <==> old(Empty(View())) && writeopen && killed
      ensures !r.ReadBytes? ==> got == old(got) && writers == old(writers)
      ensures !r.ReadBytes? ==> readers == old(readers) + if killed then {} else {pid}
    {
      var empty := IsEmpty();
      if empty && writeopen {
        if killed { return ReadFailed; }
        readers := readers + {pid};
        return ReadSlept;
      }
      var bytes := TakeBytes(n, room);
      writers := {};
      r := ReadBytes(bytes);
    }

    method IsEmpty() returns (r: bool)
      requires Valid()
      ensures r <==> Empty(View())
    {
      r := nread == nwrite;
      SameWraps(|sent|, |got|);
    }

    /** The copy loop of piperead (pipe.c:120-126). */
    method TakeBytes(n: nat, room: Option<nat>) returns (bytes: seq<Byte>)
      requires Valid()
      modifies this`nread, this`got
      ensures Valid() && got == sent[..|old(got)| + Takes(old(View()), n, room)]
      ensures bytes == Delivered(got[|old(got)|..], room)
      ensures |bytes| <= n && (|bytes| == n || room == Some(|bytes|) || Empty(View()))
    {
      ghost var p := View();
      bytes := [];
      while |bytes| < n
        invariant |bytes| <= n && Valid() && got == p.got + bytes
        invariant |bytes| <= Takes(p, n, room) && (room.Some? ==> |bytes| <= room.value)
      {
        var empty := IsEmpty();
        if empty { break; }
        var ch := Dequeue();
        if room == Some(|bytes|) {
          TakenPrefix(p, bytes + [ch]);
          assert got == p.got + (bytes + [ch]);
          assert got[|p.got|..] == bytes + [ch];
          return;
        }
        bytes := bytes + [ch];
      }
      TakenPrefix(p, bytes);
    }

    /** pipeclose (pipe.c:58-74); the pipe is freed with its second end. */
    method Close(writable: bool) returns (freed: bool)
      requires Valid() && CanHappen(View(), if writable then CloseWrite else CloseRead)
      modifies this`readopen, this`writeopen, this`writers, this`readers
      ensures Valid() && View() == Step(old(View()), if writable then CloseWrite else CloseRead)
      ensures if writable then !writeopen && readopen == old(readopen) && readers == {} && writers == old(writers)
              else !readopen && writeopen == old(writeopen) && writers == {} && readers == old(readers)
      ensures freed <==> !writeopen && !readopen
    {
      if writable {
        writeopen := false;
        readers := {};
      } else {
        readopen := false;
        writers := {};
      }
      freed := !readopen && !writeopen;
    }
  }

  // ------------------------------------------------------------ wrapping counters

  lemma IndexWraps(n: nat)
    ensures n % TWO32 % PIPESIZE == n % PIPESIZE && (n % TWO32 + 1) % TWO32 == (n + 1) % TWO32
  {
    var q, r := n / TWO32, n % TWO32;
    assert n == TWO32 * q + r;
    SlotMod(0x80_0000 * q, r);
    CounterNext(q, r);
  }

  lemma SlotMod(x: nat, r: nat)
    ensures (512 * x + r) % 512 == r % 512
  {
    assert 512 * x + r == 512 * (x + r / 512) + r % 512;
  }

  lemma CounterNext(q: nat, r: nat)
    requires r < TWO32
    ensures (TWO32 * q + r + 1) % TWO32 == (r + 1) % TWO32
  {
    if r + 1 == TWO32 { assert TWO32 * q + r + 1 == TWO32 * (q + 1); }
  }

  lemma SameWraps(a: nat, b: nat)
    requires b <= a <= b + PIPESIZE
    ensures a % TWO32 == b % TWO32 <==> a == b
  {
  }

  lemma FullWraps(a: nat, b: nat)
    requires b <= a <= b + PIPESIZE
    ensures a % TWO32 == (b % TWO32 + PIPESIZE) % TWO32 <==> a == b + PIPESIZE
  {
    AddWraps(b);
    SameWraps(b + PIPESIZE, a);
  }

  lemma AddWraps(b: nat)
    ensures (b % TWO32 + PIPESIZE) % TWO32 == (b + PIPESIZE) % TWO32
  {
  }

  /** The next slot is none of the outstanding ones. */
  lemma NextSlot(lo: nat, hi: nat)
    requires lo <= hi < lo + PIPESIZE
    ensures forall i :: lo <= i < hi ==> i % PIPESIZE != hi % PIPESIZE
  {
  }
}

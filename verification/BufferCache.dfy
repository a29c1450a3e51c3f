/** The buffer cache of bio.c: NBUF buffers on a circular doubly linked list,
    most recently released first, with reference counts and sleep locks.

    The links are buffer indices; index HEAD is the list head `bcache.head`.
    `view` is the plain block map that the cache speeds up. */
module BufferCache {
  import opened Basics
  import opened LogFormat

  const NBUF: nat := 30
  const HEAD: nat := NBUF
  const ROOTDEV: nat := 1

  datatype Buf = Buf(dev: nat, blockno: nat, valid: bool, refcnt: nat, locked: bool,
                     data: Block, prev: nat, next: nat)

  // ------------------------------------------------------------ the list

  /** Position 0 and position |order|+1 of the ring are the head. */
  function At(order: seq<nat>, k: nat): nat
    requires k <= |order| + 1
  {
    if k == 0 || k == |order| + 1 then HEAD else order[k - 1]
  }

  ghost predicate Linked(buf: seq<Buf>, order: seq<nat>, k: nat)
    requires |buf| == NBUF + 1 && k <= |order|
    requires forall i :: 0 <= i < |order| ==> order[i] < NBUF
  {
    buf[At(order, k)].next == At(order, k + 1) && buf[At(order, k + 1)].prev == At(order, k)
  }

  /** `order` lists distinct buffers and both link directions spell it out. */
  ghost predicate Ring(buf: seq<Buf>, order: seq<nat>) {
    && |buf| == NBUF + 1
    && (forall i :: 0 <= i < |order| ==> order[i] < NBUF)
    && (forall i, j :: 0 <= i < j < |order| ==> order[i] != order[j])
    && (forall k :: 0 <= k <= |order| ==> Linked(buf, order, k))
  }

  function MoveToFront(order: seq<nat>, p: nat): (r: seq<nat>)
    requires p < |order|
    ensures multiset(r) == multiset(order) && |r| == |order|
  {
    assert order == order[..p] + [order[p]] + order[p + 1..];
    [order[p]] + order[..p] + order[p + 1..]
  }

  /** The link changes of brelse (bio.c:128-133): unlink b, then push it in front. */
  function Unlink(buf: seq<Buf>, b: nat): (r: seq<Buf>)
    requires |buf| == NBUF + 1 && b < NBUF && buf[b].next <= HEAD && buf[b].prev <= HEAD
    ensures |r| == |buf|
  {
    var s := buf[buf[b].next := buf[buf[b].next].(prev := buf[b].prev)];
    s[s[b].prev := s[s[b].prev].(next := s[b].next)]
  }

  function PushFront(buf: seq<Buf>, b: nat): (r: seq<Buf>)
    requires |buf| == NBUF + 1 && b < NBUF && buf[HEAD].next <= HEAD
    ensures |r| == |buf|
  {
    var s := buf[b := buf[b].(next := buf[HEAD].next, prev := HEAD)];
    var t := s[s[HEAD].next := s[s[HEAD].next].(prev := b)];
    t[HEAD := t[HEAD].(next := b)]
  }

  lemma UnlinkRing(buf: seq<Buf>, order: seq<nat>, p: nat)
    requires Ring(buf, order) && p < |order|
    requires buf[order[p]].next <= HEAD && buf[order[p]].prev <= HEAD
    ensures Ring(Unlink(buf, order[p]), order[..p] + order[p + 1..])
    ensures order[p] !in order[..p] + order[p + 1..]
  {
    var o := order[..p] + order[p + 1..];
    forall k | 0 <= k <= |o| ensures Linked(Unlink(buf, order[p]), o, k) {
      UnlinkLinked(buf, order, p, k);
    }
  }

  lemma UnlinkLinked(buf: seq<Buf>, order: seq<nat>, p: nat, k: nat)
    requires Ring(buf, order) && p < |order| && k < |order|
    requires buf[order[p]].next <= HEAD && buf[order[p]].prev <= HEAD
    ensures var o := order[..p] + order[p + 1..];
            (forall i :: 0 <= i < |o| ==> o[i] < NBUF) && Linked(Unlink(buf, order[p]), o, k)
  {
    var b := order[p];
    assert Linked(buf, order, p) && Linked(buf, order, p + 1);
    assert buf[b].prev == At(order, p) && buf[b].next == At(order, p + 2);
    if k < p {
      assert Linked(buf, order, k);
    } else if k > p {
      assert Linked(buf, order, k + 1);
    }
  }

  lemma PushRing(buf: seq<Buf>, order: seq<nat>, b: nat)
    requires Ring(buf, order) && b < NBUF && b !in order && buf[HEAD].next <= HEAD
    ensures Ring(PushFront(buf, b), [b] + order)
  {
    var r := PushFront(buf, b);
    var o := [b] + order;
    assert Linked(buf, order, 0);
    forall k | 0 <= k <= |o| ensures Linked(r, o, k) {
      if k >= 1 { assert Linked(buf, order, k - 1); }
    }
  }

  /** Only the links differ. */
  ghost predicate SameExceptLinks(a: seq<Buf>, b: seq<Buf>) {
    && |a| == |b|
    && forall i :: 0 <= i < |a| ==> a[i].(prev := 0, next := 0) == b[i].(prev := 0, next := 0)
  }

  // ------------------------------------------------------------ the contents

  /** `where` says which buffer holds a block of the root device; it is a
      bijection, so at most one buffer holds a block. */
  ghost predicate Index(buf: seq<Buf>, where: map<nat, nat>) {
    && |buf| == NBUF + 1
    && (forall b :: b in where ==> where[b] < NBUF && buf[where[b]].dev == ROOTDEV && buf[where[b]].blockno == b)
    && (forall i :: 0 <= i < NBUF && buf[i].dev == ROOTDEV ==>
          buf[i].blockno in where && where[buf[i].blockno] == i)
  }

  /** References are holders and waiters (refs, per buffer) plus pins (per block);
      a locked buffer is referenced, and a buffer of no block is unused. */
  ghost predicate Counts(buf: seq<Buf>, refs: seq<nat>, pins: seq<nat>) {
    && |buf| == NBUF + 1 && |refs| == NBUF
    && forall i :: 0 <= i < NBUF ==>
         if buf[i].dev == ROOTDEV then
           && buf[i].blockno < |pins|
           && buf[i].refcnt == refs[i] + pins[buf[i].blockno]
           && (buf[i].locked ==> refs[i] > 0)
         else buf[i].refcnt == refs[i] == 0 && !buf[i].valid && !buf[i].locked
  }

  /** A cached block shows the view and everything else shows the disk; only
      cached blocks are locked or pinned; a block that differs from the disk is
      locked or pinned. */
  ghost predicate Contents(buf: seq<Buf>, where: map<nat, nat>, locks: set<nat>, pins: seq<nat>, disk: Disk,
                           view: Disk) {
    && |buf| == NBUF + 1 && |pins| == |view| == |disk|
    && (forall b :: b in where ==> b < |disk|)
    && (forall b :: b in locks ==> b in where)
    && (forall b :: 0 <= b < |disk| && b !in where ==> view[b] == disk[b] && pins[b] == 0)
    && (forall b :: 0 <= b < |disk| && view[b] != disk[b] ==> b in locks || pins[b] > 0)
    && (forall i :: 0 <= i < NBUF && buf[i].dev == ROOTDEV ==>
          && buf[i].blockno < |disk|
          && (buf[i].locked <==> buf[i].blockno in locks)
          && (buf[i].valid ==> buf[i].data == view[buf[i].blockno])
          && (!buf[i].valid ==> view[buf[i].blockno] == disk[buf[i].blockno]))
  }

  /** Hand buffer b to another block (bio.c:79-82). */
  function Recycled(buf: seq<Buf>, b: nat, dev: nat, blockno: nat): seq<Buf>
    requires b < |buf|
  {
    buf[b := buf[b].(dev := dev, blockno := blockno, valid := false, refcnt := 1)]
  }

  ghost function Reindexed(buf: seq<Buf>, where: map<nat, nat>, b: nat, blockno: nat): map<nat, nat>
    requires b < |buf|
  {
    (if buf[b].dev == ROOTDEV then where - {buf[b].blockno} else where)[blockno := b]
  }

  lemma RecycleIndex(buf: seq<Buf>, where: map<nat, nat>, b: nat, blockno: nat)
    requires Index(buf, where) && b < NBUF && blockno !in where
    ensures Index(Recycled(buf, b, ROOTDEV, blockno), Reindexed(buf, where, b, blockno))
  {
  }

  lemma RecycleContents(buf: seq<Buf>, where: map<nat, nat>, refs: seq<nat>, pins: seq<nat>,
                        locks: set<nat>, disk: Disk, view: Disk, b: nat, blockno: nat)
    requires Index(buf, where) && Counts(buf, refs, pins) && Contents(buf, where, locks, pins, disk, view)
    requires b < NBUF && blockno < |disk| && blockno !in where && buf[b].refcnt == 0
    ensures Counts(Recycled(buf, b, ROOTDEV, blockno), refs[b := refs[b] + 1], pins)
    ensures Contents(Recycled(buf, b, ROOTDEV, blockno), Reindexed(buf, where, b, blockno), locks, pins, disk, view)
  {
    assert refs[b] == 0 && !buf[b].locked;
    assert buf[b].dev == ROOTDEV ==> pins[buf[b].blockno] == 0;
  }

  lemma RingLinks(a: seq<Buf>, b: seq<Buf>, order: seq<nat>)
    requires Ring(a, order) && |b| == |a|
    requires forall i :: 0 <= i < |a| ==> a[i].next == b[i].next && a[i].prev == b[i].prev
    ensures Ring(b, order)
  {
    forall k | 0 <= k <= |order| ensures Linked(b, order, k) { assert Linked(a, order, k); }
  }

  ghost predicate Holds(x: Buf, dev: nat, blockno: nat) {
    x.dev == dev && x.blockno == blockno
  }

  /** The forward scan of bget (bio.c:66-73), from the most recently used buffer. */
  method Lookup(buf: seq<Buf>, dev: nat, blockno: nat, ghost order: seq<nat>) returns (b: nat)
    requires Ring(buf, order) && |order| == NBUF
    ensures b <= HEAD
    ensures b < HEAD ==> b in order && Holds(buf[b], dev, blockno)
    ensures b == HEAD ==> forall i :: i in order ==> !Holds(buf[i], dev, blockno)
  {
    b := buf[HEAD].next;
    ghost var k := 0;
    assert Linked(buf, order, 0);
    while b != HEAD
      invariant 0 <= k <= NBUF && b == At(order, k + 1)
      invariant forall i :: 0 <= i < k ==> !Holds(buf[order[i]], dev, blockno)
      decreases NBUF - k
    {
      if buf[b].dev == dev && buf[b].blockno == blockno {
        return;
      }
      assert Linked(buf, order, k + 1);
      b := buf[b].next;
      k := k + 1;
    }
  }

  /** The backward scan of bget (bio.c:77-87), from the least recently used buffer. */
  method LeastRecentlyUsed(buf: seq<Buf>, ghost order: seq<nat>) returns (b: nat, ghost p: nat)
    requires Ring(buf, order) && |order| == NBUF
    ensures b <= HEAD && p <= NBUF
    ensures b < HEAD ==> p < NBUF && order[p] == b && buf[b].refcnt == 0
    ensures b < HEAD ==> forall k :: p < k < NBUF ==> buf[order[k]].refcnt > 0
    ensures b == HEAD ==> forall i :: i in order ==> buf[i].refcnt > 0
  {
    b := buf[HEAD].prev;
    p := NBUF;
    assert Linked(buf, order, NBUF);
    while b != HEAD
      invariant 0 <= p <= NBUF && b == At(order, p)
      invariant forall i :: p <= i < NBUF ==> buf[order[i]].refcnt > 0
      decreases p
    {
      if buf[b].refcnt == 0 {
        p := p - 1;
        return;
      }
      assert Linked(buf, order, p - 1);
      b := buf[b].prev;
      p := p - 1;
    }
  }

  /** The list binit builds (bio.c:43-52): each buffer pushed in front of the last. */
  method Binit() returns (s: seq<Buf>, ghost order: seq<nat>)
    ensures Ring(s, order) && |order| == NBUF
    ensures forall i :: 0 <= i < NBUF ==> order[i] == NBUF - 1 - i
    ensures forall i :: 0 <= i < NBUF ==> s[i].dev == 0 && !s[i].valid && s[i].refcnt == 0 && !s[i].locked
  {
    var zero: Block := seq(WORDS, _ => 0);
    s := seq(NBUF + 1, _ => Buf(0, 0, false, 0, false, zero, HEAD, HEAD));
    order := [];
    var b := 0;
    while b < NBUF
      invariant 0 <= b <= NBUF
      invariant Ring(s, order) && |order| == b && forall i :: 0 <= i < b ==> order[i] == b - 1 - i
      invariant |s| == NBUF + 1 && s[HEAD].next <= HEAD
      invariant forall i :: 0 <= i < NBUF ==> s[i].dev == 0 && !s[i].valid && s[i].refcnt == 0 && !s[i].locked
    {
      PushRing(s, order, b);
      s := PushFront(s, b);
      order := [b] + order;
      b := b + 1;
    }
  }

  // ------------------------------------------------------------ the whole cache

  /** The cache is consistent: list, index, counts and contents. */
  ghost predicate CacheOk(buf: seq<Buf>, order: seq<nat>, where: map<nat, nat>, refs: seq<nat>, pins: seq<nat>,
                          locks: set<nat>, disk: Disk, view: Disk)
  {
    && |buf| == NBUF + 1 && |refs| == NBUF && |pins| == |view| == |disk|
    && Ring(buf, order) && |order| == NBUF && (forall i :: 0 <= i < NBUF ==> i in order)
    && Index(buf, where) && Counts(buf, refs, pins) && Contents(buf, where, locks, pins, disk, view)
  }

  /** What consistency says about one buffer that holds a block. */
  lemma BufAt(buf: seq<Buf>, order: seq<nat>, where: map<nat, nat>, refs: seq<nat>, pins: seq<nat>,
              locks: set<nat>, disk: Disk, view: Disk, b: nat)
    requires CacheOk(buf, order, where, refs, pins, locks, disk, view) && b < NBUF && buf[b].dev == ROOTDEV
    ensures var x := buf[b];
            && x.blockno < |disk| && x.blockno in where && where[x.blockno] == b
            && x.refcnt == refs[b] + pins[x.blockno] && (x.locked ==> refs[b] > 0) && (x.locked <==> x.blockno in locks)
            && (x.valid ==> x.data == view[x.blockno]) && (!x.valid ==> view[x.blockno] == disk[x.blockno])
            && (view[x.blockno] != disk[x.blockno] ==> x.locked || pins[x.blockno] > 0)
  {
    hide Ring;
  }

  /** Replacing one buffer's fields other than its links and its block. */
  lemma UpdateKeepsRingAndIndex(buf: seq<Buf>, order: seq<nat>, where: map<nat, nat>, b: nat, x: Buf)
    requires Ring(buf, order) && Index(buf, where) && b < NBUF
    requires x.next == buf[b].next && x.prev == buf[b].prev && x.dev == buf[b].dev && x.blockno == buf[b].blockno
    ensures Ring(buf[b := x], order) && Index(buf[b := x], where)
  {
    RingLinks(buf, buf[b := x], order);
  }

  /** Buffer b becomes x, which holds the same block, with its counts, its lock and the
      block's latest contents changed to match. */
  ghost predicate Fits(x: Buf, b: nat, refs: seq<nat>, pins: seq<nat>, locks: set<nat>, disk: Disk, view: Disk) {
    && b < |refs| && x.blockno < |pins| == |view| == |disk|
    && x.refcnt == refs[b] + pins[x.blockno] && (x.locked ==> refs[b] > 0) && (x.locked <==> x.blockno in locks)
    && (x.valid ==> x.data == view[x.blockno]) && (!x.valid ==> view[x.blockno] == disk[x.blockno])
    && (view[x.blockno] != disk[x.blockno] ==> x.locked || pins[x.blockno] > 0)
  }

  lemma UpdateCounts(buf: seq<Buf>, where: map<nat, nat>, refs: seq<nat>, pins: seq<nat>, b: nat, x: Buf, r: nat,
                     p: nat)
    requires Index(buf, where) && Counts(buf, refs, pins) && b < NBUF && x.dev == buf[b].dev == ROOTDEV
    requires x.blockno == buf[b].blockno < |pins| && x.refcnt == r + p && (x.locked ==> r > 0)
    ensures Counts(buf[b := x], refs[b := r], pins[x.blockno := p])
  {
  }

  lemma UpdateContents(buf: seq<Buf>, where: map<nat, nat>, refs: seq<nat>, pins: seq<nat>, locks: set<nat>,
                       locks2: set<nat>, disk: Disk, view: Disk, b: nat, x: Buf, p: nat, v: Block)
    requires Index(buf, where) && Contents(buf, where, locks, pins, disk, view) && b < NBUF
    requires x.dev == buf[b].dev == ROOTDEV && x.blockno == buf[b].blockno < |disk|
    requires Fits(x, b, refs, pins[x.blockno := p], locks2, disk, view[x.blockno := v])
    requires forall c :: c != x.blockno ==> (c in locks2 <==> c in locks)
    ensures Contents(buf[b := x], where, locks2, pins[x.blockno := p], disk, view[x.blockno := v])
  {
  }

  lemma UpdateCache(buf: seq<Buf>, order: seq<nat>, where: map<nat, nat>, refs: seq<nat>, pins: seq<nat>,
                    locks: set<nat>, locks2: set<nat>, disk: Disk, view: Disk, b: nat, x: Buf, r: nat, p: nat, v: Block)
    requires CacheOk(buf, order, where, refs, pins, locks, disk, view) && b < NBUF && buf[b].dev == ROOTDEV
    requires x.next == buf[b].next && x.prev == buf[b].prev && x.dev == buf[b].dev
    requires x.blockno == buf[b].blockno < |disk|
    requires Fits(x, b, refs[b := r], pins[x.blockno := p], locks2, disk, view[x.blockno := v])
    requires forall c :: c != x.blockno ==> (c in locks2 <==> c in locks)
    ensures CacheOk(buf[b := x], order, where, refs[b := r], pins[x.blockno := p], locks2, disk, view[x.blockno := v])
  {
    hide Ring, Index, Counts, Contents;
    UpdateKeepsRingAndIndex(buf, order, where, b, x);
    UpdateCounts(buf, where, refs, pins, b, x, r, p);
    UpdateContents(buf, where, refs[b := r], pins, locks, locks2, disk, view, b, x, p, v);
  }

  /** A held block goes to disk. */
  lemma WriteCache(buf: seq<Buf>, order: seq<nat>, where: map<nat, nat>, refs: seq<nat>, pins: seq<nat>,
                   locks: set<nat>, disk: Disk, view: Disk, b: nat)
    requires CacheOk(buf, order, where, refs, pins, locks, disk, view) && b < NBUF && buf[b].dev == ROOTDEV
             && buf[b].valid
    requires buf[b].blockno < |disk|
    ensures CacheOk(buf, order, where, refs, pins, locks, disk[buf[b].blockno := buf[b].data], view)
  {
    hide Ring, Counts;
  }

  /** An unreferenced buffer goes to another block. */
  lemma RecycleCache(buf: seq<Buf>, order: seq<nat>, where: map<nat, nat>, refs: seq<nat>, pins: seq<nat>,
                     locks: set<nat>, disk: Disk, view: Disk, b: nat, blockno: nat)
    requires CacheOk(buf, order, where, refs, pins, locks, disk, view)
    requires b < NBUF && blockno < |disk| && blockno !in where && buf[b].refcnt == 0
    ensures CacheOk(Recycled(buf, b, ROOTDEV, blockno), order, Reindexed(buf, where, b, blockno),
                    refs[b := refs[b] + 1], pins, locks, disk, view)
  {
    hide Ring, Index, Counts, Contents;
    RecycleIndex(buf, where, b, blockno);
    RecycleContents(buf, where, refs, pins, locks, disk, view, b, blockno);
    RingLinks(buf, Recycled(buf, b, ROOTDEV, blockno), order);
  }

  /** Requeueing a buffer. */
  lemma RequeueCache(buf: seq<Buf>, order: seq<nat>, where: map<nat, nat>, refs: seq<nat>, pins: seq<nat>,
                     locks: set<nat>, disk: Disk, view: Disk, p: nat)
    requires CacheOk(buf, order, where, refs, pins, locks, disk, view) && p < NBUF
    ensures order[p] < NBUF && buf[order[p]].next <= HEAD && buf[order[p]].prev <= HEAD
    ensures Unlink(buf, order[p])[HEAD].next <= HEAD
    ensures var s := PushFront(Unlink(buf, order[p]), order[p]);
            CacheOk(s, MoveToFront(order, p), where, refs, pins, locks, disk, view) && SameExceptLinks(s, buf)
  {
    assert order[p] < NBUF;
    hide Ring, Index, Counts, Contents, Unlink, PushFront, MoveToFront, SameExceptLinks;
    var b := order[p];
    RequeueRing(buf, order, p);
    MoveToFrontMembers(order, p);
    UnlinkOnlyLinks(buf, b);
    var u := Unlink(buf, b);
    PushOnlyLinks(u, b);
    SameLinksTrans(PushFront(u, b), u, buf);
    LinksKeepContents(buf, PushFront(u, b), where, refs, pins, locks, disk, view);
  }

  lemma SameLinksTrans(a: seq<Buf>, b: seq<Buf>, c: seq<Buf>)
    requires SameExceptLinks(a, b) && SameExceptLinks(b, c)
    ensures SameExceptLinks(a, c)
  {
    forall i | 0 <= i < |a| ensures a[i].(prev := 0, next := 0) == c[i].(prev := 0, next := 0) {
      assert a[i].(prev := 0, next := 0) == b[i].(prev := 0, next := 0);
    }
  }

  /** The lookup's answer, in terms of the index. */
  lemma Indexed(buf: seq<Buf>, order: seq<nat>, where: map<nat, nat>, refs: seq<nat>, pins: seq<nat>,
                locks: set<nat>, disk: Disk, view: Disk, blockno: nat)
    requires CacheOk(buf, order, where, refs, pins, locks, disk, view)
    ensures blockno in where ==> where[blockno] in order && Holds(buf[where[blockno]], ROOTDEV, blockno)
    ensures forall i :: i in order && Holds(buf[i], ROOTDEV, blockno) ==> blockno in where && where[blockno] == i
    ensures forall i :: i in order <==> 0 <= i < NBUF
  {
    hide Linked, Counts, Contents;
  }

  class Cache {
    var buf: seq<Buf>
    var disk: Disk
    ghost var order: seq<nat>
    ghost var where: map<nat, nat>
    ghost var refs: seq<nat>
    /** Blocks whose buffer is locked, and the pins on each block. */
    ghost var locks: set<nat>
    ghost var pins: seq<nat>
    /** The plain block map: the latest contents of every block. */
    ghost var view: Disk
    /** Every disk state so far, one per block write. */
    ghost var history: seq<Disk>
    /** How often a buffer lost its last reference so far, and at which of these times each
        buffer last did. */
    ghost var clock: nat
    ghost var stamp: seq<nat>

    ghost predicate Valid() reads this {
      && |buf| == NBUF + 1 && |refs| == NBUF && |pins| == |view| == |disk| && |order| == NBUF
      && CacheOk(buf, order, where, refs, pins, locks, disk, view)
      && |history| > 0 && history[|history| - 1] == disk && |stamp| == NBUF && ByRecency(order, stamp, clock)
    }

    /** b is the locked buffer of some block. */
    ghost predicate Held(b: nat) reads this {
      b < NBUF && |buf| == NBUF + 1 && buf[b].dev == ROOTDEV && buf[b].locked && buf[b].valid
    }

    /** Every buffer is in use: the panic "bget: no buffers". */
    ghost predicate Exhausted() reads this {
      |buf| > NBUF && forall i :: 0 <= i < NBUF ==> buf[i].refcnt > 0
    }

    constructor (d: Disk)
      ensures Valid() && disk == d && view == d && where == map[] && history == [d]
      ensures locks == {} && pins == seq(|d|, _ => 0)
    {
      var s, o := Binit();
      forall i | 0 <= i < NBUF ensures i in o { assert o[NBUF - 1 - i] == i; }
      buf, order := s, o;
      disk, view, history := d, d, [d];
      where, locks := map[], {};
      refs := seq(NBUF, _ => 0);
      clock, stamp := 0, seq(NBUF, _ => 0);
      pins := seq(|d|, _ => 0);
    }

    /** The critical section of bget (bio.c:58-89): find the block, or recycle the
        least recently released unreferenced buffer; None is the panic. */
    method Bget(dev: nat, blockno: nat) returns (r: Option<nat>)
      requires Valid() && dev == ROOTDEV && blockno < |disk|
      modifies this`buf, this`where, this`refs
      ensures Valid()
      ensures r.None? <==> blockno !in old(where) && forall i :: 0 <= i < NBUF ==> old(buf)[i].refcnt > 0
      ensures r.None? ==> buf == old(buf) && refs == old(refs) && where == old(where)
      ensures r.Some? ==> r.value < NBUF && blockno in where && where[blockno] == r.value
      ensures r.Some? ==> buf[r.value].dev == dev && buf[r.value].blockno == blockno
      ensures r.Some? ==> refs == old(refs)[r.value := old(refs)[r.value] + 1] && refs[r.value] > 0
      ensures r.Some? && blockno in old(where) ==> where == old(where) && buf == Referenced(old(buf), r.value)
      ensures r.Some? && blockno !in old(where) ==>
                && old(buf)[r.value].refcnt == 0
                && buf == Recycled(old(buf), r.value, dev, blockno)
                && where == Reindexed(old(buf), old(where), r.value, blockno)
                && exists p: nat :: LastFree(old(buf), order, p) && order[p] == r.value
      ensures r.Some? && blockno !in old(where) ==>
                forall i :: 0 <= i < NBUF && old(buf)[i].refcnt == 0 ==> stamp[r.value] <= stamp[i]
    {
      hide CacheOk, Ring, LastFree, ByRecency;
      Indexed(buf, order, where, refs, pins, locks, disk, view, blockno);
      assert Ring(buf, order) by { CacheRing(buf, order, where, refs, pins, locks, disk, view); }
      var b := Lookup(buf, dev, blockno, order);
      if b != HEAD {
        Reference(b);
        return Some(b);
      }
      ghost var p;
      b, p := LeastRecentlyUsed(buf, order);
      if b == HEAD {
        return None;
      }
      assert LastFree(buf, order, p) by {
        CacheRing(buf, order, where, refs, pins, locks, disk, view);
        FoundLast(buf, order, p);
      }
      forall i | 0 <= i < NBUF && buf[i].refcnt == 0 ensures stamp[b] <= stamp[i] {
        Oldest(buf, order, stamp, clock, p, i);
      }
      Recycle(dev, blockno, b);
      return Some(b);
    }

    /** One more reference to a cached buffer (bio.c:68). */
    method Reference(b: nat)
      requires Valid() && b < NBUF && buf[b].dev == ROOTDEV
      modifies this`buf, this`refs
      ensures Valid() && refs == old(refs)[b := old(refs)[b] + 1] && buf == Referenced(old(buf), b)
    {
      hide CacheOk;
      BufAt(buf, order, where, refs, pins, locks, disk, view, b);
      ghost var k := buf[b].blockno;
      UpdateCache(buf, order, where, refs, pins, locks, locks, disk, view, b, buf[b].(refcnt := buf[b].refcnt + 1),
                  refs[b] + 1, pins[k], view[k]);
      assert pins[k := pins[k]] == pins && view[k := view[k]] == view;
      buf := buf[b := buf[b].(refcnt := buf[b].refcnt + 1)];
      refs := refs[b := refs[b] + 1];
    }

    method Recycle(dev: nat, blockno: nat, b: nat)
      requires Valid() && dev == ROOTDEV && blockno < |disk| && blockno !in where
      requires b < NBUF && buf[b].refcnt == 0
      modifies this`buf, this`where, this`refs
      ensures Valid() && refs == old(refs)[b := old(refs)[b] + 1]
      ensures buf == Recycled(old(buf), b, dev, blockno)
      ensures where == Reindexed(old(buf), old(where), b, blockno)
    {
      hide CacheOk;
      RecycleCache(buf, order, where, refs, pins, locks, disk, view, b, blockno);
      where := Reindexed(buf, where, b, blockno);
      buf := Recycled(buf, b, dev, blockno);
      refs := refs[b := refs[b] + 1];
    }

    /** bread (bio.c:92-103). A call that would sleep on the buffer's lock is not
        a step, so the block is not locked. The caller gets the latest contents
        of the block, and no buffer with a reference or a pin changes its block. */
    method Bread(dev: nat, blockno: nat) returns (r: Option<nat>)
      requires Valid() && dev == ROOTDEV && blockno < |disk| && blockno !in locks
      modifies this`buf, this`where, this`refs, this`locks
      ensures Valid()
      ensures r.None? <==> blockno !in old(where) && forall i :: 0 <= i < NBUF ==> old(buf)[i].refcnt > 0
      ensures r.None? ==> locks == old(locks) && Exhausted()
      ensures r.Some? ==> Held(r.value) && buf[r.value].blockno == blockno && locks == old(locks) + {blockno}
      ensures r.Some? ==> buf[r.value].data == view[blockno]
      ensures forall i :: 0 <= i < NBUF && old(buf)[i].refcnt > 0 ==>
                buf[i].dev == old(buf)[i].dev && buf[i].blockno == old(buf)[i].blockno
      ensures forall i: nat :: old(Held(i)) ==> Held(i) && buf[i] == old(buf)[i]
    {
      hide CacheOk;
      forall i: nat | Held(i) ensures buf[i].refcnt > 0 && buf[i].blockno in locks {
        BufAt(buf, order, where, refs, pins, locks, disk, view, i);
      }
      r := Bget(dev, blockno);
      if r.Some? {
        LockAndRead(r.value);
      }
    }

    /** Take the buffer's lock, and read the block unless the buffer is valid. */
    method LockAndRead(b: nat)
      requires Valid() && b < NBUF && buf[b].dev == ROOTDEV && refs[b] > 0 && buf[b].blockno !in locks
      modifies this`buf, this`locks
      ensures Valid() && locks == old(locks) + {buf[b].blockno} && buf[b].blockno < |view|
      ensures buf == old(buf)[b := old(buf)[b].(locked := true, valid := true, data := view[old(buf)[b].blockno])]
    {
      hide CacheOk;
      BufAt(buf, order, where, refs, pins, locks, disk, view, b);
      var data := if buf[b].valid then buf[b].data else disk[buf[b].blockno];
      ghost var k := buf[b].blockno;
      UpdateCache(buf, order, where, refs, pins, locks, locks + {k}, disk, view, b,
                  buf[b].(locked := true, valid := true, data := data), refs[b], pins[k], view[k]);
      assert refs[b := refs[b]] == refs && pins[k := pins[k]] == pins && view[k := view[k]] == view;
      locks := locks + {k};
      buf := buf[b := buf[b].(locked := true, valid := true, data := data)];
    }

    /** The holder of a locked buffer changes its contents. */
    method Store(b: nat, data: Block)
      requires Valid() && Held(b)
      modifies this`buf, this`view
      ensures Valid() && buf == old(buf)[b := old(buf)[b].(data := data)] && buf[b].blockno < |view|
      ensures view == old(view)[buf[b].blockno := data]
    {
      hide CacheOk;
      BufAt(buf, order, where, refs, pins, locks, disk, view, b);
      ghost var k := buf[b].blockno;
      UpdateCache(buf, order, where, refs, pins, locks, locks, disk, view, b, buf[b].(data := data),
                  refs[b], pins[k], data);
      assert refs[b := refs[b]] == refs && pins[k := pins[k]] == pins;
      view := view[k := data];
      buf := buf[b := buf[b].(data := data)];
    }

    /** bwrite (bio.c:106-112): one atomic block write. */
    method Bwrite(b: nat)
      requires Valid() && Held(b)
      modifies this`disk, this`history
      ensures Valid() && buf[b].blockno < |disk| && disk == old(disk)[buf[b].blockno := buf[b].data]
      ensures history == old(history) + [disk]
    {
      hide CacheOk;
      BufAt(buf, order, where, refs, pins, locks, disk, view, b);
      WriteCache(buf, order, where, refs, pins, locks, disk, view, b);
      disk := disk[buf[b].blockno := buf[b].data];
      history := history + [disk];
    }

    /** brelse (bio.c:116-137). The caller has written the block or logged it. */
    method Brelse(b: nat)
      requires Valid() && Held(b) && buf[b].blockno < |disk|
      requires view[buf[b].blockno] == disk[buf[b].blockno] || pins[buf[b].blockno] > 0
      modifies this`buf, this`order, this`refs, this`locks, this`clock, this`stamp
      ensures Valid() && old(refs)[b] > 0 && refs == old(refs)[b := old(refs)[b] - 1]
      ensures locks == old(locks) - {old(buf)[b].blockno} && old(buf)[b].refcnt > 0
      ensures SameExceptLinks(buf, old(buf)[b := old(buf)[b].(locked := false, refcnt := old(buf)[b].refcnt - 1)])
      ensures if old(buf)[b].refcnt > 1 then order == old(order) else exists p: nat :: MovedUp(old(order), order, b, p)
      ensures if old(buf)[b].refcnt > 1 then stamp == old(stamp) && clock == old(clock)
              else clock == old(clock) + 1 && stamp == old(stamp)[b := clock]
      ensures forall i: nat :: i != b && old(Held(i)) ==>
                Held(i) && buf[i].blockno == old(buf)[i].blockno && buf[i].data == old(buf)[i].data
    {
      hide CacheOk, MovedUp;
      BufAt(buf, order, where, refs, pins, locks, disk, view, b);
      Unlock(b);
      if buf[b].refcnt == 0 {
        Requeue(b);
      }
      forall i: nat | i != b && old(Held(i))
        ensures Held(i) && buf[i].blockno == old(buf)[i].blockno && buf[i].data == old(buf)[i].data
      {
        assert buf[i].(prev := 0, next := 0) == old(buf)[i].(prev := 0, next := 0);
      }
    }

    method Unlock(b: nat)
      requires Valid() && Held(b) && buf[b].blockno < |disk| && refs[b] > 0 && buf[b].refcnt > 0
      requires view[buf[b].blockno] == disk[buf[b].blockno] || pins[buf[b].blockno] > 0
      modifies this`buf, this`refs, this`locks
      ensures Valid() && refs == old(refs)[b := old(refs)[b] - 1] && locks == old(locks) - {buf[b].blockno}
      ensures buf == old(buf)[b := old(buf)[b].(locked := false, refcnt := old(buf)[b].refcnt - 1)]
    {
      hide CacheOk;
      BufAt(buf, order, where, refs, pins, locks, disk, view, b);
      ghost var k := buf[b].blockno;
      UpdateCache(buf, order, where, refs, pins, locks, locks - {k}, disk, view, b,
                  buf[b].(locked := false, refcnt := buf[b].refcnt - 1), refs[b] - 1, pins[k], view[k]);
      assert pins[k := pins[k]] == pins && view[k := view[k]] == view;
      buf := buf[b := buf[b].(locked := false, refcnt := buf[b].refcnt - 1)];
      refs := refs[b := refs[b] - 1];
      locks := locks - {k};
    }

    /** Move an unreferenced buffer to the front of the list. */
    method Requeue(b: nat)
      requires Valid() && b < NBUF
      modifies this`buf, this`order, this`clock, this`stamp
      ensures Valid() && SameExceptLinks(buf, old(buf))
      ensures exists p: nat :: MovedUp(old(order), order, b, p)
      ensures clock == old(clock) + 1 && stamp == old(stamp)[b := clock]
    {
      hide CacheOk, SameExceptLinks, Unlink, PushFront, ByRecency, MoveToFront;
      Indexed(buf, order, where, refs, pins, locks, disk, view, 0);
      assert b in order;
      ghost var p :| 0 <= p < |order| && order[p] == b;
      RequeueCache(buf, order, where, refs, pins, locks, disk, view, p);
      OncePerBuffer(buf, order, where, refs, pins, locks, disk, view, p);
      MostRecent(order, stamp, clock, p);
      buf := PushFront(Unlink(buf, b), b);
      order := MoveToFront(order, p);
      clock, stamp := clock + 1, stamp[b := clock + 1];
      assert MovedUp(old(order), order, b, p);
    }

    method Bpin(b: nat)
      requires Valid() && b < NBUF && buf[b].dev == ROOTDEV
      modifies this`buf, this`pins
      ensures Valid() && buf[b].blockno < |pins| && buf == Referenced(old(buf), b)
      ensures pins == old(pins)[buf[b].blockno := old(pins)[buf[b].blockno] + 1]
    {
      hide CacheOk;
      BufAt(buf, order, where, refs, pins, locks, disk, view, b);
      ghost var k := buf[b].blockno;
      UpdateCache(buf, order, where, refs, pins, locks, locks, disk, view, b, buf[b].(refcnt := buf[b].refcnt + 1),
                  refs[b], pins[k] + 1, view[k]);
      assert refs[b := refs[b]] == refs && view[k := view[k]] == view;
      buf := buf[b := buf[b].(refcnt := buf[b].refcnt + 1)];
      pins := pins[k := pins[k] + 1];
    }

    method Bunpin(b: nat)
      requires Valid() && Held(b) && buf[b].blockno < |pins| && pins[buf[b].blockno] > 0
      modifies this`buf, this`pins
      ensures Valid() && pins == old(pins)[buf[b].blockno := old(pins)[buf[b].blockno] - 1] && old(buf)[b].refcnt > 0
      ensures buf == old(buf)[b := old(buf)[b].(refcnt := old(buf)[b].refcnt - 1)]
    {
      hide CacheOk;
      BufAt(buf, order, where, refs, pins, locks, disk, view, b);
      ghost var k := buf[b].blockno;
      UpdateCache(buf, order, where, refs, pins, locks, locks, disk, view, b, buf[b].(refcnt := buf[b].refcnt - 1),
                  refs[b], pins[k] - 1, view[k]);
      assert refs[b := refs[b]] == refs && view[k := view[k]] == view;
      buf := buf[b := buf[b].(refcnt := buf[b].refcnt - 1)];
      pins := pins[k := pins[k] - 1];
    }
  }

  /** One more reference to buffer b. */
  function Referenced(buf: seq<Buf>, b: nat): seq<Buf>
    requires b < |buf|
  {
    buf[b := buf[b].(refcnt := buf[b].refcnt + 1)]
  }

  /** Position p is that of the least recently used unreferenced buffer. */
  ghost predicate LastFree(buf: seq<Buf>, order: seq<nat>, p: nat) {
    && |buf| == NBUF + 1 && |order| == NBUF && p < NBUF && (forall k :: 0 <= k < NBUF ==> order[k] < NBUF)
    && buf[order[p]].refcnt == 0 && forall k :: p < k < NBUF ==> buf[order[k]].refcnt > 0
  }

  /** The list is in the order in which the buffers last lost their last reference, the most
      recent first. */
  ghost predicate ByRecency(order: seq<nat>, stamp: seq<nat>, clock: nat) {
    && (forall i :: 0 <= i < |order| ==> order[i] < |stamp| && stamp[order[i]] <= clock)
    && (forall i, j :: 0 <= i < j < |order| ==> stamp[order[i]] >= stamp[order[j]])
  }

  lemma OncePerBuffer(buf: seq<Buf>, order: seq<nat>, where: map<nat, nat>, refs: seq<nat>, pins: seq<nat>,
                      locks: set<nat>, disk: Disk, view: Disk, p: nat)
    requires CacheOk(buf, order, where, refs, pins, locks, disk, view) && p < |order|
    ensures forall i :: 0 <= i < |order| && i != p ==> order[i] != order[p]
  {
    hide Linked, Index, Counts, Contents;
  }

  lemma MostRecent(order: seq<nat>, stamp: seq<nat>, clock: nat, p: nat)
    requires ByRecency(order, stamp, clock) && p < |order|
    requires forall i :: 0 <= i < |order| && i != p ==> order[i] != order[p]
    ensures ByRecency(MoveToFront(order, p), stamp[order[p] := clock + 1], clock + 1)
  {
    var o := MoveToFront(order, p);
    forall i | 0 <= i < |o| ensures o[i] == if i == 0 then order[p] else if i <= p then order[i - 1] else order[i] {
    }
  }

  /** The last unreferenced buffer of the list is the one unreferenced for longest. */
  lemma Oldest(buf: seq<Buf>, order: seq<nat>, stamp: seq<nat>, clock: nat, p: nat, i: nat)
    requires LastFree(buf, order, p) && ByRecency(order, stamp, clock) && i < NBUF && i in order && buf[i].refcnt == 0
    ensures stamp[order[p]] <= stamp[i]
  {
    var k :| 0 <= k < |order| && order[k] == i;
  }

  /** Buffer b moved from position p to the front. */
  ghost predicate MovedUp(was: seq<nat>, now: seq<nat>, b: nat, p: nat) {
    p < |was| && was[p] == b && now == MoveToFront(was, p)
  }

  lemma CacheRing(buf: seq<Buf>, order: seq<nat>, where: map<nat, nat>, refs: seq<nat>, pins: seq<nat>,
                  locks: set<nat>, disk: Disk, view: Disk)
    requires CacheOk(buf, order, where, refs, pins, locks, disk, view)
    ensures Ring(buf, order)
  {
  }

  lemma FoundLast(buf: seq<Buf>, order: seq<nat>, p: nat)
    requires Ring(buf, order) && |order| == NBUF && p < NBUF && buf[order[p]].refcnt == 0
    requires forall k :: p < k < NBUF ==> buf[order[k]].refcnt > 0
    ensures LastFree(buf, order, p)
  {
  }

  lemma UnlinkOnlyLinks(buf: seq<Buf>, b: nat)
    requires |buf| == NBUF + 1 && b < NBUF && buf[b].next <= HEAD && buf[b].prev <= HEAD
    ensures SameExceptLinks(Unlink(buf, b), buf)
  {
  }

  lemma PushOnlyLinks(buf: seq<Buf>, b: nat)
    requires |buf| == NBUF + 1 && b < NBUF && buf[HEAD].next <= HEAD
    ensures SameExceptLinks(PushFront(buf, b), buf)
  {
  }

  lemma MoveToFrontMembers(order: seq<nat>, p: nat)
    requires p < |order|
    ensures forall i :: i in order ==> i in MoveToFront(order, p)
  {
    forall i | i in order ensures i in MoveToFront(order, p) {
      assert i in multiset(order);
      assert i in multiset(MoveToFront(order, p));
    }
  }

  lemma RequeueRing(buf: seq<Buf>, order: seq<nat>, p: nat)
    requires Ring(buf, order) && |order| == NBUF && p < NBUF
    ensures buf[order[p]].next <= HEAD && buf[order[p]].prev <= HEAD
    ensures Unlink(buf, order[p])[HEAD].next <= HEAD
    ensures Ring(PushFront(Unlink(buf, order[p]), order[p]), MoveToFront(order, p))
  {
    assert Linked(buf, order, p) && Linked(buf, order, p + 1);
    UnlinkRing(buf, order, p);
    var o := order[..p] + order[p + 1..];
    var u := Unlink(buf, order[p]);
    assert Linked(u, o, 0);
    PushRing(u, o, order[p]);
    assert MoveToFront(order, p) == [order[p]] + o;
  }

  lemma LinksKeepContents(a: seq<Buf>, b: seq<Buf>, where: map<nat, nat>, refs: seq<nat>, pins: seq<nat>,
                          locks: set<nat>, disk: Disk, view: Disk)
    requires Index(a, where) && Counts(a, refs, pins) && Contents(a, where, locks, pins, disk, view)
    requires SameExceptLinks(b, a)
    ensures Index(b, where) && Counts(b, refs, pins) && Contents(b, where, locks, pins, disk, view)
  {
    forall i | 0 <= i <= NBUF
      ensures a[i].dev == b[i].dev && a[i].blockno == b[i].blockno && a[i].valid == b[i].valid
      ensures a[i].refcnt == b[i].refcnt && a[i].locked == b[i].locked && a[i].data == b[i].data
    {
      assert b[i].(prev := 0, next := 0) == a[i].(prev := 0, next := 0);
    }
  }
}

/** The user-level allocator (umalloc.c): headers linked in memory, refining the free
    list of FreeList. Addresses are in units of one 16-byte header. */
module Malloc {
  import opened Basics
  import opened FreeList

  const HEADER: nat := 16
  const CORE: nat := 4096

  /** Free blocks, live blocks by header address, and all units ever got from sbrk. */
  datatype Heap = Heap(bs: seq<Block>, live: map<nat, nat>, core: set<nat>, top: nat)

  predicate LiveHas(live: map<nat, nat>, a: nat, u: nat) {
    a in live && a <= u < a + live[a]
  }

  ghost predicate InLive(live: map<nat, nat>, u: nat) {
    exists a: nat :: LiveHas(live, a, u)
  }

  /** Live blocks do not overlap. */
  ghost predicate LiveApart(live: map<nat, nat>) {
    && (forall a: nat :: a in live ==> live[a] > 0)
    && (forall a: nat, b: nat :: a in live && b in live && a < b ==> a + live[a] <= b)
  }

  /** Every unit from sbrk is in exactly one block, free or live, and no other unit is. */
  ghost predicate Shared(h: Heap) {
    && (forall u: nat :: u in h.core <==> InFree(h.bs, u) || InLive(h.live, u))
    && (forall u: nat :: !(InFree(h.bs, u) && InLive(h.live, u)))
  }

  ghost predicate HeapOk(h: Heap, base: nat) {
    && Ordered(h.bs) && h.bs[0].addr == base < h.top
    && LiveApart(h.live) && Shared(h)
    && (forall u: nat :: u in h.core ==> base < u < h.top)
  }

  // ------------------------------------------------------------ heap steps

  function Freed(h: Heap, i: nat, a: nat): Heap
    requires i < |h.bs| && a in h.live
  {
    h.(bs := Insert(h.bs, i, Block(a, h.live[a])), live := h.live - {a})
  }

  lemma LiveUnits(h: Heap, base: nat, a: nat, u: nat)
    requires HeapOk(h, base) && LiveHas(h.live, a, u)
    ensures u in h.core && base < u < h.top && !InFree(h.bs, u)
  {
    hide Ordered;
  }

  /** A live block touches no unit of a free one. */
  lemma LiveClear(h: Heap, base: nat, a: nat)
    requires HeapOk(h, base) && a in h.live
    ensures Clear(h.bs, Block(a, h.live[a])) && a > base && h.live[a] > 0
    ensures forall i :: 0 <= i < |h.bs| ==> h.bs[i].addr != a
  {
    var b := Block(a, h.live[a]);
    assert b.size > 0;
    LiveUnits(h, base, a, a);
    forall i | 0 <= i < |h.bs| ensures (b.End() <= h.bs[i].addr || h.bs[i].End() <= a) && h.bs[i].addr != a {
      ClearOf(h, base, a, i);
    }
  }

  lemma ClearOf(h: Heap, base: nat, a: nat, i: nat)
    requires HeapOk(h, base) && a in h.live && i < |h.bs|
    ensures (a + h.live[a] <= h.bs[i].addr || h.bs[i].End() <= a) && h.bs[i].addr != a
  {
    LiveUnits(h, base, a, a);
    NotIn(h.bs, i, a);
    if a < h.bs[i].addr < a + h.live[a] {
      LiveUnits(h, base, a, h.bs[i].addr);
      NotIn(h.bs, i, h.bs[i].addr);
    }
  }

  lemma NotIn(bs: seq<Block>, i: nat, u: nat)
    requires i < |bs| && !InFree(bs, u)
    ensures !bs[i].Has(u)
  {
  }

  lemma NotLive(live: map<nat, nat>, a: nat, u: nat)
    requires !InLive(live, u)
    ensures !LiveHas(live, a, u)
  {
  }

  lemma LiveRemoved(live: map<nat, nat>, a: nat, u: nat)
    requires LiveApart(live) && a in live
    ensures InLive(live, u) <==> InLive(live - {a}, u) || LiveHas(live, a, u)
    ensures !(InLive(live - {a}, u) && LiveHas(live, a, u))
  {
    if InLive(live, u) {
      var b: nat :| LiveHas(live, b, u);
      if b != a { assert LiveHas(live - {a}, b, u); }
    }
    if InLive(live - {a}, u) {
      var b: nat :| LiveHas(live - {a}, b, u);
      assert LiveHas(live, b, u);
      assert if a < b then a + live[a] <= b else b + live[b] <= a;
    }
  }

  lemma FreedOk(h: Heap, base: nat, i: nat, a: nat)
    requires HeapOk(h, base) && a in h.live && Before(h.bs, i, a)
    ensures HeapOk(Freed(h, i, a), base)
  {
    LiveClear(h, base, a);
    var b := Block(a, h.live[a]);
    InsertOrdered(h.bs, i, b);
    hide Ordered, Insert, Before;
    var g := Freed(h, i, a);
    forall u: nat ensures u in g.core <==> InFree(g.bs, u) || InLive(g.live, u)
      ensures !(InFree(g.bs, u) && InLive(g.live, u))
    {
      InsertUnits(h.bs, i, b, u);
      LiveRemoved(h.live, a, u);
    }
  }

  /** Block i loses its last n units to a new live block. */
  function Given(h: Heap, i: nat, n: nat): Heap
    requires i < |h.bs| && n <= h.bs[i].size
  {
    h.(bs := Take(h.bs, i, n), live := h.live[Taken(h.bs, i, n).addr := n])
  }

  lemma LiveAdded(live: map<nat, nat>, a: nat, n: nat, u: nat)
    requires LiveApart(live) && n > 0 && forall x: nat :: a <= x < a + n ==> !InLive(live, x)
    ensures InLive(live[a := n], u) <==> InLive(live, u) || a <= u < a + n
    ensures a !in live && LiveApart(live[a := n])
  {
    NotLive(live, a, a);
    forall b: nat | b in live ensures if a < b then a + n <= b else b + live[b] <= a {
      NotLive(live, b, a);
      if a <= b < a + n { NotLive(live, b, b); }
    }
    if InLive(live, u) {
      var b: nat :| LiveHas(live, b, u);
      assert LiveHas(live[a := n], b, u);
    }
    if a <= u < a + n { assert LiveHas(live[a := n], a, u); }
    if InLive(live[a := n], u) {
      var b: nat :| LiveHas(live[a := n], b, u);
      if b != a { assert LiveHas(live, b, u); }
    }
  }

  lemma GivenOk(h: Heap, base: nat, i: nat, n: nat)
    requires HeapOk(h, base) && i < |h.bs| && 0 < n <= h.bs[i].size
    ensures HeapOk(Given(h, i, n), base) && Taken(h.bs, i, n).addr !in h.live
  {
    TakeOrdered(h.bs, i, n);
    var b := Taken(h.bs, i, n);
    forall x: nat | b.addr <= x < b.addr + n ensures !InLive(h.live, x) {
      assert h.bs[i].Has(x);
    }
    var g := Given(h, i, n);
    LiveAdded(h.live, b.addr, n, 0);
    hide Ordered, Take;
    forall u: nat ensures u in g.core <==> InFree(g.bs, u) || InLive(g.live, u)
      ensures !(InFree(g.bs, u) && InLive(g.live, u))
    {
      assert Sorted(h.bs) by { OrderedSorted(h.bs); }
      TakeUnits(h.bs, i, n, u);
      LiveAdded(h.live, b.addr, n, u);
    }
  }

  lemma OrderedSorted(bs: seq<Block>)
    requires Ordered(bs)
    ensures Sorted(bs)
  {
  }

  function Units(lo: nat, n: nat): set<nat> {
    if n == 0 then {} else Units(lo, n - 1) + {lo + n - 1}
  }

  lemma {:induction false} UnitsAre(lo: nat, n: nat, u: nat)
    ensures u in Units(lo, n) <==> lo <= u < lo + n
  {
    if n > 0 { UnitsAre(lo, n - 1, u); }
  }

  /** A fresh region from sbrk, first as a live block (umalloc.c:57-59). */
  function Grown(h: Heap, a: nat, n: nat): Heap {
    h.(live := h.live[a := n], core := h.core + Units(a, n), top := a + n)
  }

  lemma GrownOk(h: Heap, base: nat, a: nat, n: nat)
    requires HeapOk(h, base) && a >= h.top && n > 0
    ensures HeapOk(Grown(h, a, n), base)
  {
    hide Ordered, InFree, InLive, Units;
    forall x: nat | a <= x < a + n ensures !InLive(h.live, x) && !InFree(h.bs, x) {
      assert x !in h.core;
    }
    LiveAdded(h.live, a, n, 0);
    var g := Grown(h, a, n);
    forall u: nat ensures u in g.core <==> InFree(g.bs, u) || InLive(g.live, u)
      ensures !(InFree(g.bs, u) && InLive(g.live, u))
      ensures u in g.core ==> base < u < g.top
    {
      LiveAdded(h.live, a, n, u);
      UnitsAre(a, n, u);
    }
  }

  // ------------------------------------------------------------ headers in memory

  ghost predicate Rising(bs: seq<Block>) {
    forall i, j :: 0 <= i < j < |bs| ==> bs[i].addr < bs[j].addr
  }

  function Next(bs: seq<Block>, i: nat): nat
    requires i < |bs|
  {
    if i + 1 < |bs| then bs[i + 1].addr else bs[0].addr
  }

  /** Header b is in memory and, unless open, points to `next`. */
  predicate HeaderOk(ptr: map<nat, nat>, size: map<nat, nat>, b: Block, next: nat, open: bool) {
    b.addr in ptr && b.addr in size && size[b.addr] == b.size && (open || ptr[b.addr] == next)
  }

  /** The headers form the circular list bs, but for the pointer of block `but`. */
  ghost predicate Linked(ptr: map<nat, nat>, size: map<nat, nat>, bs: seq<Block>, but: int) {
    forall i :: 0 <= i < |bs| ==> HeaderOk(ptr, size, bs[i], Next(bs, i), i == but)
  }

  lemma OrderedRising(bs: seq<Block>)
    requires Ordered(bs)
    ensures Rising(bs)
  {
    forall i, j | 0 <= i < j < |bs| ensures bs[i].addr < bs[j].addr {
      assert Gap(bs, i);
      if i == 0 && j > 1 { assert bs[1].End() <= bs[j].addr; }
    }
  }

  lemma HeapList(h: Heap, base: nat)
    requires HeapOk(h, base)
    ensures Ordered(h.bs) && Rising(h.bs) && |h.bs| > 0 && h.bs[0].addr == base
    ensures forall j :: 0 <= j < |h.bs| ==> h.bs[j].addr >= base
  {
    OrderedRising(h.bs);
  }

  lemma PutRising(bs: seq<Block>, i: nat, b: Block)
    requires Rising(bs) && Before(bs, i, b.addr)
    ensures Rising(Put(bs, i, b))
  {
  }

  lemma MergeRising(bs: seq<Block>, i: nat)
    requires Rising(bs) && i + 1 < |bs|
    ensures Rising(Merge(bs, i))
  {
  }

  lemma LinkPut(ptr: map<nat, nat>, size: map<nat, nat>, bs: seq<Block>, i: nat, b: Block)
    requires Linked(ptr, size, bs, -1) && Rising(bs) && Before(bs, i, b.addr) && b.addr in size
             && size[b.addr] == b.size
    ensures Linked(ptr[b.addr := Next(bs, i)], size, Put(bs, i, b), i)
  {
    var c, q := Put(bs, i, b), ptr[b.addr := Next(bs, i)];
    hide Linked, HeaderOk, Put;
    forall j | 0 <= j < |c| ensures HeaderOk(q, size, c[j], Next(c, j), j == i) {
      PutHeader(ptr, size, bs, i, b, j);
    }
    LinkedFrom(q, size, c, i);
  }

  lemma LinkedFrom(ptr: map<nat, nat>, size: map<nat, nat>, bs: seq<Block>, but: int)
    requires forall i :: 0 <= i < |bs| ==> HeaderOk(ptr, size, bs[i], Next(bs, i), i == but)
    ensures Linked(ptr, size, bs, but)
  {
    hide HeaderOk;
  }

  lemma PutHeader(ptr: map<nat, nat>, size: map<nat, nat>, bs: seq<Block>, i: nat, b: Block, j: nat)
    requires Linked(ptr, size, bs, -1) && Rising(bs) && Before(bs, i, b.addr) && b.addr in size
             && size[b.addr] == b.size
    requires j < |Put(bs, i, b)|
    ensures HeaderOk(ptr[b.addr := Next(bs, i)], size, Put(bs, i, b)[j], Next(Put(bs, i, b), j), j == i)
  {
    var c := Put(bs, i, b);
    if j <= i {
      assert HeaderOk(ptr, size, bs[j], Next(bs, j), false);
      assert j < i ==> bs[j].addr < bs[i].addr;
    } else if j > i + 1 {
      assert HeaderOk(ptr, size, bs[j - 1], Next(bs, j - 1), false) && Next(c, j) == Next(bs, j - 1);
      assert i + 1 < j - 1 ==> bs[i + 1].addr < bs[j - 1].addr;
    }
  }

  /** Block k takes over its successor, whose own pointer is in order. */
  lemma LinkMerge(ptr: map<nat, nat>, size: map<nat, nat>, c: seq<Block>, k: nat, but: int)
    requires Linked(ptr, size, c, but) && Rising(c) && k + 1 < |c| && but <= k
    ensures c[k].addr in size && c[k + 1].addr in size && c[k + 1].addr in ptr
    ensures Linked(ptr[c[k].addr := ptr[c[k + 1].addr]], size[c[k].addr := size[c[k].addr] + size[c[k + 1].addr]],
                   Merge(c, k), if but == k then -1 else but)
  {
    assert HeaderOk(ptr, size, c[k], Next(c, k), k == but) && HeaderOk(ptr, size, c[k + 1], Next(c, k + 1), false);
    var m := Merge(c, k);
    var q := ptr[c[k].addr := ptr[c[k + 1].addr]];
    var z := size[c[k].addr := size[c[k].addr] + size[c[k + 1].addr]];
    hide Linked, HeaderOk, Merge;
    forall j | 0 <= j < |m| ensures HeaderOk(q, z, m[j], Next(m, j), j == if but == k then -1 else but) {
      MergeAt(c, k, j);
      MergeHeader(ptr, size, c, k, but, j, m[j], Next(m, j));
    }
    LinkedFrom(q, z, m, if but == k then -1 else but);
  }

  /** The header of what becomes block j, now block b with successor `next`. */
  lemma MergeHeader(ptr: map<nat, nat>, size: map<nat, nat>, c: seq<Block>, k: nat, but: int, j: nat, b: Block,
                    next: nat)
    requires Linked(ptr, size, c, but) && Rising(c) && k + 1 < |c| && but <= k && j < |c| - 1
    requires c[k].addr in size && c[k + 1].addr in size && c[k + 1].addr in ptr
    requires b == if j < k then c[j] else if j == k then Block(c[k].addr, c[k].size + c[k + 1].size) else c[j + 1]
    requires next == Next(c, if j >= k then j + 1 else j)
    ensures HeaderOk(ptr[c[k].addr := ptr[c[k + 1].addr]], size[c[k].addr := size[c[k].addr] + size[c[k + 1].addr]],
                     b, next, j == if but == k then -1 else but)
  {
    hide Next, HeaderOk, Linked, Rising;
    if j == k {
      HeaderAt(ptr, size, c, but, k + 1);
      HeaderAt(ptr, size, c, but, k);
      HeaderJoin(ptr, size, c[k], c[k + 1], Next(c, k + 1), Next(c, k), k == but);
    } else {
      var i := if j >= k then j + 1 else j;
      HeaderAt(ptr, size, c, but, i);
      RisingAt(c, i, k);
      HeaderElse(ptr, size, c[i], Next(c, i), i == but, c[k].addr, ptr[c[k + 1].addr],
          size[c[k].addr] + size[c[k + 1].addr]);
    }
  }

  lemma RisingAt(bs: seq<Block>, i: nat, k: nat)
    requires Rising(bs) && i < |bs| && k < |bs| && i != k
    ensures bs[i].addr != bs[k].addr
  {
  }

  lemma HeaderAt(ptr: map<nat, nat>, size: map<nat, nat>, bs: seq<Block>, but: int, i: nat)
    requires Linked(ptr, size, bs, but) && i < |bs|
    ensures HeaderOk(ptr, size, bs[i], Next(bs, i), i == but)
  {
  }

  lemma HeaderElse(ptr: map<nat, nat>, size: map<nat, nat>, b: Block, next: nat, open: bool, a: nat, x: nat, y: nat)
    requires HeaderOk(ptr, size, b, next, open) && b.addr != a
    ensures HeaderOk(ptr[a := x], size[a := y], b, next, open)
  {
  }

  lemma HeaderJoin(ptr: map<nat, nat>, size: map<nat, nat>, b: Block, c: Block, next: nat, was: nat, open: bool)
    requires HeaderOk(ptr, size, b, was, open) && HeaderOk(ptr, size, c, next, false)
    ensures b.addr in size && c.addr in size && c.addr in ptr
    ensures HeaderOk(ptr[b.addr := ptr[c.addr]], size[b.addr := size[b.addr] + size[c.addr]],
            Block(b.addr, b.size + c.size), next, false)
  {
  }

  lemma MergeAt(c: seq<Block>, k: nat, j: nat)
    requires k + 1 < |c| && j < |c| - 1
    ensures |Merge(c, k)| == |c| - 1 && Next(Merge(c, k), j) == Next(c, if j >= k then j + 1 else j)
    ensures Merge(c, k)[j] == if j < k then c[j] else if j == k then Block(c[k].addr, c[k].size + c[k + 1].size)
            else c[j + 1]
  {
  }

  lemma LinkClose(ptr: map<nat, nat>, size: map<nat, nat>, c: seq<Block>, i: nat)
    requires Linked(ptr, size, c, i) && Rising(c) && i + 1 < |c|
    ensures Linked(ptr[c[i].addr := c[i + 1].addr], size, c, -1)
  {
    forall j | 0 <= j < |c| ensures HeaderOk(ptr[c[i].addr := c[i + 1].addr], size, c[j], Next(c, j), false) {
      assert HeaderOk(ptr, size, c[j], Next(c, j), j == i);
    }
  }

  /** Headers of blocks outside the list do not matter. */
  lemma LinkElsewhere(ptr: map<nat, nat>, size: map<nat, nat>, bs: seq<Block>, a: nat, n: nat)
    requires Linked(ptr, size, bs, -1) && forall i :: 0 <= i < |bs| ==> bs[i].addr != a
    ensures Linked(ptr, size[a := n], bs, -1)
  {
  }

  /** Unlinking block j (umalloc.c:77). */
  lemma LinkRemove(ptr: map<nat, nat>, size: map<nat, nat>, bs: seq<Block>, j: nat)
    requires Linked(ptr, size, bs, -1) && Rising(bs) && 0 < j < |bs|
    ensures bs[j].addr in ptr && Linked(ptr[bs[j - 1].addr := ptr[bs[j].addr]], size, bs[..j] + bs[j + 1..], -1)
  {
    hide Rising;
    HeaderAt(ptr, size, bs, -1, j);
    var r, q := bs[..j] + bs[j + 1..], ptr[bs[j - 1].addr := ptr[bs[j].addr]];
    forall i | 0 <= i < |r| ensures HeaderOk(q, size, r[i], Next(r, i), false) {
      var k := if i >= j then i + 1 else i;
      HeaderAt(ptr, size, bs, -1, k);
      RemovedNext(bs, j, i);
      if i != j - 1 { RisingAt(bs, k, j - 1); }
    }
  }

  lemma RemovedNext(bs: seq<Block>, j: nat, i: nat)
    requires 0 < j < |bs| && i < |bs| - 1
    ensures var r, k := bs[..j] + bs[j + 1..], if i >= j then i + 1 else i;
            r[i] == bs[k] && Next(r, i) == if i == j - 1 then Next(bs, j) else Next(bs, k)
  {
  }

  lemma LinkShrink(ptr: map<nat, nat>, size: map<nat, nat>, bs: seq<Block>, j: nat, n: nat)
    requires Linked(ptr, size, bs, -1) && Rising(bs) && j < |bs| && n <= bs[j].size
    ensures Linked(ptr, size[bs[j].addr := bs[j].size - n], bs[j := Block(bs[j].addr, bs[j].size - n)], -1)
  {
    var r := bs[j := Block(bs[j].addr, bs[j].size - n)];
    forall i | 0 <= i < |r| ensures HeaderOk(ptr, size[bs[j].addr := bs[j].size - n], r[i], Next(r, i), false) {
      assert HeaderOk(ptr, size, bs[i], Next(bs, i), false) && Next(r, i) == Next(bs, i);
      assert i != j ==> bs[i].addr != bs[j].addr;
    }
  }

  lemma FindBefore(bs: seq<Block>, a: nat, n: nat) returns (i: nat)
    requires Rising(bs) && 0 < n <= |bs| && bs[0].addr < a && forall j :: 0 <= j < |bs| ==> bs[j].addr != a
    requires n < |bs| ==> a < bs[n].addr
    ensures Before(bs, i, a)
  {
    i := n - 1;
    if bs[i].addr > a { i := FindBefore(bs, a, n - 1); }
  }

  // ------------------------------------------------------------ requests

  /** Header units for a request: the payload rounded up, and the header. */
  function UnitsFor(nbytes: nat): (n: nat)
    ensures n > 0 && (n - 1) * HEADER >= nbytes && (n - 1) * HEADER < nbytes + HEADER
  {
    (nbytes + HEADER - 1) / HEADER + 1
  }

  /** The units morecore links in for a request of nunits. */
  function CoreUnits(nunits: nat): (r: nat)
    ensures r >= nunits
  {
    if nunits < CORE then CORE else nunits
  }

  /** The units sbrk adds from `a` on: it is asked for bytes as an int (umalloc.c:54), and
      nothing is added when that is not positive. */
  function SbrkGave(a: nat, nunits: nat): set<nat> {
    var n := ToInt(HEADER * CoreUnits(nunits));
    if n > 0 then Units(a, n / HEADER) else {}
  }

  /** The block malloc hands out after growing lies in the memory sbrk added exactly when
      the request is at most 0x7FFF_FFE0 bytes. */
  lemma BackedExactly(nbytes: nat, a: nat)
    requires nbytes < TWO32
    ensures var n := UnitsFor(nbytes);
            Units(a + CoreUnits(n) - n, n) <= SbrkGave(a, n) <==> nbytes <= 0x7FFF_FFE0
  {
    hide Units, ToInt;
    var n := UnitsFor(nbytes);
    var nu := CoreUnits(n);
    AskedFor(nu);
    if nbytes <= 0x7FFF_FFE0 {
      forall u | u in Units(a + nu - n, n) ensures u in Units(a, nu) {
        UnitsAre(a + nu - n, n, u);
        UnitsAre(a, nu, u);
      }
    } else {
      UnitsAre(a, n, a + 1);
      UnitsAre(a, 1, a + 1);
      NoUnits(a);
    }
  }

  lemma AskedFor(nu: nat)
    requires nu <= 0x1000_0001
    ensures nu < 0x800_0000 ==> ToInt(HEADER * nu) == HEADER * nu
    ensures 0x800_0000 <= nu <= 0x1000_0000 ==> ToInt(HEADER * nu) <= 0
    ensures nu == 0x1000_0001 ==> ToInt(HEADER * nu) == HEADER
  {
  }

  lemma NoUnits(a: nat)
    ensures Units(a, 0) == {} && Units(a, 1) == {a}
  {
  }

  /** malloc(0xFFFFFFFF) takes a block of 2^28 + 1 units, of which sbrk gave one. */
  lemma LargestRequest(a: nat)
    ensures UnitsFor(0xFFFF_FFFF) == CoreUnits(0x1000_0001) == 0x1000_0001
    ensures SbrkGave(a, 0x1000_0001) == {a}
  {
    hide Units, ToInt;
    AskedFor(0x1000_0001);
    NoUnits(a);
  }

  // ------------------------------------------------------------ the allocator

  /** Live headers keep their sizes. */
  ghost predicate SizesOk(size: map<nat, nat>, live: map<nat, nat>) {
    forall a: nat :: a in live ==> a in size && size[a] == live[a]
  }

  /** The links and sizes after free has merged bp with its right neighbour. */
  ghost predicate HalfFreed(ptr: map<nat, nat>, size: map<nat, nat>, h: Heap, i: nat, bp: nat) {
    && bp in h.live && Before(h.bs, i, bp)
    && Linked(ptr, size, Right(h.bs, i, Block(bp, h.live[bp])), i)
    && SizesOk(size, h.live - {bp})
  }

  class Allocator {
    /** Where the static header lies; sbrk memory is above it. */
    const base: nat
    var freep: nat
    var ptr: map<nat, nat>
    var size: map<nat, nat>
    ghost var h: Heap
    /** The place of freep in the list. */
    ghost var at: nat

    ghost predicate Valid()
      reads this
    {
      && base > 0 && HeapOk(h, base) && SizesOk(size, h.live)
      && if freep == 0 then h.live == map[] && h.bs == [Block(base, 0)] else Ready()
    }

    ghost predicate Ready()
      reads this
    {
      at < |h.bs| && freep == h.bs[at].addr && Linked(ptr, size, h.bs, -1)
    }

    constructor (base0: nat, top: nat)
      requires 0 < base0 < top
      ensures Valid() && base == base0 && h == Heap([Block(base0, 0)], map[], {}, top)
    {
      base, freep, ptr, size, at := base0, 0, map[], map[], 0;
      h := Heap([Block(base0, 0)], map[], {}, top);
      EmptyHeap(base0, top);
    }

    /** The search loop of free (umalloc.c:30-32) ends at the last block below bp. */
    method FindSpot(bp: nat) returns (p: nat, ghost i: nat)
      requires Valid() && freep != 0 && bp in h.live
      ensures Before(h.bs, i, bp) && i < |h.bs| && p == h.bs[i].addr > 0
    {
      hide HeapOk, Clear, Linked, SizesOk, Ordered;
      LiveClear(h, base, bp);
      HeapList(h, base);
      ghost var t := FindBefore(h.bs, bp, |h.bs|);
      p, i := freep, at;
      HeaderAt(ptr, size, h.bs, -1, i);
      while !(bp > p && bp < ptr[p])
        invariant i < |h.bs| && p == h.bs[i].addr && HeaderOk(ptr, size, h.bs[i], Next(h.bs, i), false)
        decreases if i <= t then t - i else |h.bs| - i + t
      {
        if p >= ptr[p] && (bp > p || bp < ptr[p]) {
          AtEnd(h.bs, i, bp);
          return;
        }
        NotThere(h.bs, i, t, bp);
        i := if i + 1 < |h.bs| then i + 1 else 0;
        p := ptr[p];
        HeaderAt(ptr, size, h.bs, -1, i);
      }
      Within(h.bs, i, bp);
    }

    /** free (umalloc.c:24-44). */
    method FreeBlock(bp: nat)
      requires Valid() && freep != 0 && bp in h.live
      modifies this`freep, this`ptr, this`size, this`h, this`at
      ensures Valid() && freep != 0 && at < |old(h).bs| && Before(old(h).bs, at, bp) && h == Freed(old(h), at, bp)
    {
      hide HeapOk, Linked, Before, SizesOk, Insert, Right, Rising;
      ghost var g := h;
      var p; ghost var i;
      p, i := FindSpot(bp);
      FreedOk(g, base, i, bp);
      FreeReads(ptr, size, g, base, i, bp);
      if bp + size[bp] == ptr[p] {
        ghost var q, z := ptr, size;
        ptr, size := ptr[bp := ptr[ptr[p]]], size[bp := size[bp] + size[ptr[p]]];
        FreeJoins(q, z, g.bs, i, Block(bp, g.live[bp]), ptr, size);
        SizesElse(z, g.live, bp, size[bp]);
      } else {
        FreePoints(ptr, size, g.bs, i, Block(bp, g.live[bp]));
        SizesElse(size, g.live, bp, 0);
        ptr := ptr[bp := ptr[p]];
      }
      FreeLeft(ptr, size, g, base, i, bp);
      if p + size[p] == bp {
        ptr, size := ptr[p := ptr[bp]], size[p := size[p] + size[bp]];
      } else {
        ptr := ptr[p := bp];
      }
      freep := p;
      h, at := Freed(g, i, bp), i;
    }

    /** morecore (umalloc.c:46-61); `got` is what sbrk returns: memory above all it gave
        before, or nothing. */
    method Morecore(nunits: nat, got: Option<nat>) returns (r: nat)
      requires Valid() && freep != 0 && nunits > 0 && (got.Some? ==> got.value >= h.top)
      modifies this`freep, this`ptr, this`size, this`h, this`at
      ensures Valid() && freep != 0
      ensures r == 0 <==> got.None?
      ensures r == 0 ==> h == old(h) && freep == old(freep) && at == old(at) && ptr == old(ptr) && size == old(size)
      ensures r != 0 ==> r == freep && h.live == old(h.live) && HasFit(h.bs, nunits)
      ensures r != 0 ==> h.core == old(h.core) + Units(got.value, CoreUnits(nunits))
      ensures r != 0 && !HasFit(old(h.bs), nunits) ==> FitsAtEnd(h.bs, nunits, got.value + CoreUnits(nunits))
    {
      hide HeapOk, Linked, SizesOk, Insert, Before, Units, FitsAtEnd;
      var nu := if nunits < CORE then CORE else nunits;
      if got.None? { return 0; }
      var hp := got.value;
      AboveAll(h, base, hp);
      GrownOk(h, base, hp, nu);
      LinkElsewhere(ptr, size, h.bs, hp, nu);
      SizesMore(size, h.live, hp, nu);
      ghost var g := h;
      size := size[hp := nu];
      h := Grown(h, hp, nu);
      FreeBlock(hp);
      InsertFits(g.bs, at, Block(hp, nu), nunits);
      if !HasFit(g.bs, nunits) { InsertAtEnd(g.bs, at, Block(hp, nu), nunits); }
      assert g.live[hp := nu] - {hp} == g.live;
      r := freep;
    }

    /** The list before the first allocation (umalloc.c:70-73): the static header alone. */
    method FirstCall()
      requires Valid() && freep == 0
      modifies this`freep, this`ptr, this`size, this`at
      ensures Valid() && freep != 0 && at == 0
    {
      hide HeapOk, Linked, SizesOk;
      ptr, size := ptr[base := base], size[base := 0];
      freep := base;
      at := 0;
      FirstLink(ptr, size, base);
    }

    /** malloc (umalloc.c:63-90): the search goes once around the list, asks for more core
        at most once, and then succeeds within one more round. */
    method Alloc(nbytes: nat, got: Option<nat>) returns (r: Option<nat>)
      requires Valid() && (got.Some? ==> got.value >= h.top)
      modifies this`freep, this`ptr, this`size, this`h, this`at
      ensures Valid() && freep != 0
      ensures r.None? <==> got.None? && !HasFit(old(h.bs), UnitsFor(nbytes))
      ensures r.Some? ==> r.value !in old(h.live) && h.live == old(h.live)[r.value := UnitsFor(nbytes)]
      ensures r.Some? && HasFit(old(h.bs), UnitsFor(nbytes)) ==>
                FromList(old(h), if old(freep) == 0 then 0 else old(at), h, at, UnitsFor(nbytes), r.value)
      ensures r.Some? && !HasFit(old(h.bs), UnitsFor(nbytes)) ==>
                FromCore(old(h), h, UnitsFor(nbytes), got.value, r.value)
      ensures r.None? ==> h == old(h)
    {
      hide HeapOk, Linked, SizesOk, Searching, HasFit, GrownFor, Units, FitsAtEnd, Take, Taken, Given, FromList,
           FromCore, CoreUnits;
      var nunits := (nbytes + HEADER - 1) / HEADER + 1;
      if freep == 0 { FirstCall(); }
      var prevp := freep;
      HeaderAt(ptr, size, h.bs, -1, at);
      var p: nat := ptr[prevp];
      ghost var j: nat := After(h.bs, at);
      ghost var grown, h0, at0 := false, h, at;
      StartSearch(h.bs, at, nunits);
      while true
        invariant Valid() && freep != 0 && j < |h.bs| && Searching(h.bs, at, j, nunits, p, prevp)
        invariant if grown then got.Some? && GrownFor(h0, h, nunits, got.value) else h == h0 && at == at0
        decreases !grown, Distance(h.bs, at, j)
      {
        AtBlock(h, base, ptr, size, at, j, nunits, p, prevp);
        if size[p] >= nunits {
          FoundFit(h0, h, at0, at, j, nunits, grown, if got.Some? then got.value else 0, p, prevp);
          var a := Carve(p, prevp, nunits, j);
          freep := prevp;
          at := j - 1;
          return Some(a);
        }
        if p == freep {
          SearchedAll(h, base, at, j, nunits, p, prevp);
          if grown {
            GrownFits(h0, h, nunits, got.value);
            assert false;
          }
          p := Morecore(nunits, got);
          if p == 0 { return None; }
          NowGrown(h0, h, nunits, got.value);
          grown, j := true, at;
        }
        HeaderAt(ptr, size, h.bs, -1, j);
        MoveOn(h.bs, at, j, nunits, p, prevp);
        j := After(h.bs, j);
        prevp, p := p, ptr[p];
      }
    }

    /** Taking nunits from the block at p (umalloc.c:76-83). */
    method Carve(p: nat, prevp: nat, nunits: nat, ghost j: nat) returns (a: nat)
      requires Valid() && freep != 0 && 0 < j < |h.bs| && p == h.bs[j].addr && prevp == h.bs[j - 1].addr
      requires 0 < nunits <= h.bs[j].size
      modifies this`ptr, this`size, this`h
      ensures h == Given(old(h), j, nunits) && a == Taken(old(h).bs, j, nunits).addr && a !in old(h).live
      ensures HeapOk(h, base) && SizesOk(size, h.live) && Linked(ptr, size, h.bs, -1) && |h.bs| >= j
              && h.bs[j - 1].addr == prevp
    {
      hide HeapOk, Linked, SizesOk;
      ghost var g := h;
      HeaderAt(ptr, size, g.bs, -1, j);
      GivenOk(g, base, j, nunits);
      HeapRising(g, base);
      CarveSizes(size, g, base, j, nunits);
      if size[p] == nunits {
        LinkRemove(ptr, size, g.bs, j);
        ptr := ptr[prevp := ptr[p]];
        a := p;
      } else {
        LinkShrink(ptr, size, g.bs, j, nunits);
        InsideBlock(g, base, j, nunits);
        size := size[p := size[p] - nunits];
        a := p + size[p];
        LinkElsewhere(ptr, size, Take(g.bs, j, nunits), a, nunits);
        size := size[a := nunits];
      }
      h := Given(g, j, nunits);
    }
  }

  ghost predicate HasFit(bs: seq<Block>, n: nat) {
    exists i :: 0 <= i < |bs| && bs[i].size >= n
  }

  function After(bs: seq<Block>, i: nat): (r: nat)
    requires i < |bs|
    ensures r < |bs| && bs[r].addr == Next(bs, i)
  {
    if i + 1 < |bs| then i + 1 else 0
  }

  /** Block i was looked at since the search left block `at`, now being at block j. */
  predicate Passed(at: nat, j: nat, i: nat) {
    if j > at then at < i < j else i > at || i < j
  }

  /** malloc is looking at block j; no block it passed was big enough. */
  ghost predicate Searching(bs: seq<Block>, at: nat, j: nat, n: nat, p: nat, prevp: nat) {
    && at < |bs| && j < |bs| && p == bs[j].addr && prevp == bs[if j > 0 then j - 1 else |bs| - 1].addr
    && forall i: nat :: i < |bs| && Passed(at, j, i) ==> bs[i].size < n
  }

  /** Blocks left to look at. */
  function Distance(bs: seq<Block>, at: nat, j: nat): int {
    if j <= at then at - j else |bs| - j + at
  }

  /** The first block behind block `at`, going round, that is big enough. */
  ghost predicate NextFit(bs: seq<Block>, at: nat, j: nat, n: nat) {
    j < |bs| && bs[j].size >= n && forall i: nat :: i < |bs| && Passed(at, j, i) ==> bs[i].size < n
  }

  /** Heap g is h with the n units from a on, the end of block j, handed out. */
  ghost predicate GivenFrom(h: Heap, g: Heap, j: nat, n: nat, a: nat) {
    j < |h.bs| && n <= h.bs[j].size && g == Given(h, j, n) && a + n == h.bs[j].End()
  }

  /** The n units from a on are the end of the first block behind block `at` that is big
      enough; the next search starts before it. */
  ghost predicate FromList(h: Heap, at: nat, g: Heap, now: nat, n: nat, a: nat) {
    exists j: nat :: NextFit(h.bs, at, j, n) && j == now + 1 && GivenFrom(h, g, j, n, a)
  }

  /** They are the end of new core. */
  ghost predicate FromCore(h: Heap, g: Heap, n: nat, core: nat, a: nat) {
    g.core == h.core + Units(core, CoreUnits(n)) && a + n == core + CoreUnits(n)
  }

  /** Only a block that ends at `end` is big enough. */
  ghost predicate FitsAtEnd(bs: seq<Block>, n: nat, end: nat) {
    forall i :: 0 <= i < |bs| && bs[i].size >= n ==> bs[i].End() == end
  }

  /** morecore was called because nothing fitted, and now only the block with the new units does. */
  ghost predicate GrownFor(h0: Heap, h: Heap, n: nat, a: nat) {
    && HasFit(h.bs, n) && !HasFit(h0.bs, n) && h.live == h0.live && h.core == h0.core + Units(a, CoreUnits(n))
    && FitsAtEnd(h.bs, n, a + CoreUnits(n))
  }

  lemma NowGrown(h0: Heap, h: Heap, n: nat, a: nat)
    requires HasFit(h.bs, n) && !HasFit(h0.bs, n) && h.live == h0.live && h.core == h0.core + Units(a, CoreUnits(n))
    requires FitsAtEnd(h.bs, n, a + CoreUnits(n))
    ensures GrownFor(h0, h, n, a)
  {
  }

  lemma GrownFits(h0: Heap, h: Heap, n: nat, a: nat)
    requires GrownFor(h0, h, n, a)
    ensures HasFit(h.bs, n)
  {
  }

  lemma StartSearch(bs: seq<Block>, at: nat, n: nat)
    requires at < |bs|
    ensures Searching(bs, at, After(bs, at), n, Next(bs, at), bs[at].addr)
  {
  }

  lemma AtBlock(h: Heap, base: nat, ptr: map<nat, nat>, size: map<nat, nat>, at: nat, j: nat, n: nat, p: nat,
                prevp: nat)
    requires HeapOk(h, base) && base > 0 && Linked(ptr, size, h.bs, -1) && Searching(h.bs, at, j, n, p, prevp) && n > 0
    ensures p in size && p in ptr && j < |h.bs| && p == h.bs[j].addr && size[p] == h.bs[j].size && prevp > 0 && p > 0
    ensures size[p] >= n ==> j > 0 && prevp == h.bs[j - 1].addr
  {
    HeapRising(h, base);
    HeaderAt(ptr, size, h.bs, -1, j);
    assert forall i :: 0 <= i < |h.bs| ==> h.bs[i].addr > 0;
  }

  lemma FoundFit(h0: Heap, h: Heap, at0: nat, at: nat, j: nat, n: nat, grown: bool, a: nat, p: nat, prevp: nat)
    requires 0 < j < |h.bs| && h.bs[j].size >= n && Searching(h.bs, at, j, n, p, prevp)
    requires if grown then GrownFor(h0, h, n, a) else h == h0 && at == at0
    ensures h.live == h0.live && (grown <==> !HasFit(h0.bs, n))
    ensures Given(h, j, n).live == h0.live[Taken(h.bs, j, n).addr := n]
    ensures var x := Taken(h.bs, j, n).addr;
            if grown then FromCore(h0, Given(h, j, n), n, a, x) else FromList(h0, at0, Given(h, j, n), j - 1, n, x)
  {
    hide Units, CoreUnits;
    if !grown { assert NextFit(h0.bs, at0, j, n) && GivenFrom(h0, Given(h, j, n), j, n, Taken(h.bs, j, n).addr); }
  }

  /** All blocks were looked at, and none was big enough. */
  lemma SearchedAll(h: Heap, base: nat, at: nat, j: nat, n: nat, p: nat, prevp: nat)
    requires HeapOk(h, base) && Searching(h.bs, at, j, n, p, prevp) && p == h.bs[at].addr && h.bs[j].size < n
    ensures j == at && !HasFit(h.bs, n)
  {
    HeapRising(h, base);
    hide HeapOk;
    if j != at { RisingAt(h.bs, j, at); }
  }

  lemma MoveOn(bs: seq<Block>, at: nat, j: nat, n: nat, p: nat, prevp: nat)
    requires at < |bs| && j < |bs| && p == bs[j].addr
    requires j != at ==> Searching(bs, at, j, n, p, prevp) && bs[j].size < n
    ensures Searching(bs, at, After(bs, j), n, Next(bs, j), p)
    ensures j != at ==> Distance(bs, at, After(bs, j)) < Distance(bs, at, j)
  {
  }

  lemma AboveAll(h: Heap, base: nat, a: nat)
    requires HeapOk(h, base) && a >= h.top
    ensures a !in h.live && forall i :: 0 <= i < |h.bs| ==> h.bs[i].addr < a
  {
    if a in h.live { LiveUnits(h, base, a, a); }
    forall i | 0 <= i < |h.bs| ensures h.bs[i].addr < a {
      if i > 0 { assert h.bs[i].Has(h.bs[i].addr); assert h.bs[i].addr in h.core; }
    }
  }

  lemma SizesMore(size: map<nat, nat>, live: map<nat, nat>, a: nat, n: nat)
    requires SizesOk(size, live) && a !in live
    ensures SizesOk(size[a := n], live[a := n])
  {
  }

  lemma InsertFits(bs: seq<Block>, i: nat, b: Block, n: nat)
    requires i < |bs| && b.size >= n
    ensures HasFit(Insert(bs, i, b), n)
  {
    var c := Right(bs, i, b);
    assert c[i + 1].size >= n;
    if Touch(c, i) { assert Merge(c, i)[i].size >= n; }
  }

  /** Blocks that do not fit stay so, but for the one b is joined to at the end of the list. */
  lemma InsertAtEnd(bs: seq<Block>, i: nat, b: Block, n: nat)
    requires Before(bs, i, b.addr) && !HasFit(bs, n) && forall j :: 0 <= j < |bs| ==> bs[j].addr < b.addr
    ensures FitsAtEnd(Insert(bs, i, b), n, b.End())
  {
    var c := Put(bs, i, b);
    assert i == |bs| - 1 && Right(bs, i, b) == c;
    forall j | 0 <= j < |bs| ensures c[j].size < n {
      assert c[j] == bs[j];
    }
  }

  lemma FirstLink(ptr: map<nat, nat>, size: map<nat, nat>, base: nat)
    requires base in ptr && ptr[base] == base && base in size && size[base] == 0
    ensures Linked(ptr, size, [Block(base, 0)], -1) && SizesOk(size, map[])
  {
  }

  lemma HeapRising(h: Heap, base: nat)
    requires HeapOk(h, base)
    ensures Rising(h.bs)
  {
    OrderedRising(h.bs);
  }

  lemma CarveSizes(size: map<nat, nat>, h: Heap, base: nat, j: nat, n: nat)
    requires HeapOk(h, base) && SizesOk(size, h.live) && 0 < j < |h.bs| && 0 < n <= h.bs[j].size
    requires h.bs[j].addr in size && size[h.bs[j].addr] == h.bs[j].size
    ensures var a := Taken(h.bs, j, n).addr;
            && (h.bs[j].size == n ==> SizesOk(size, h.live[a := n]))
            && (h.bs[j].size > n ==> SizesOk(size[h.bs[j].addr := h.bs[j].size - n][a := n], h.live[a := n]))
  {
    hide HeapOk;
    ListNotLive(h, base, j);
  }

  /** The header of a block's tail is nobody else's. */
  lemma InsideBlock(h: Heap, base: nat, j: nat, n: nat)
    requires HeapOk(h, base) && j < |h.bs| && 0 < n < h.bs[j].size
    ensures forall i :: 0 <= i < |h.bs| ==> h.bs[i].addr != h.bs[j].End() - n
    ensures forall i :: 0 <= i < |Take(h.bs, j, n)| ==> Take(h.bs, j, n)[i].addr != h.bs[j].End() - n
  {
    hide Shared, LiveApart;
    forall i | 0 <= i < |h.bs| ensures h.bs[i].addr != h.bs[j].End() - n {
      if i < j { assert h.bs[i].End() <= h.bs[j].addr; }
      if i > j { assert h.bs[j].End() <= h.bs[i].addr; }
    }
  }

  lemma EmptyHeap(base: nat, top: nat)
    requires 0 < base < top
    ensures HeapOk(Heap([Block(base, 0)], map[], {}, top), base)
  {
    forall u: nat ensures !InFree([Block(base, 0)], u) && !InLive(map[], u) {
    }
  }

  lemma AtEnd(bs: seq<Block>, i: nat, a: nat)
    requires Rising(bs) && i < |bs| && bs[0].addr < a && bs[i].addr >= Next(bs, i)
             && (a > bs[i].addr || a < Next(bs, i))
    ensures Before(bs, i, a)
  {
  }

  lemma Within(bs: seq<Block>, i: nat, a: nat)
    requires i < |bs| && bs[i].addr < a < Next(bs, i) && bs[0].addr < a
    ensures Before(bs, i, a)
  {
  }

  /** The loop has not reached the place t it looks for. */
  lemma NotThere(bs: seq<Block>, i: nat, t: nat, a: nat)
    requires Rising(bs) && i < |bs| && Before(bs, t, a) && bs[0].addr < a && !(a > bs[i].addr && a < Next(bs, i))
    requires !(bs[i].addr >= Next(bs, i) && (a > bs[i].addr || a < Next(bs, i)))
    ensures i != t
  {
  }

  /** What free reads of the headers around bp. */
  lemma FreeReads(ptr: map<nat, nat>, size: map<nat, nat>, h: Heap, base: nat, i: nat, bp: nat)
    requires HeapOk(h, base) && bp in h.live && Before(h.bs, i, bp) && Linked(ptr, size, h.bs, -1)
             && SizesOk(size, h.live)
    ensures bp in size && size[bp] == h.live[bp] && h.bs[i].addr in ptr && ptr[h.bs[i].addr] == Next(h.bs, i)
    ensures Next(h.bs, i) in ptr && Next(h.bs, i) in size && bp > h.bs[0].addr && Rising(h.bs)
  {
    LiveClear(h, base, bp);
    HeapRising(h, base);
    HeaderAt(ptr, size, h.bs, -1, i);
    HeaderAt(ptr, size, h.bs, -1, if i + 1 < |h.bs| then i + 1 else 0);
  }

  lemma RightIs(bs: seq<Block>, i: nat, b: Block)
    requires Before(bs, i, b.addr) && bs[0].addr < b.addr
    ensures b.End() == Next(bs, i) ==> i + 1 < |bs| && bs[i + 1].addr == Next(bs, i)
    ensures b.End() == Next(bs, i) ==> Right(bs, i, b) == Merge(Put(bs, i, b), i + 1)
    ensures b.End() != Next(bs, i) ==> Right(bs, i, b) == Put(bs, i, b)
  {
    hide Merge;
    TouchRight(bs, i, b);
  }

  /** The first half of free (umalloc.c:33-37): bp takes over the block it touches, */
  lemma FreeJoins(ptr: map<nat, nat>, size: map<nat, nat>, bs: seq<Block>, i: nat, b: Block, ptr1: map<nat, nat>,
                  size1: map<nat, nat>)
    requires Linked(ptr, size, bs, -1) && Rising(bs) && Before(bs, i, b.addr) && bs[0].addr < b.addr
    requires b.addr in size && size[b.addr] == b.size && b.End() == Next(bs, i) && Next(bs, i) in ptr
             && Next(bs, i) in size
    requires ptr1 == ptr[b.addr := ptr[Next(bs, i)]] && size1 == size[b.addr := b.size + size[Next(bs, i)]]
    ensures Linked(ptr1, size1, Right(bs, i, b), i)
  {
    hide Linked, Rising, Put, Merge, Right, Before, Next;
    RightIs(bs, i, b);
    LinkRight(ptr, size, bs, i, b, ptr1, size1);
  }

  /** or only points to the next one. */
  lemma FreePoints(ptr: map<nat, nat>, size: map<nat, nat>, bs: seq<Block>, i: nat, b: Block)
    requires Linked(ptr, size, bs, -1) && Rising(bs) && Before(bs, i, b.addr) && bs[0].addr < b.addr
    requires b.addr in size && size[b.addr] == b.size && b.End() != Next(bs, i)
    ensures Linked(ptr[b.addr := Next(bs, i)], size, Right(bs, i, b), i)
  {
    hide Linked, Rising, Put, Merge, Right, Before, Next;
    RightIs(bs, i, b);
    LinkPut(ptr, size, bs, i, b);
  }

  lemma SizesElse(size: map<nat, nat>, live: map<nat, nat>, a: nat, n: nat)
    requires SizesOk(size, live)
    ensures SizesOk(size[a := n], live - {a})
    ensures SizesOk(size, live - {a})
  {
  }

  lemma LinkRight(ptr: map<nat, nat>, size: map<nat, nat>, bs: seq<Block>, i: nat, b: Block, ptr1: map<nat, nat>,
                  size1: map<nat, nat>)
    requires Linked(ptr, size, bs, -1) && Rising(bs) && Before(bs, i, b.addr) && b.addr in size
             && size[b.addr] == b.size
    requires i + 1 < |bs| && bs[i + 1].addr == b.End() && bs[i + 1].addr in ptr && bs[i + 1].addr in size
    requires ptr1 == ptr[b.addr := ptr[bs[i + 1].addr]] && size1 == size[b.addr := b.size + size[bs[i + 1].addr]]
    ensures Linked(ptr1, size1, Merge(Put(bs, i, b), i + 1), i)
  {
    hide Linked, Merge;
    var n: nat := bs[i + 1].addr;
    var q := ptr[b.addr := n];
    var c := Put(bs, i, b);
    assert n != b.addr && c[i + 1] == b && c[i + 2] == bs[i + 1];
    assert q[b.addr := q[n]] == ptr1;
    PutRising(bs, i, b);
    LinkPut(ptr, size, bs, i, b);
    LinkMerge(q, size, c, i + 1, i);
  }

  lemma TouchRight(bs: seq<Block>, i: nat, b: Block)
    requires i < |bs| && bs[0].addr < b.addr
    ensures |Put(bs, i, b)| == |bs| + 1 && Put(bs, i, b)[i + 1] == b
    ensures Touch(Put(bs, i, b), i + 1) <==> b.End() == Next(bs, i)
    ensures Touch(Put(bs, i, b), i + 1) ==> i + 1 < |bs| && Put(bs, i, b)[i + 2] == bs[i + 1]
  {
  }

  /** The second half of free (umalloc.c:38-42). */
  lemma FreeLeft(ptr: map<nat, nat>, size: map<nat, nat>, h: Heap, base: nat, i: nat, bp: nat)
    requires HeapOk(h, base) && HalfFreed(ptr, size, h, i, bp)
    ensures var p: nat, bs: seq<Block> := h.bs[i].addr, Insert(h.bs, i, Block(bp, h.live[bp]));
            && p in size && bp in size && bp in ptr && i < |bs| && bs[i].addr == p
            && (p + size[p] == bp ==>
                  Linked(ptr[p := ptr[bp]], size[p := size[p] + size[bp]], bs, -1)
                      && SizesOk(size[p := size[p] + size[bp]], h.live - {bp}))
            && (p + size[p] != bp ==> Linked(ptr[p := bp], size, bs, -1) && SizesOk(size, h.live - {bp}))
  {
    hide HeapOk, Linked, Rising, Clear, Sorted, Ordered;
    LiveClear(h, base, bp);
    HeapList(h, base);
    var b := Block(bp, h.live[bp]);
    RightSorted(h.bs, i, b);
    var c := Right(h.bs, i, b);
    PutRising(h.bs, i, b);
    if Touch(Put(h.bs, i, b), i + 1) { MergeRising(Put(h.bs, i, b), i + 1); }
    ListNotLive(h, base, i);
    HeaderAt(ptr, size, c, i, i);
    HeaderAt(ptr, size, c, i, i + 1);
    assert Touch(c, i) <==> h.bs[i].addr + size[h.bs[i].addr] == bp;
    if Touch(c, i) { LinkMerge(ptr, size, c, i, i); } else { LinkClose(ptr, size, c, i); }
  }

  lemma ListNotLive(h: Heap, base: nat, i: nat)
    requires HeapOk(h, base) && i < |h.bs|
    ensures h.bs[i].addr !in h.live
  {
    hide HeapOk;
    if h.bs[i].addr in h.live { LiveClear(h, base, h.bs[i].addr); }
  }
}

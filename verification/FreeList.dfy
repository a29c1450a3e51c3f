/** The free list of the user-level allocator as a value: an address-ordered sequence of
    blocks that starts with the static header `base` (umalloc.c). Addresses and sizes are
    in units of one header. */
module FreeList {

  datatype Block = Block(addr: nat, size: nat) {
    function End(): nat {
      addr + size
    }

    predicate Has(u: nat) {
      addr <= u < End()
    }
  }

  /** In address order and disjoint; only base, the first, is empty. */
  ghost predicate Sorted(bs: seq<Block>) {
    && bs != [] && bs[0].size == 0
    && (forall i :: 1 <= i < |bs| ==> bs[i].size > 0)
    && (forall i, j :: 0 <= i < j < |bs| ==> bs[i].End() <= bs[j].addr)
  }

  /** Blocks i and i + 1 do not touch. */
  predicate Gap(bs: seq<Block>, i: nat)
    requires i < |bs|
  {
    i + 1 < |bs| ==> bs[i].End() < bs[i + 1].addr
  }

  /** The free list at rest: sorted, and no two blocks adjacent. */
  ghost predicate Ordered(bs: seq<Block>) {
    Sorted(bs) && forall i :: 0 <= i < |bs| ==> Gap(bs, i)
  }

  /** Unit u lies in one of the blocks. */
  ghost predicate InFree(bs: seq<Block>, u: nat) {
    exists i :: 0 <= i < |bs| && bs[i].Has(u)
  }

  /** Block i is the last one below address a. */
  ghost predicate Before(bs: seq<Block>, i: nat, a: nat) {
    i < |bs| && bs[i].addr < a && (i + 1 < |bs| ==> a < bs[i + 1].addr)
  }

  /** b overlaps no free block. */
  ghost predicate Clear(bs: seq<Block>, b: Block) {
    forall i :: 0 <= i < |bs| ==> b.End() <= bs[i].addr || bs[i].End() <= b.addr
  }

  // ------------------------------------------------------------ linking in and merging

  /** b behind block i. */
  function Put(bs: seq<Block>, i: nat, b: Block): (r: seq<Block>)
    requires i < |bs|
    ensures |r| == |bs| + 1
    ensures forall j :: 0 <= j < |r| ==> r[j] == if j <= i then bs[j] else if j == i + 1 then b else bs[j - 1]
  {
    bs[..i + 1] + [b] + bs[i + 1..]
  }

  /** Blocks i and i + 1 become one. */
  function Merge(bs: seq<Block>, i: nat): (r: seq<Block>)
    requires i + 1 < |bs|
    ensures |r| == |bs| - 1
    ensures forall j :: 0 <= j < |r| ==>
              r[j] == if j < i then bs[j] else if j == i then Block(bs[i].addr, bs[i].size + bs[i + 1].size)
                  else bs[j + 1]
  {
    bs[..i] + [Block(bs[i].addr, bs[i].size + bs[i + 1].size)] + bs[i + 2..]
  }

  predicate Touch(bs: seq<Block>, i: nat)
    requires i < |bs|
  {
    i + 1 < |bs| && bs[i].End() == bs[i + 1].addr
  }

  lemma PutSorted(bs: seq<Block>, i: nat, b: Block)
    requires Sorted(bs) && Before(bs, i, b.addr) && b.size > 0 && Clear(bs, b)
    ensures Sorted(Put(bs, i, b))
  {
    var r := Put(bs, i, b);
    forall j, k | 0 <= j < k < |r| ensures r[j].End() <= r[k].addr {
      if j == i + 1 { assert b.End() <= bs[k - 1].addr by { LaterBlock(bs, i, b, k - 1); } }
      if k == i + 1 { assert bs[j].End() <= b.addr by { EarlierBlock(bs, i, b, j); } }
    }
  }

  lemma LaterBlock(bs: seq<Block>, i: nat, b: Block, k: nat)
    requires Sorted(bs) && Before(bs, i, b.addr) && Clear(bs, b) && i < k < |bs|
    ensures b.End() <= bs[k].addr
  {
    if k > i + 1 { assert bs[i + 1].End() <= bs[k].addr; }
  }

  lemma EarlierBlock(bs: seq<Block>, i: nat, b: Block, j: nat)
    requires Sorted(bs) && Before(bs, i, b.addr) && Clear(bs, b) && j <= i && b.size > 0
    ensures bs[j].End() <= b.addr
  {
    if j < i { assert bs[j].End() <= bs[i].addr; }
  }

  lemma PutUnits(bs: seq<Block>, i: nat, b: Block, u: nat)
    requires i < |bs|
    ensures InFree(Put(bs, i, b), u) <==> InFree(bs, u) || b.Has(u)
  {
    var r := Put(bs, i, b);
    if InFree(bs, u) {
      var j :| 0 <= j < |bs| && bs[j].Has(u);
      assert r[if j <= i then j else j + 1].Has(u);
    }
    if b.Has(u) { assert r[i + 1].Has(u); }
    if InFree(r, u) {
      var j :| 0 <= j < |r| && r[j].Has(u);
      if j != i + 1 { assert bs[if j <= i then j else j - 1].Has(u); }
    }
  }

  lemma MergeSorted(bs: seq<Block>, i: nat)
    requires Sorted(bs) && 0 < i < |bs| && Touch(bs, i)
    ensures Sorted(Merge(bs, i))
  {
    var r := Merge(bs, i);
    forall j, k | 0 <= j < k < |r| ensures r[j].End() <= r[k].addr {
    }
  }

  lemma MergeUnits(bs: seq<Block>, i: nat, u: nat)
    requires i < |bs| && Touch(bs, i)
    ensures InFree(Merge(bs, i), u) <==> InFree(bs, u)
  {
    var r := Merge(bs, i);
    if InFree(bs, u) {
      var j :| 0 <= j < |bs| && bs[j].Has(u);
      assert r[if j <= i then j else j - 1].Has(u);
    }
    if InFree(r, u) {
      var j :| 0 <= j < |r| && r[j].Has(u);
      if j == i { assert bs[i].Has(u) || bs[i + 1].Has(u); }
      else { assert bs[if j < i then j else j + 1].Has(u); }
    }
  }

  // ------------------------------------------------------------ freeing

  /** The list after b has been merged with its right neighbour, if they touch. */
  function Right(bs: seq<Block>, i: nat, b: Block): (r: seq<Block>)
    requires i < |bs|
    ensures |r| > i + 1
  {
    var c := Put(bs, i, b);
    if Touch(c, i + 1) then Merge(c, i + 1) else c
  }

  /** The list after freeing b behind block i. */
  function Insert(bs: seq<Block>, i: nat, b: Block): seq<Block>
    requires i < |bs|
  {
    var c := Right(bs, i, b);
    if Touch(c, i) then Merge(c, i) else c
  }

  lemma RightSorted(bs: seq<Block>, i: nat, b: Block)
    requires Ordered(bs) && Before(bs, i, b.addr) && b.size > 0 && Clear(bs, b)
    ensures var c := Right(bs, i, b); Sorted(c) && c[i + 1].addr == b.addr && c[0] == bs[0] && c[i] == bs[i]
  {
    PutSorted(bs, i, b);
    var d := Put(bs, i, b);
    if Touch(d, i + 1) { MergeSorted(d, i + 1); }
  }

  lemma RightGap(bs: seq<Block>, i: nat, b: Block, j: nat)
    requires Ordered(bs) && Before(bs, i, b.addr) && b.size > 0 && Clear(bs, b)
    requires j < |Right(bs, i, b)| && j != i
    ensures Gap(Right(bs, i, b), j)
  {
    hide Sorted;
    var d := Put(bs, i, b);
    if j < i { assert Gap(bs, j); }
    else if j > i + 1 { assert Gap(bs, if Touch(d, i + 1) then j else j - 1); }
    else if Touch(d, i + 1) { assert Gap(bs, i + 1); }
    else if i + 1 < |bs| { assert b.End() <= bs[i + 1].addr; }
  }

  lemma InsertOrdered(bs: seq<Block>, i: nat, b: Block)
    requires Ordered(bs) && Before(bs, i, b.addr) && b.size > 0 && Clear(bs, b)
    ensures Ordered(Insert(bs, i, b)) && Insert(bs, i, b)[0].addr == bs[0].addr
  {
    hide Right, Sorted, Gap, Clear;
    RightSorted(bs, i, b);
    var c := Right(bs, i, b);
    forall j | 0 <= j < |c| && j != i ensures Gap(c, j) { RightGap(bs, i, b, j); }
    if Touch(c, i) {
      MergeSorted(c, i);
      forall j | 0 <= j < |c| - 1 ensures Gap(Merge(c, i), j) { MergeGap(c, i, j); }
    } else {
      SortedGap(c, i);
    }
  }

  /** Two blocks that touched leave no other pair adjacent. */
  lemma MergeGap(c: seq<Block>, i: nat, j: nat)
    requires i + 1 < |c| && Touch(c, i) && j < |c| - 1 && Gap(c, if j < i then j else j + 1)
    ensures Gap(Merge(c, i), j)
  {
  }

  lemma SortedGap(c: seq<Block>, i: nat)
    requires Sorted(c) && i < |c| && !Touch(c, i)
    ensures Gap(c, i)
  {
  }

  /** Freeing adds exactly the units of b. */
  lemma InsertUnits(bs: seq<Block>, i: nat, b: Block, u: nat)
    requires i < |bs|
    ensures InFree(Insert(bs, i, b), u) <==> InFree(bs, u) || b.Has(u)
  {
    hide InFree;
    var d := Put(bs, i, b);
    PutUnits(bs, i, b, u);
    if Touch(d, i + 1) { MergeUnits(d, i + 1, u); }
    if Touch(Right(bs, i, b), i) { MergeUnits(Right(bs, i, b), i, u); }
  }

  // ------------------------------------------------------------ allocating

  /** Block i gives up its last n units: all of it, or its tail (umalloc.c:76-83). */
  function Take(bs: seq<Block>, i: nat, n: nat): (r: seq<Block>)
    requires i < |bs| && n <= bs[i].size
  {
    if bs[i].size == n then bs[..i] + bs[i + 1..] else bs[i := Block(bs[i].addr, bs[i].size - n)]
  }

  function Taken(bs: seq<Block>, i: nat, n: nat): Block
    requires i < |bs| && n <= bs[i].size
  {
    Block(bs[i].End() - n, n)
  }

  lemma TakeOrdered(bs: seq<Block>, i: nat, n: nat)
    requires Ordered(bs) && i < |bs| && 0 < n <= bs[i].size
    ensures Ordered(Take(bs, i, n)) && Take(bs, i, n)[0] == bs[0]
  {
    var r := Take(bs, i, n);
    forall j | 0 <= j < |r| ensures Gap(r, j) {
      assert Gap(bs, j);
      if bs[i].size == n && j + 1 < |bs| { assert Gap(bs, j + 1); }
    }
  }

  /** Allocating removes exactly the units of the block handed out. */
  lemma TakeUnits(bs: seq<Block>, i: nat, n: nat, u: nat)
    requires Sorted(bs) && i < |bs| && 0 < n <= bs[i].size
    ensures InFree(bs, u) <==> InFree(Take(bs, i, n), u) || Taken(bs, i, n).Has(u)
    ensures !(InFree(Take(bs, i, n), u) && Taken(bs, i, n).Has(u))
  {
    hide Sorted;
    if bs[i].size == n { RemoveUnits(bs, i, u); } else { ShrinkUnits(bs, i, n, u); }
    if InFree(Take(bs, i, n), u) && Taken(bs, i, n).Has(u) { TakenOnce(bs, i, n, u); }
  }

  lemma RemoveUnits(bs: seq<Block>, i: nat, u: nat)
    requires i < |bs|
    ensures InFree(bs, u) <==> InFree(bs[..i] + bs[i + 1..], u) || bs[i].Has(u)
  {
    var r := bs[..i] + bs[i + 1..];
    if InFree(bs, u) {
      var j :| 0 <= j < |bs| && bs[j].Has(u);
      if j != i { assert r[if j > i then j - 1 else j].Has(u); }
    }
    if InFree(r, u) {
      var j :| 0 <= j < |r| && r[j].Has(u);
      assert bs[if j >= i then j + 1 else j].Has(u);
    }
  }

  lemma ShrinkUnits(bs: seq<Block>, i: nat, n: nat, u: nat)
    requires i < |bs| && n < bs[i].size
    ensures InFree(bs, u) <==> InFree(bs[i := Block(bs[i].addr, bs[i].size - n)], u) || Block(bs[i].End() - n, n).Has(u)
  {
    var r := bs[i := Block(bs[i].addr, bs[i].size - n)];
    if InFree(bs, u) {
      var j :| 0 <= j < |bs| && bs[j].Has(u);
      if !Block(bs[i].End() - n, n).Has(u) { assert r[j].Has(u); }
    }
    if InFree(r, u) {
      var j :| 0 <= j < |r| && r[j].Has(u);
      assert bs[j].Has(u);
    }
  }

  lemma TakenOnce(bs: seq<Block>, i: nat, n: nat, u: nat)
    requires Sorted(bs) && i < |bs| && 0 < n <= bs[i].size && InFree(Take(bs, i, n), u)
    ensures !Taken(bs, i, n).Has(u)
  {
    hide Sorted, Take;
    var r := Take(bs, i, n);
    var j :| 0 <= j < |r| && r[j].Has(u);
    var k := TakeAt(bs, i, n, j);
    if k < i { SortedAt(bs, k, i); }
    if k > i { SortedAt(bs, i, k); }
  }

  /** Where a block of the rest was: it kept its start and gave up at most its end. */
  lemma TakeAt(bs: seq<Block>, i: nat, n: nat, j: nat) returns (k: nat)
    requires i < |bs| && 0 < n <= bs[i].size && j < |Take(bs, i, n)|
    ensures k < |bs| && Take(bs, i, n)[j].addr == bs[k].addr
    ensures Take(bs, i, n)[j].End() <= if k == i then bs[i].End() - n else bs[k].End()
  {
    k := if bs[i].size == n && j >= i then j + 1 else j;
  }

  lemma SortedAt(bs: seq<Block>, i: nat, k: nat)
    requires Sorted(bs) && i < k < |bs|
    ensures bs[i].End() <= bs[k].addr
  {
  }
}

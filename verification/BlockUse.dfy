/** Which blocks a write fills, takes and logs, as values: the slots between two block
    numbers of a file, the addresses they get, and the set of blocks handed to log_write
    (fs.c:64-86, 377-405, 497-506). */
module BlockUse {
  import opened Basics
  import opened Blocks
  import opened FileLayout

  const IPB: nat := 16

  function InodeBlock(l: Layout, i: nat): nat {
    l.inodestart + i / IPB
  }

  function BitmapBlock(l: Layout, a: nat): nat {
    l.bmapstart + a / BPB
  }

  lemma UnionSize(a: set<nat>, b: set<nat>)
    ensures |a + b| <= |a| + |b|
  {
    assert |a + b| == |a| + |b - a| by { assert a + b == a + (b - a); }
    assert |b - a| <= |b| by { SubsetSize(b - a, b); }
  }

  // ------------------------------------------------------------ the slots of a range

  /** Slot s is one that a write of blocks lo to hi of inode i fills: a block's own slot, or
      the indirect block if one of them needs it. */
  predicate Fills(i: nat, lo: nat, hi: nat, s: Slot) {
    && s.ino == i
    && match s
       case Direct(_, k) => if k == NDIRECT then lo < hi && hi > NDIRECT else lo <= k < hi && k < NDIRECT
       case Entry(_, j) => lo <= NDIRECT + j < hi
  }

  /** gs is fs with exactly these slots filled where they were empty. */
  ghost predicate Filled(fs: Fs, gs: Fs, i: nat, lo: nat, hi: nat) {
    && Shape(fs) && Shape(gs) && fs.l == gs.l && |fs.inode| == |gs.inode| && i < |fs.inode| && hi <= MAXFILE
    && forall s :: ValidSlot(fs, s) ==> FilledSlot(fs, gs, i, lo, hi, s)
  }

  ghost predicate FilledSlot(fs: Fs, gs: Fs, i: nat, lo: nat, hi: nat, s: Slot)
    requires Shape(fs) && Shape(gs) && |fs.inode| == |gs.inode| && ValidSlot(fs, s)
  {
    if Fills(i, lo, hi, s) then AddrOf(gs, s) != 0 && (AddrOf(fs, s) != 0 ==> AddrOf(gs, s) == AddrOf(fs, s))
    else AddrOf(gs, s) == AddrOf(fs, s)
  }

  lemma FilledAt(fs: Fs, gs: Fs, i: nat, lo: nat, hi: nat, s: Slot)
    requires Filled(fs, gs, i, lo, hi) && ValidSlot(fs, s)
    ensures ValidSlot(gs, s)
    ensures Fills(i, lo, hi, s) ==> AddrOf(gs, s) != 0
    ensures !Fills(i, lo, hi, s) || AddrOf(fs, s) != 0 ==> AddrOf(gs, s) == AddrOf(fs, s)
  {
    hide AddrOf;
  }

  lemma FilledNone(fs: Fs, i: nat, lo: nat)
    requires Shape(fs) && i < |fs.inode| && lo <= MAXFILE
    ensures Filled(fs, fs, i, lo, lo)
  {
    hide AddrOf;
  }

  lemma FilledMore(fs: Fs, mid: Fs, gs: Fs, i: nat, lo: nat, h: nat)
    requires Filled(fs, mid, i, lo, h) && Filled(mid, gs, i, h, h + 1) && lo <= h
    ensures Filled(fs, gs, i, lo, h + 1)
  {
    hide AddrOf, Filled;
    assert Shape(fs) && Shape(mid) && Shape(gs) && fs.l == gs.l && |fs.inode| == |mid.inode| == |gs.inode|
           && i < |fs.inode| && h + 1 <= MAXFILE
      by { FilledShape(fs, mid, i, lo, h); FilledShape(mid, gs, i, h, h + 1); }
    forall s | ValidSlot(fs, s)
      ensures FilledSlot(fs, gs, i, lo, h + 1, s)
    {
      FilledAt(fs, mid, i, lo, h, s);
      FilledAt(mid, gs, i, h, h + 1, s);
    }
    FilledIs(fs, gs, i, lo, h + 1);
  }

  lemma FilledShape(fs: Fs, gs: Fs, i: nat, lo: nat, hi: nat)
    requires Filled(fs, gs, i, lo, hi)
    ensures Shape(fs) && Shape(gs) && fs.l == gs.l && |fs.inode| == |gs.inode| && i < |fs.inode| && hi <= MAXFILE
  {
    hide AddrOf;
  }

  lemma FilledIs(fs: Fs, gs: Fs, i: nat, lo: nat, hi: nat)
    requires Shape(fs) && Shape(gs) && fs.l == gs.l && |fs.inode| == |gs.inode| && i < |fs.inode| && hi <= MAXFILE
    requires forall s :: ValidSlot(fs, s) ==> FilledSlot(fs, gs, i, lo, hi, s)
    ensures Filled(fs, gs, i, lo, hi)
  {
    hide AddrOf;
  }

  // ------------------------------------------------------------ what is logged

  /** Filling an empty slot logs the bitmap block and the block itself, which is zeroed. */
  ghost function SlotLog(fs: Fs, gs: Fs, s: Slot): set<nat>
    requires Shape(fs) && Shape(gs) && ValidSlot(fs, s) && ValidSlot(gs, s)
  {
    if AddrOf(fs, s) == 0 then {BitmapBlock(gs.l, AddrOf(gs, s)), AddrOf(gs, s)} else {}
  }

  /** What bmap logs for block bn: the slots it fills, and the indirect block if an entry in
      it is new. */
  ghost function MapLog(fs: Fs, gs: Fs, i: nat, bn: nat): set<nat>
    requires Shape(fs) && Shape(gs) && |fs.inode| == |gs.inode| && i < |fs.inode| && bn < MAXFILE
  {
    var s, x := BlockSlot(i, bn), Direct(i, NDIRECT);
    SlotLog(fs, gs, s)
    + (if bn < NDIRECT then {} else SlotLog(fs, gs, x) + (if AddrOf(fs, s) == 0 then {AddrOf(gs, x)} else {}))
  }

  /** What a write of blocks lo to hi logs, but for the inode: what bmap logs for each, and
      its data block. */
  ghost function Wrote(fs: Fs, gs: Fs, i: nat, lo: nat, hi: nat): set<nat>
    requires Shape(fs) && Shape(gs) && |fs.inode| == |gs.inode| && i < |fs.inode| && hi <= MAXFILE
    decreases hi
  {
    if hi <= lo then {}
    else Wrote(fs, gs, i, lo, hi - 1) + MapLog(fs, gs, i, hi - 1) + {AddrOf(gs, BlockSlot(i, hi - 1))}
  }

  lemma SlotFills(i: nat, lo: nat, hi: nat, bn: nat)
    requires lo <= bn < hi
    ensures Fills(i, lo, hi, BlockSlot(i, bn)) && (bn >= NDIRECT ==> Fills(i, lo, hi, Direct(i, NDIRECT)))
  {
  }

  /** The same addresses in the slots filled give the same blocks. */
  lemma {:induction false} WroteSame(fs: Fs, mid: Fs, gs: Fs, i: nat, lo: nat, hi: nat)
    requires Shape(fs) && Shape(mid) && Shape(gs) && mid.l == gs.l && |fs.inode| == |mid.inode| == |gs.inode|
    requires i < |fs.inode| && hi <= MAXFILE
    requires forall s :: ValidSlot(fs, s) && Fills(i, lo, hi, s) ==> AddrOf(gs, s) == AddrOf(mid, s)
    ensures Wrote(fs, gs, i, lo, hi) == Wrote(fs, mid, i, lo, hi)
    decreases hi
  {
    hide AddrOf;
    if lo < hi {
      assert forall s :: ValidSlot(fs, s) && Fills(i, lo, hi - 1, s) ==> Fills(i, lo, hi, s);
      WroteSame(fs, mid, gs, i, lo, hi - 1);
      SlotFills(i, lo, hi, hi - 1);
    }
  }

  lemma WroteMore(fs: Fs, mid: Fs, gs: Fs, i: nat, lo: nat, h: nat)
    requires Filled(fs, mid, i, lo, h) && Filled(mid, gs, i, h, h + 1) && lo <= h
    ensures Shape(fs) && Shape(mid) && Shape(gs) && |fs.inode| == |mid.inode| == |gs.inode| && i < |fs.inode|
    ensures h < MAXFILE
    ensures Wrote(fs, gs, i, lo, h + 1) ==
              Wrote(fs, mid, i, lo, h) + MapLog(mid, gs, i, h) + {AddrOf(gs, BlockSlot(i, h))}
  {
    hide AddrOf, Filled;
    FilledShape(fs, mid, i, lo, h);
    FilledShape(mid, gs, i, h, h + 1);
    forall s | ValidSlot(fs, s) && Fills(i, lo, h, s) ensures AddrOf(gs, s) == AddrOf(mid, s) {
      FilledAt(fs, mid, i, lo, h, s);
      FilledAt(mid, gs, i, h, h + 1, s);
    }
    WroteSame(fs, mid, gs, i, lo, h);
    var s, x := BlockSlot(i, h), Direct(i, NDIRECT);
    FilledAt(fs, mid, i, lo, h, s);
    FilledAt(fs, mid, i, lo, h, x);
    FilledAt(mid, gs, i, h, h + 1, x);
    if AddrOf(fs, x) == 0 && AddrOf(mid, x) != 0 {
      assert SlotLog(fs, mid, x) <= Wrote(fs, mid, i, lo, h);
      assert SlotLog(fs, gs, x) == SlotLog(fs, mid, x);
    }
  }

  // ------------------------------------------------------------ what is taken

  /** The blocks of the range that have no address yet. */
  ghost function NewCount(fs: Fs, i: nat, lo: nat, hi: nat): nat
    requires Shape(fs) && i < |fs.inode| && hi <= MAXFILE
    decreases hi
  {
    if hi <= lo then 0
    else NewCount(fs, i, lo, hi - 1) + if AddrOf(fs, BlockSlot(i, hi - 1)) == 0 then 1 else 0
  }

  /** The free blocks that a write of blocks lo to hi takes. */
  ghost function Need(fs: Fs, i: nat, lo: nat, hi: nat): nat
    requires Shape(fs) && i < |fs.inode| && hi <= MAXFILE
  {
    NewCount(fs, i, lo, hi) + if lo < hi && hi > NDIRECT && AddrOf(fs, Direct(i, NDIRECT)) == 0 then 1 else 0
  }

  lemma {:induction false} NeedGrows(fs: Fs, i: nat, lo: nat, h: nat, hi: nat)
    requires Shape(fs) && i < |fs.inode| && lo <= h <= hi <= MAXFILE
    ensures Need(fs, i, lo, h) <= Need(fs, i, lo, hi)
    decreases hi - h
  {
    hide AddrOf;
    if h < hi { NeedGrows(fs, i, lo, h + 1, hi); }
  }

  lemma NeedMore(fs: Fs, mid: Fs, i: nat, lo: nat, h: nat)
    requires Filled(fs, mid, i, lo, h) && lo <= h < MAXFILE
    ensures Shape(fs) && Shape(mid) && i < |fs.inode| == |mid.inode|
    ensures Need(fs, i, lo, h + 1) == Need(fs, i, lo, h) + Need(mid, i, h, h + 1)
  {
    hide AddrOf, Filled;
    FilledShape(fs, mid, i, lo, h);
    var s, x := BlockSlot(i, h), Direct(i, NDIRECT);
    FilledAt(fs, mid, i, lo, h, s);
    FilledAt(fs, mid, i, lo, h, x);
    assert NewCount(mid, i, h, h) == 0;
  }

  /** n more blocks have owners, and every data block below one of them has one too: balloc
      takes the lowest free block. */
  ghost predicate TookLowest(nmeta: nat, was: map<nat, Slot>, now: map<nat, Slot>, n: nat) {
    && was.Keys <= now.Keys && |now| == |was| + n
    && forall a, c :: a in now && a !in was && nmeta <= c < a ==> c in now
  }

  lemma TookNothing(nmeta: nat, was: map<nat, Slot>)
    ensures TookLowest(nmeta, was, was, 0)
  {
  }

  lemma TookOne(nmeta: nat, was: map<nat, Slot>, a: nat, s: Slot)
    requires a !in was && forall c :: nmeta <= c < a ==> c in was
    ensures TookLowest(nmeta, was, was[a := s], 1)
  {
  }

  lemma TookMore(nmeta: nat, was: map<nat, Slot>, mid: map<nat, Slot>, now: map<nat, Slot>, n: nat, m: nat)
    requires TookLowest(nmeta, was, mid, n) && TookLowest(nmeta, mid, now, m)
    ensures TookLowest(nmeta, was, now, n + m)
  {
    forall a, c | a in now && a !in was && nmeta <= c < a ensures c in now {
      if a in mid { assert c in mid; }
    }
  }

  lemma {:induction false} RangeSize(s: set<nat>, lo: nat, hi: nat)
    requires lo <= hi && forall x :: x in s ==> lo <= x < hi
    ensures |s| <= hi - lo
  {
    if lo == hi { assert s == {}; } else { RangeSize(s - {hi - 1}, lo, hi - 1); }
  }

  lemma {:induction false} RangeCovered(s: set<nat>, lo: nat, hi: nat)
    requires lo <= hi && forall x :: lo <= x < hi ==> x in s
    ensures |s| >= hi - lo
  {
    if lo < hi { RangeCovered(s - {hi - 1}, lo, hi - 1); }
  }

  /** No more blocks are owned than there are data blocks, and as many exactly when every
      data block is. */
  lemma OwnedCount(fs: Fs, owner: map<nat, Slot>)
    requires Owned(fs, owner, {})
    ensures fs.l.nmeta + |owner| <= fs.l.size
    ensures (forall a :: fs.l.nmeta <= a < fs.l.size ==> a in owner) ==> fs.l.nmeta + |owner| == fs.l.size
  {
    hide AddrOf;
    RangeSize(owner.Keys, fs.l.nmeta, fs.l.size);
    if forall a :: fs.l.nmeta <= a < fs.l.size ==> a in owner { RangeCovered(owner.Keys, fs.l.nmeta, fs.l.size); }
  }

  // ------------------------------------------------------------ the budget of a chunk

  /** Behind the last block that n bytes at off touch. */
  function End(off: nat, n: nat): nat {
    if n == 0 then off / BSIZE else (off + n - 1) / BSIZE + 1
  }

  ghost function DataOf(gs: Fs, i: nat, lo: nat, hi: nat): (r: set<nat>)
    requires Shape(gs) && i < |gs.inode| && hi <= MAXFILE
    ensures |r| <= if lo < hi then hi - lo else 0
    decreases hi
  {
    if hi <= lo then {}
    else
      UnionSize(DataOf(gs, i, lo, hi - 1), {AddrOf(gs, BlockSlot(i, hi - 1))});
      DataOf(gs, i, lo, hi - 1) + {AddrOf(gs, BlockSlot(i, hi - 1))}
  }

  ghost function BitmapsOf(fs: Fs, gs: Fs, i: nat, lo: nat, hi: nat): (r: set<nat>)
    requires Shape(fs) && Shape(gs) && |fs.inode| == |gs.inode| && i < |fs.inode| && hi <= MAXFILE
    ensures |r| <= NewCount(fs, i, lo, hi)
    decreases hi
  {
    if hi <= lo then {}
    else if AddrOf(fs, BlockSlot(i, hi - 1)) != 0 then BitmapsOf(fs, gs, i, lo, hi - 1)
    else
      UnionSize(BitmapsOf(fs, gs, i, lo, hi - 1), {BitmapBlock(gs.l, AddrOf(gs, BlockSlot(i, hi - 1)))});
      BitmapsOf(fs, gs, i, lo, hi - 1) + {BitmapBlock(gs.l, AddrOf(gs, BlockSlot(i, hi - 1)))}
  }

  lemma {:induction false} WroteParts(fs: Fs, gs: Fs, i: nat, lo: nat, hi: nat)
    requires Shape(fs) && Shape(gs) && |fs.inode| == |gs.inode| && i < |fs.inode| && hi <= MAXFILE
    ensures var x := AddrOf(gs, Direct(i, NDIRECT));
            Wrote(fs, gs, i, lo, hi) <= DataOf(gs, i, lo, hi) + BitmapsOf(fs, gs, i, lo, hi) + {x, BitmapBlock(gs.l, x)}
    decreases hi
  {
    hide AddrOf;
    if lo < hi { WroteParts(fs, gs, i, lo, hi - 1); }
  }

  lemma {:induction false} NewBound(fs: Fs, i: nat, lo: nat, hi: nat)
    requires Shape(fs) && i < |fs.inode| && lo <= hi <= MAXFILE
    ensures NewCount(fs, i, lo, hi) <= hi - lo
    ensures lo < hi && AddrOf(fs, BlockSlot(i, lo)) != 0 ==> NewCount(fs, i, lo, hi) <= hi - lo - 1
    decreases hi
  {
    hide AddrOf;
    if lo < hi { NewBound(fs, i, lo, hi - 1); }
  }

  /** At most 4 data, 3 or 4 bitmap, 1 indirect and 1 inode block. */
  lemma ChunkBudget(fs: Fs, gs: Fs, i: nat, off: nat, n: nat)
    requires Shape(fs) && Shape(gs) && |fs.inode| == |gs.inode| && i < |fs.inode| && End(off, n) <= MAXFILE
    requires n > 0 && off % BSIZE != 0 ==> AddrOf(fs, BlockSlot(i, off / BSIZE)) != 0
    requires n <= 3 * BSIZE
    ensures |Wrote(fs, gs, i, off / BSIZE, End(off, n)) + {InodeBlock(gs.l, i)}| <= MAXOPBLOCKS
  {
    hide AddrOf, Wrote, DataOf, BitmapsOf;
    var lo, hi := off / BSIZE, End(off, n);
    var x := AddrOf(gs, Direct(i, NDIRECT));
    var d, b, e := DataOf(gs, i, lo, hi), BitmapsOf(fs, gs, i, lo, hi), {x, BitmapBlock(gs.l, x)};
    WroteParts(fs, gs, i, lo, hi);
    ChunkTurns(off, n);
    NewBound(fs, i, lo, hi);
    UnionSize(d, b);
    UnionSize(d + b, e);
    UnionSize(d + b + e, {InodeBlock(gs.l, i)});
    SubsetSize(Wrote(fs, gs, i, lo, hi) + {InodeBlock(gs.l, i)}, d + b + e + {InodeBlock(gs.l, i)});
  }

  lemma ChunkTurns(off: nat, n: nat)
    requires n <= 3 * BSIZE
    ensures off / BSIZE <= End(off, n) <= off / BSIZE + if off % BSIZE == 0 then 3 else 4
  {
  }

  // ------------------------------------------------------------ the worst chunk

  ghost predicate Unowned(fs: Fs, owner: map<nat, Slot>, a: nat) {
    fs.l.nmeta <= a < fs.l.size && a !in owner
  }

  /** A file that ends in its last direct block and has no indirect block, on a disk whose
      four lowest free blocks lie under four bitmap blocks. */
  ghost predicate WorstCase(fs: Fs, owner: map<nat, Slot>, i: nat, lowest: set<nat>) {
    && Shape(fs) && i < |fs.inode| && InodeBlock(fs.l, i) < fs.l.bmapstart
    && fs.inode[i].addrs[NDIRECT - 1] != 0 && fs.inode[i].addrs[NDIRECT] == 0
    && |lowest| == 4 && (forall f :: f in lowest ==> Unowned(fs, owner, f))
    && (forall f: nat, c: nat :: f in lowest && Unowned(fs, owner, c) && c !in lowest ==> f < c)
    && (forall f: nat, g: nat :: f in lowest && g in lowest && f != g ==> BitmapBlock(fs.l, f) != BitmapBlock(fs.l, g))
  }

  /** It needs four blocks, and they are there. */
  lemma WorstNeed(fs: Fs, owner: map<nat, Slot>, i: nat, lowest: set<nat>)
    requires WorstCase(fs, owner, i, lowest) && Owned(fs, owner, {})
    ensures Need(fs, i, NDIRECT - 1, NDIRECT + 3) == 4 && fs.l.nmeta + |owner| + 4 <= fs.l.size
  {
    hide AddrOf, WorstCase, Owned;
    WorstFacts(fs, owner, i, lowest);
    NoEntries(fs, i);
    RoomForFour(fs, owner, i, lowest);
    assert NewCount(fs, i, NDIRECT - 1, NDIRECT + 3) == NewCount(fs, i, NDIRECT - 1, NDIRECT + 2) + 1;
    assert NewCount(fs, i, NDIRECT - 1, NDIRECT + 2) == NewCount(fs, i, NDIRECT - 1, NDIRECT + 1) + 1;
    assert NewCount(fs, i, NDIRECT - 1, NDIRECT + 1) == NewCount(fs, i, NDIRECT - 1, NDIRECT) + 1;
    assert NewCount(fs, i, NDIRECT - 1, NDIRECT) == NewCount(fs, i, NDIRECT - 1, NDIRECT - 1);
  }

  lemma RoomForFour(fs: Fs, owner: map<nat, Slot>, i: nat, lowest: set<nat>)
    requires WorstCase(fs, owner, i, lowest) && Owned(fs, owner, {})
    ensures fs.l.nmeta + |owner| + 4 <= fs.l.size
  {
    hide AddrOf, Owned, WorstCase;
    LowestFree(fs, owner, i, lowest);
    forall a | a in owner ensures fs.l.nmeta <= a < fs.l.size { OwnedInRange(fs, owner, a); }
    RangeSize(owner.Keys + lowest, fs.l.nmeta, fs.l.size);
  }

  lemma LowestFree(fs: Fs, owner: map<nat, Slot>, i: nat, lowest: set<nat>)
    requires WorstCase(fs, owner, i, lowest)
    ensures |lowest| == 4 && forall f :: f in lowest ==> Unowned(fs, owner, f)
  {
  }

  lemma OwnedInRange(fs: Fs, owner: map<nat, Slot>, a: nat)
    requires Owned(fs, owner, {}) && a in owner
    ensures fs.l.nmeta <= a < fs.l.size
  {
    hide AddrOf;
  }

  lemma NoEntries(fs: Fs, i: nat)
    requires Shape(fs) && i < |fs.inode| && fs.inode[i].addrs[NDIRECT] == 0 && fs.inode[i].addrs[NDIRECT - 1] != 0
    ensures AddrOf(fs, Direct(i, NDIRECT)) == 0 && AddrOf(fs, BlockSlot(i, NDIRECT - 1)) != 0
    ensures AddrOf(fs, BlockSlot(i, NDIRECT)) == 0 && AddrOf(fs, BlockSlot(i, NDIRECT + 1)) == 0
    ensures AddrOf(fs, BlockSlot(i, NDIRECT + 2)) == 0
  {
  }

  /** An address that was filled in is new. */
  lemma NewAddr(fs: Fs, owner: map<nat, Slot>, gs: Fs, now: map<nat, Slot>, i: nat, lo: nat, hi: nat, s: Slot)
    requires Owned(fs, owner, {}) && Owned(gs, now, {}) && Filled(fs, gs, i, lo, hi)
    requires ValidSlot(fs, s) && Fills(i, lo, hi, s) && AddrOf(fs, s) == 0
    ensures ValidSlot(gs, s) && AddrOf(gs, s) in now && now[AddrOf(gs, s)] == s && AddrOf(gs, s) !in owner
  {
    hide AddrOf, Filled;
    FilledShape(fs, gs, i, lo, hi);
    FilledAt(fs, gs, i, lo, hi, s);
    var a := AddrOf(gs, s);
    if a in owner { FilledAt(fs, gs, i, lo, hi, owner[a]); }
  }

  /** The blocks taken are the lowest free ones. */
  lemma TookThose(fs: Fs, owner: map<nat, Slot>, gs: Fs, now: map<nat, Slot>, i: nat, lowest: set<nat>, a: nat)
    requires WorstCase(fs, owner, i, lowest) && TookLowest(fs.l.nmeta, owner, now, 4) && a in now && a !in owner
    requires fs.l.nmeta <= a < fs.l.size
    ensures a in lowest
  {
    hide Shape;
    if a !in lowest {
      forall f | f in lowest ensures fs.l.nmeta <= f && f !in owner { assert Unowned(fs, owner, f); }
      assert Unowned(fs, owner, a);
      var f := NotAllBelow(fs.l.nmeta, owner, now, lowest, a);
    }
  }

  /** Of four blocks that were free, one lies above any other block taken. */
  lemma NotAllBelow(nmeta: nat, was: map<nat, Slot>, now: map<nat, Slot>, lowest: set<nat>, a: nat) returns (f: nat)
    requires TookLowest(nmeta, was, now, 4) && a in now && a !in was && |lowest| == 4 && a !in lowest
    requires forall f :: f in lowest ==> nmeta <= f && f !in was
    ensures f in lowest && f > a
  {
    var taken := now.Keys - was.Keys;
    TakenSize(was, now);
    FiveApart(lowest, a, taken);
    f :| f in lowest && f !in taken;
  }

  lemma TakenSize(was: map<nat, Slot>, now: map<nat, Slot>)
    requires was.Keys <= now.Keys
    ensures |now.Keys - was.Keys| == |now| - |was|
  {
    assert now.Keys == was.Keys + (now.Keys - was.Keys);
  }

  lemma FiveApart(four: set<nat>, a: nat, s: set<nat>)
    requires |four| == |s| && a !in four && a in s
    ensures exists f :: f in four && f !in s
  {
    if four <= s { SubsetSize(four + {a}, s); }
  }

  ghost predicate Different(a: nat, b: nat, c: nat, d: nat) {
    a != b && a != c && a != d && b != c && b != d && c != d
  }

  /** Ten blocks are logged: four data blocks, four bitmap blocks, the indirect block and the
      inode. */
  lemma WorstChunk(fs: Fs, owner: map<nat, Slot>, gs: Fs, now: map<nat, Slot>, i: nat, lowest: set<nat>)
    requires WorstCase(fs, owner, i, lowest) && Owned(fs, owner, {}) && Owned(gs, now, {})
    requires Filled(fs, gs, i, NDIRECT - 1, NDIRECT + 3) && TookLowest(fs.l.nmeta, owner, now, 4)
    ensures |Wrote(fs, gs, i, NDIRECT - 1, NDIRECT + 3) + {InodeBlock(gs.l, i)}| == MAXOPBLOCKS
  {
    hide AddrOf, Filled, Owned, TookLowest, WorstCase, Wrote;
    FilledShape(fs, gs, i, NDIRECT - 1, NDIRECT + 3);
    WorstFacts(fs, owner, i, lowest);
    NoEntries(fs, i);
    var x := TakenAt(fs, owner, gs, now, i, lowest, Direct(i, NDIRECT));
    var e0 := TakenAt(fs, owner, gs, now, i, lowest, BlockSlot(i, NDIRECT));
    var e1 := TakenAt(fs, owner, gs, now, i, lowest, BlockSlot(i, NDIRECT + 1));
    var e2 := TakenAt(fs, owner, gs, now, i, lowest, BlockSlot(i, NDIRECT + 2));
    FilledAt(fs, gs, i, NDIRECT - 1, NDIRECT + 3, BlockSlot(i, NDIRECT - 1));
    var a := AddrOf(gs, BlockSlot(i, NDIRECT - 1));
    FirstOwned(fs, owner, i, a);
    assert Different(x, e0, e1, e2);
    Bitmaps(fs, owner, i, lowest, x, e0, e1, e2);
    WroteTen(fs, gs, i, a, x, e0, e1, e2);
    var p, q, r, s := BitmapBlock(gs.l, x), BitmapBlock(gs.l, e0), BitmapBlock(gs.l, e1), BitmapBlock(gs.l, e2);
    TenBlocks(gs.l.nmeta, a, x, e0, e1, e2, p, q, r, s, InodeBlock(gs.l, i));
  }

  lemma WorstFacts(fs: Fs, owner: map<nat, Slot>, i: nat, lowest: set<nat>)
    requires WorstCase(fs, owner, i, lowest)
    ensures Shape(fs) && i < |fs.inode| && InodeBlock(fs.l, i) < fs.l.bmapstart
    ensures fs.inode[i].addrs[NDIRECT - 1] != 0 && fs.inode[i].addrs[NDIRECT] == 0
  {
  }

  /** The address filled in, and that it is one of the lowest. */
  lemma TakenAt(fs: Fs, owner: map<nat, Slot>, gs: Fs, now: map<nat, Slot>, i: nat, lowest: set<nat>, s: Slot)
    returns (a: nat)
    requires WorstCase(fs, owner, i, lowest) && Owned(fs, owner, {}) && Owned(gs, now, {})
    requires Filled(fs, gs, i, NDIRECT - 1, NDIRECT + 3) && TookLowest(fs.l.nmeta, owner, now, 4)
    requires ValidSlot(fs, s) && Fills(i, NDIRECT - 1, NDIRECT + 3, s) && AddrOf(fs, s) == 0
    ensures ValidSlot(gs, s) && a == AddrOf(gs, s) && a in lowest && a in now && now[a] == s
    ensures a !in owner && fs.l.nmeta <= a < fs.l.size
  {
    hide AddrOf, Filled, TookLowest, WorstCase;
    FilledShape(fs, gs, i, NDIRECT - 1, NDIRECT + 3);
    NewAddr(fs, owner, gs, now, i, NDIRECT - 1, NDIRECT + 3, s);
    a := AddrOf(gs, s);
    TookThose(fs, owner, gs, now, i, lowest, a);
  }

  lemma FirstOwned(fs: Fs, owner: map<nat, Slot>, i: nat, a: nat)
    requires Owned(fs, owner, {}) && i < |fs.inode| && a == AddrOf(fs, BlockSlot(i, NDIRECT - 1)) != 0
    ensures a in owner && fs.l.nmeta <= a < fs.l.size
  {
    hide AddrOf;
  }

  lemma Bitmaps(fs: Fs, owner: map<nat, Slot>, i: nat, lowest: set<nat>, x: nat, e0: nat, e1: nat, e2: nat)
    requires WorstCase(fs, owner, i, lowest) && Different(x, e0, e1, e2)
    requires x in lowest && e0 in lowest && e1 in lowest && e2 in lowest
    ensures Different(BitmapBlock(fs.l, x), BitmapBlock(fs.l, e0), BitmapBlock(fs.l, e1), BitmapBlock(fs.l, e2))
    ensures forall a :: a in {x, e0, e1, e2} ==> fs.l.bmapstart <= BitmapBlock(fs.l, a) < fs.l.nmeta
  {
    forall a | a in {x, e0, e1, e2} ensures fs.l.bmapstart <= BitmapBlock(fs.l, a) < fs.l.nmeta {
      BitmapIsMeta(fs.l, a);
    }
  }

  lemma WroteTen(fs: Fs, gs: Fs, i: nat, a: nat, x: nat, e0: nat, e1: nat, e2: nat)
    requires Shape(fs) && Shape(gs) && |fs.inode| == |gs.inode| && i < |fs.inode|
    requires AddrOf(fs, Direct(i, NDIRECT)) == 0 && AddrOf(fs, BlockSlot(i, NDIRECT - 1)) != 0
    requires AddrOf(fs, BlockSlot(i, NDIRECT)) == 0 && AddrOf(fs, BlockSlot(i, NDIRECT + 1)) == 0
    requires AddrOf(fs, BlockSlot(i, NDIRECT + 2)) == 0
    requires a == AddrOf(gs, BlockSlot(i, NDIRECT - 1)) && x == AddrOf(gs, Direct(i, NDIRECT))
    requires e0 == AddrOf(gs, BlockSlot(i, NDIRECT)) && e1 == AddrOf(gs, BlockSlot(i, NDIRECT + 1))
    requires e2 == AddrOf(gs, BlockSlot(i, NDIRECT + 2))
    ensures Wrote(fs, gs, i, NDIRECT - 1, NDIRECT + 3) == {a, e0, e1, e2}
              + {BitmapBlock(gs.l, x), BitmapBlock(gs.l, e0), BitmapBlock(gs.l, e1), BitmapBlock(gs.l, e2)} + {x}
  {
    hide AddrOf;
    var lo := NDIRECT - 1;
    assert Wrote(fs, gs, i, lo, lo) == {};
    assert Wrote(fs, gs, i, lo, NDIRECT) == {a};
    assert Wrote(fs, gs, i, lo, NDIRECT + 1) == {a} + {BitmapBlock(gs.l, e0), e0, BitmapBlock(gs.l, x), x};
    assert Wrote(fs, gs, i, lo, NDIRECT + 2) ==
           Wrote(fs, gs, i, lo, NDIRECT + 1) + {BitmapBlock(gs.l, e1), e1, BitmapBlock(gs.l, x), x};
    assert Wrote(fs, gs, i, lo, NDIRECT + 3) ==
           Wrote(fs, gs, i, lo, NDIRECT + 2) + {BitmapBlock(gs.l, e2), e2, BitmapBlock(gs.l, x), x};
  }

  lemma TenBlocks(nmeta: nat, a: nat, x: nat, e0: nat, e1: nat, e2: nat, p: nat, q: nat, r: nat, s: nat, ib: nat)
    requires Different(x, e0, e1, e2) && a != x && a != e0 && a != e1 && a != e2 && Different(p, q, r, s)
    requires nmeta <= a && nmeta <= x && nmeta <= e0 && nmeta <= e1 && nmeta <= e2
    requires ib < p < nmeta && ib < q < nmeta && ib < r < nmeta && ib < s < nmeta
    ensures |{a, e0, e1, e2} + {p, q, r, s} + {x} + {ib}| == 10
  {
    FourBlocks(a, e0, e1, e2);
    FourBlocks(p, q, r, s);
    DisjointBlocks({a, e0, e1, e2}, {p, q, r, s}, x, ib, nmeta);
  }

  lemma FourBlocks(a: nat, b: nat, c: nat, d: nat)
    requires Different(a, b, c, d)
    ensures |{a, b, c, d}| == 4
  {
  }

  lemma DisjointBlocks(d: set<nat>, b: set<nat>, x: nat, ib: nat, nmeta: nat)
    requires (forall y :: y in d ==> nmeta <= y) && (forall y :: y in b ==> ib < y < nmeta)
    requires x !in d && ib < nmeta <= x
    ensures |d + b + {x} + {ib}| == |d| + |b| + 2
  {
    assert d !! b && x !in d + b && ib !in d + b + {x};
  }
}

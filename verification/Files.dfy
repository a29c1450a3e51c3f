/** The allocator and the inode operations of fs.c, and filewrite of file.c,
    over the block layer. `logged` collects the blocks handed to log_write in
    the current operation. */
module Files {
  import opened Basics
  import opened Blocks
  import opened FileLayout
  import opened BlockUse

  /** The two loops of balloc (fs.c:71-84): the first clear bit. */
  method FindFree(l: Layout, block: seq<Block>) returns (r: Option<nat>)
    requires LayoutOk(l) && |block| == l.size
    ensures r.None? ==> forall a :: 0 <= a < l.size ==> Bit(l, block, a)
    ensures r.Some? ==> r.value < l.size && !Bit(l, block, r.value)
    ensures r.Some? ==> forall a :: 0 <= a < r.value ==> Bit(l, block, a)
  {
    hide BitOf;
    var b := 0;
    while b < l.size
      invariant b % BPB == 0
      invariant forall a :: 0 <= a < b && a < l.size ==> Bit(l, block, a)
    {
      var bp := block[l.bmapstart + b / BPB];
      var bi := 0;
      while bi < BPB && b + bi < l.size
        invariant 0 <= bi <= BPB
        invariant forall a :: 0 <= a < b + bi && a < l.size ==> Bit(l, block, a)
      {
        BitOffset(b, bi);
        if !BitOf(bp[bi / 8], bi % 8) {
          return Some(b + bi);
        }
        bi := bi + 1;
      }
      b := b + BPB;
    }
    return None;
  }

  lemma BitOffset(b: nat, bi: nat)
    requires b % BPB == 0 && bi < BPB
    ensures (b + bi) / BPB == b / BPB && (b + bi) % BPB == bi && (b + bi) % 8 == bi % 8
  {
  }

  /** No address that was set is changed or cleared. */
  ghost predicate KeepsAddrs(fs: Fs, gs: Fs) {
    && Shape(fs) && Shape(gs) && |fs.inode| == |gs.inode|
    && forall s :: ValidSlot(fs, s) && AddrOf(fs, s) != 0 ==> AddrOf(gs, s) == AddrOf(fs, s)
  }

  /** Inodes without blocks. */
  function Unused(n: nat): seq<Inode> {
    seq(n, _ => Inode(0, seq(NDIRECT + 1, _ => 0)))
  }

  /** The bitmap marks exactly the blocks below n. */
  ghost predicate MarksBelow(l: Layout, block: seq<Block>, n: nat) {
    LayoutOk(l) && |block| == l.size && forall a :: 0 <= a < l.size ==> (Bit(l, block, a) <==> a < n)
  }

  lemma NothingMarked(l: Layout)
    requires LayoutOk(l)
    ensures MarksBelow(l, seq(l.size, _ => Zeroed()), 0)
  {
    var block: seq<Block> := seq(l.size, _ => Zeroed());
    forall a | 0 <= a < l.size ensures !Bit(l, block, a) { ZeroBits(a % 8); }
  }

  lemma ZeroBits(k: nat)
    requires k < 8
    ensures !BitOf(0, k)
  {
  }

  lemma MarksNext(l: Layout, block: seq<Block>, n: nat)
    requires MarksBelow(l, block, n) && n < l.size
    ensures !Bit(l, block, n) && MarksBelow(l, MarkUsed(l, block, n), n + 1)
  {
    hide Bit, MarkUsed;
    forall a | 0 <= a < l.size ensures Bit(l, MarkUsed(l, block, n), a) <==> a < n + 1 {
      MarkUsedBits(l, block, n, a);
    }
  }

  lemma BlankOk(fs: Fs, inodes: nat)
    requires MarksBelow(fs.l, fs.block, fs.l.nmeta)
    requires fs.inode == Unused(inodes)
    ensures FsOk(fs, map[])
  {
    hide Bit;
  }

  class FileSystem {
    const l: Layout
    var block: seq<Block>
    var inode: seq<Inode>
    ghost var owner: map<nat, Slot>
    ghost var logged: set<nat>

    ghost function Now(): Fs
      reads this
    {
      Fs(l, block, inode)
    }

    ghost predicate Consistent()
      reads this
    {
      Shape(Now()) && Owned(Now(), owner, {}) && Marked(Now(), owner, {})
    }

    ghost predicate Valid()
      reads this
    {
      FsOk(Now(), owner)
    }

    /** No data block is free: the panic "balloc: out of blocks". */
    ghost predicate Full()
      reads this
    {
      forall a :: l.nmeta <= a < l.size ==> a in owner
    }

    /** The file system before its first file: no inode has a block, and the bitmap marks
        the metadata blocks, as mkfs writes it (mkfs.c:234-248). */
    constructor (layout: Layout, inodes: nat)
      requires LayoutOk(layout)
      ensures Valid() && l == layout && owner == map[] && logged == {}
      ensures inode == Unused(inodes)
    {
      l, block := layout, seq(layout.size, _ => Zeroed());
      inode, owner, logged := Unused(inodes), map[], {};
      new;
      hide Bit, MarkUsed, MarksBelow, FsOk, Unused;
      NothingMarked(l);
      var a := 0;
      while a < l.nmeta
        invariant a <= l.nmeta && |block| == l.size && MarksBelow(l, block, a)
        invariant inode == Unused(inodes) && owner == map[] && logged == {}
      {
        MarksNext(l, block, a);
        block := MarkUsed(l, block, a);
        a := a + 1;
      }
      BlankOk(Now(), inodes);
    }

    /** balloc (fs.c:64-86): the lowest free block, marked and zeroed; None is the
        panic "out of blocks". */
    method Balloc() returns (r: Option<nat>)
      requires Owned(Now(), owner, {}) && Marked(Now(), owner, {})
      modifies this`block, this`logged
      ensures r.None? ==> block == old(block) && logged == old(logged)
      ensures r.None? <==> Full()
      ensures r.Some? ==> forall c :: l.nmeta <= c < r.value ==> c in owner
      ensures r.Some? ==> l.nmeta <= r.value < l.size && r.value !in owner && !Bit(l, old(block), r.value)
      ensures r.Some? ==> Now() == Allocated(old(Now()), r.value)
      ensures r.Some? ==> Owned(Now(), owner, {}) && Marked(Now(), owner, {r.value}) && Takeable(Now(), owner, r.value)
      ensures r.Some? ==> SameBytes(old(Now()), Now())
      ensures r.Some? ==> logged == old(logged) + {BitmapBlock(l, r.value), r.value}
    {
      hide Owned, SameBytes, Bit, MarkUsed;
      r := FindFree(l, block);
      if r.Some? {
        var a := r.value;
        assert {} + {a} == {a};
        forall c | l.nmeta <= c < a ensures c in owner { assert Bit(l, block, c); }
        AllocatedOwned(Now(), owner, a);
        AllocatedMarked(Now(), owner, {}, a);
        AllocatedBytes(Now(), owner, a);
        block := MarkUsed(l, block, a);
        logged := logged + {BitmapBlock(l, a)};
        block := block[a := Zeroed()];
        logged := logged + {a};
        assert a !in owner && !Full();
      }
    }

    /** An address kept in the inode, allocated if it is zero (fs.c:384-385, 392-393). */
    method DirectAddr(i: nat, k: nat) returns (r: Option<nat>)
      requires Consistent() && ValidSlot(Now(), Direct(i, k))
      modifies this
      ensures Consistent() && SameBytes(old(Now()), Now()) && |inode| == |old(inode)|
      ensures old(inode)[i].addrs[k] != 0 ==>
                r == Some(old(inode)[i].addrs[k]) && Now() == old(Now()) && owner == old(owner) && logged == old(logged)
      ensures r.None? ==> Now() == old(Now()) && owner == old(owner) && logged == old(logged) && Full()
      ensures r.Some? ==> AddrOf(Now(), Direct(i, k)) == r.value && r.value != 0
      ensures r.Some? ==> logged == old(logged) + SlotLog(old(Now()), Now(), Direct(i, k))
      ensures TookLowest(l.nmeta, old(owner), owner, if r.Some? && old(inode)[i].addrs[k] == 0 then 1 else 0)
      ensures forall s :: ValidSlot(old(Now()), s) && s != Direct(i, k) ==> AddrOf(Now(), s) == AddrOf(old(Now()), s)
    {
      hide Owned, Marked, SameBytes, Bit, TookLowest;
      IndirectAt(Now(), i);
      TookNothing(l.nmeta, owner);
      SameBytesRefl(Now());
      if inode[i].addrs[k] != 0 {
        return Some(inode[i].addrs[k]);
      }
      r := Balloc();
      if r.Some? {
        TookOne(l.nmeta, owner, r.value, Direct(i, k));
        DirectAddrs(old(Now()), owner, i, k, r.value);
        StoreDirect(i, k, r.value);
        SameBytesTrans(old(Now()), Allocated(old(Now()), r.value), Now());
      }
    }

    method StoreDirect(i: nat, k: nat, a: nat)
      requires Owned(Now(), owner, {}) && Marked(Now(), owner, {a}) && Takeable(Now(), owner, a)
      requires ValidSlot(Now(), Direct(i, k)) && AddrOf(Now(), Direct(i, k)) == 0
      modifies this`inode, this`owner
      ensures Consistent() && Now() == PutDirect(old(Now()), i, k, a) && SameBytes(old(Now()), Now())
      ensures owner == old(owner)[a := Direct(i, k)]
    {
      PutDirectOwned(Now(), owner, {a}, i, k, a);
      assert {a} - {a} == {};
      hide Owned, Marked, SameBytes;
      inode := inode[i := inode[i].(addrs := inode[i].addrs[k := a])];
      owner := owner[a := Direct(i, k)];
    }

    /** An address kept in the indirect block, allocated if it is zero (fs.c:394-400). */
    method EntryAddr(i: nat, j: nat) returns (r: Option<nat>)
      requires Consistent() && ValidSlot(Now(), Entry(i, j)) && inode[i].addrs[NDIRECT] != 0
      modifies this
      ensures Consistent() && SameBytes(old(Now()), Now()) && inode == old(inode)
      ensures r.None? || old(AddrOf(Now(), Entry(i, j))) != 0 ==>
                Now() == old(Now()) && owner == old(owner) && logged == old(logged)
      ensures r.None? ==> old(AddrOf(Now(), Entry(i, j))) == 0 && Full()
      ensures r.Some? ==> AddrOf(Now(), Entry(i, j)) == r.value && r.value != 0
      ensures r.Some? && old(AddrOf(Now(), Entry(i, j))) == 0 ==>
                logged == old(logged) + SlotLog(old(Now()), Now(), Entry(i, j)) + {inode[i].addrs[NDIRECT]}
      ensures TookLowest(l.nmeta, old(owner), owner,
                         if r.Some? && old(AddrOf(Now(), Entry(i, j))) == 0 then 1 else 0)
      ensures forall s :: ValidSlot(old(Now()), s) && s != Entry(i, j) ==> AddrOf(Now(), s) == AddrOf(old(Now()), s)
    {
      hide Owned, Marked, SameBytes, Word, Bit, TookLowest;
      var x := inode[i].addrs[NDIRECT];
      var addr := Word(block[x], j);
      SameBytesRefl(Now());
      TookNothing(l.nmeta, owner);
      if addr != 0 {
        return Some(addr);
      }
      IndirectAt(Now(), i);
      r := Balloc();
      if r.Some? {
        TookOne(l.nmeta, owner, r.value, Entry(i, j));
        EntryAddrs(old(Now()), owner, i, j, r.value);
        ShapeAllocated(old(Now()), r.value);
        AllocatedAddr(old(Now()), owner, r.value, Entry(i, j));
        AllocatedAddr(old(Now()), owner, r.value, Direct(i, NDIRECT));
        StoreEntry(i, j, r.value);
        SameBytesTrans(old(Now()), Allocated(old(Now()), r.value), Now());
      }
    }

    method StoreEntry(i: nat, j: nat, a: nat)
      requires Owned(Now(), owner, {}) && Marked(Now(), owner, {a}) && Takeable(Now(), owner, a)
      requires ValidSlot(Now(), Entry(i, j)) && AddrOf(Now(), Entry(i, j)) == 0
      requires AddrOf(Now(), Direct(i, NDIRECT)) != 0
      modifies this`block, this`owner, this`logged
      ensures Consistent() && Now() == PutEntry(old(Now()), i, j, a) && SameBytes(old(Now()), Now())
      ensures logged == old(logged) + {inode[i].addrs[NDIRECT]} && owner == old(owner)[a := Entry(i, j)]
    {
      hide Owned, Marked, SameBytes, SetWord, Word;
      PutEntryOwned(Now(), owner, {a}, i, j, a);
      PutEntryBytes(Now(), owner, i, j, a);
      assert {a} - {a} == {};
      var x := inode[i].addrs[NDIRECT];
      block := block[x := SetWord(block[x], j, a)];
      owner := owner[a := Entry(i, j)];
      logged := logged + {x};
    }

    /** bmap (fs.c:377-405): the address of block bn, allocated if missing, and with it the
        indirect block. No byte of any file and no other address changes, and exactly the
        blocks that change are logged. None is a panic: out of range, or too few free
        blocks; `took` of them were taken. */
    method Bmap(i: nat, bn: nat) returns (r: Option<nat>, ghost took: nat)
      requires Consistent() && i < |inode|
      modifies this
      ensures Consistent() && SameBytes(old(Now()), Now()) && |inode| == |old(inode)|
      ensures bn < MAXFILE && old(AddrOf(Now(), BlockSlot(i, bn))) != 0 ==>
                r.Some? && Now() == old(Now()) && owner == old(owner) && logged == old(logged)
      ensures r.Some? ==> bn < MAXFILE && AddrOf(Now(), BlockSlot(i, bn)) == r.value && r.value != 0
      ensures r.Some? ==> Filled(old(Now()), Now(), i, bn, bn + 1)
      ensures r.Some? ==> logged == old(logged) + MapLog(old(Now()), Now(), i, bn)
      ensures TookLowest(l.nmeta, old(owner), owner, took)
      ensures r.Some? ==> took == Need(old(Now()), i, bn, bn + 1)
      ensures r.None? ==> bn >= MAXFILE || (Full() && took < Need(old(Now()), i, bn, bn + 1))
    {
      hide Owned, Marked, SameBytes, TookLowest, Filled, MapLog, Need;
      if bn < NDIRECT {
        r, took := MapDirect(i, bn);
      } else if bn - NDIRECT < NINDIRECT {
        r, took := MapEntry(i, bn);
      } else {
        r, took := None, 0;
        SameBytesRefl(Now());
        TookNothing(l.nmeta, owner);
      }
    }

    /** A block with a direct address (fs.c:383-387). */
    method MapDirect(i: nat, bn: nat) returns (r: Option<nat>, ghost took: nat)
      requires Consistent() && i < |inode| && bn < NDIRECT
      modifies this
      ensures Consistent() && SameBytes(old(Now()), Now()) && |inode| == |old(inode)|
      ensures old(AddrOf(Now(), BlockSlot(i, bn))) != 0 ==>
                r.Some? && Now() == old(Now()) && owner == old(owner) && logged == old(logged)
      ensures r.Some? ==> AddrOf(Now(), BlockSlot(i, bn)) == r.value && r.value != 0
      ensures r.Some? ==> Filled(old(Now()), Now(), i, bn, bn + 1)
      ensures r.Some? ==> logged == old(logged) + MapLog(old(Now()), Now(), i, bn)
      ensures TookLowest(l.nmeta, old(owner), owner, took)
      ensures r.Some? ==> took == Need(old(Now()), i, bn, bn + 1)
      ensures r.None? ==> Full() && took < Need(old(Now()), i, bn, bn + 1)
    {
      hide Owned, Marked, SameBytes, TookLowest, Filled, AddrOf, MapLog, Need, SlotLog;
      ghost var fs := Now();
      DirectAt(fs, i, bn);
      r := DirectAddr(i, bn);
      DirectAt(Now(), i, bn);
      OneDirect(fs, Now(), i, bn);
      took := if r.Some? && fs.inode[i].addrs[bn] == 0 then 1 else 0;
    }

    /** A block with an address in the indirect block (fs.c:389-402). */
    method MapEntry(i: nat, bn: nat) returns (r: Option<nat>, ghost took: nat)
      requires Consistent() && i < |inode| && NDIRECT <= bn < MAXFILE
      modifies this
      ensures Consistent() && SameBytes(old(Now()), Now()) && |inode| == |old(inode)|
      ensures old(AddrOf(Now(), BlockSlot(i, bn))) != 0 ==>
                r.Some? && Now() == old(Now()) && owner == old(owner) && logged == old(logged)
      ensures r.Some? ==> AddrOf(Now(), BlockSlot(i, bn)) == r.value && r.value != 0
      ensures r.Some? ==> Filled(old(Now()), Now(), i, bn, bn + 1)
      ensures r.Some? ==> logged == old(logged) + MapLog(old(Now()), Now(), i, bn)
      ensures TookLowest(l.nmeta, old(owner), owner, took)
      ensures r.Some? ==> took == Need(old(Now()), i, bn, bn + 1)
      ensures r.None? ==> Full() && took < Need(old(Now()), i, bn, bn + 1)
    {
      hide Owned, Marked, SameBytes, TookLowest, Filled, AddrOf, MapLog, Need, SlotLog;
      ghost var fs := Now();
      IndirectAt(fs, i);
      NeedOne(fs, i, bn);
      EntryNeedsIndirect(fs, i, bn);
      var x := DirectAddr(i, NDIRECT);
      took := if x.Some? && fs.inode[i].addrs[NDIRECT] == 0 then 1 else 0;
      if x.None? {
        return None, took;
      }
      ghost var mid, midOwner, midLog := Now(), owner, logged;
      IndirectAt(mid, i);
      OnlySlot(fs, mid, Direct(i, NDIRECT), BlockSlot(i, bn));
      r := EntryAddr(i, bn - NDIRECT);
      SameBytesTrans(fs, mid, Now());
      IndirectAt(Now(), i);
      ghost var more := if r.Some? && AddrOf(mid, BlockSlot(i, bn)) == 0 then 1 else 0;
      TookMore(l.nmeta, old(owner), midOwner, owner, took, more);
      took := took + more;
      if r.Some? { OneEntry(fs, mid, Now(), i, bn, old(logged), midLog, logged); }
    }

    /** One turn of writei's loop (fs.c:498-505): part of one block. */
    method WritePart(i: nat, o: nat, part: seq<Byte>) returns (ok: bool, ghost took: nat)
      requires Consistent() && i < |inode| && o < MAXFILE * BSIZE && 0 < |part| <= BSIZE - o % BSIZE
      modifies this
      ensures Consistent() && |inode| == |old(inode)| && TookLowest(l.nmeta, old(owner), owner, took)
      ensures !ok ==> Full() && took < Need(old(Now()), i, o / BSIZE, o / BSIZE + 1)
      ensures ok ==> took == Need(old(Now()), i, o / BSIZE, o / BSIZE + 1)
      ensures ok ==> Filled(old(Now()), Now(), i, o / BSIZE, o / BSIZE + 1) && SameSizes(old(Now()), Now())
      ensures ok ==> Patched(old(Now()), Now(), i, o, part)
      ensures ok ==> logged == old(logged) + MapLog(old(Now()), Now(), i, o / BSIZE)
                               + {AddrOf(Now(), BlockSlot(i, o / BSIZE))}
    {
      hide Owned, Marked, SameBytes, Patched, TookLowest, Filled, MapLog;
      ghost var fs := Now();
      var addr;
      addr, took := Bmap(i, o / BSIZE);
      if addr.None? {
        return false, took;
      }
      ghost var mid := Now();
      ghost var a := addr.value;
      SlotOwned(mid, owner, i, o / BSIZE);
      BytesSizes(fs, mid);
      var b := block[addr.value];
      var k := o % BSIZE;
      var nb: Block := b[..k] + part + b[k + |part|..];
      WriteDataOwned(mid, owner, {}, a, nb);
      WriteDataKeeps(mid, owner, a, nb);
      PatchBlock(mid, owner, i, o, part, nb);
      SameAddrs(fs, mid, WriteData(mid, a, nb), i, o / BSIZE);
      SamePatched(fs, mid, WriteData(mid, a, nb), i, o, part);
      block := block[addr.value := nb];
      logged := logged + {a};
      ok := true;
    }

    /** The loop of writei (fs.c:497-506): what it fills, takes and logs is exact, and it
        fails exactly for want of free blocks. */
    method WriteLoop(i: nat, off: nat, data: seq<Byte>) returns (ok: bool)
      requires Consistent() && i < |inode| && Mapped(Now(), i, off) && off + |data| <= MAXFILE * BSIZE
      modifies this
      ensures Consistent() && |inode| == |old(inode)|
      ensures !ok <==> Short(old(Now()), old(owner), i, off, |data|)
      ensures !ok ==> Full()
      ensures ok ==> KeepsAddrs(old(Now()), Now()) && SameSizes(old(Now()), Now())
      ensures ok ==> Patched(old(Now()), Now(), i, off, data) && Mapped(Now(), i, off + |data|)
      ensures ok ==> Progress(old(Now()), old(owner), old(logged), Now(), owner, logged,
                              i, off / BSIZE, End(off, |data|))
    {
      hide Owned, Marked, SameBytes, Patched, KeepsAddrs, Mapped, SameSizes, Filled, TookLowest, Progress, End, Short;
      var n := |data|;
      ghost var fs, was, had := Now(), owner, logged;
      ghost var h := off / BSIZE;
      var tot := 0;
      NothingWritten(fs, i, off);
      EndStart(off, n);
      ProgressStart(fs, was, had, i, h);
      while tot < n
        invariant 0 <= tot <= n && h == End(off, tot)
        invariant tot == 0 || tot == n || (off + tot) % BSIZE == 0
        invariant Consistent() && |inode| == |old(inode)|
        invariant KeepsAddrs(fs, Now()) && SameSizes(fs, Now())
        invariant Patched(fs, Now(), i, off, data[..tot])
        invariant Mapped(Now(), i, off + tot)
        invariant Progress(fs, was, had, Now(), owner, logged, i, off / BSIZE, h)
      {
        var m := Min(n - tot, BSIZE - (off + tot) % BSIZE);
        ghost var mid, midOwner, midLog := Now(), owner, logged;
        EndMore(off, tot, m, n);
        ghost var took;
        ok, took := WritePart(i, off + tot, data[tot..tot + m]);
        if !ok {
          ProgressStops(fs, was, had, mid, midOwner, midLog, Now(), owner, i, off, n, h, took);
          return;
        }
        ProgressMore(fs, was, had, mid, midOwner, midLog, Now(), owner, logged, i, off / BSIZE, h);
        FilledKeeps(mid, Now(), i, h, h + 1);
        TurnKeeps(fs, mid, Now(), i, off, data, tot, m);
        tot := tot + m;
        h := h + 1;
      }
      assert data[..n] == data;
      ok := true;
      ProgressEnds(fs, was, had, Now(), owner, logged, i, off, n);
    }

    /** writei (fs.c:486-517) when every copy succeeds. The file becomes the old one
        with `data` spliced in at `off`; no other file changes. -1 leaves everything
        as it was; None is a balloc panic, exactly when fewer blocks are free than the
        write needs. The blocks logged are exact; a chunk of at most three blocks logs
        at most MAXOPBLOCKS, and one in the worst place that many. */
    method Writei(i: nat, off: nat, data: seq<Byte>) returns (r: Option<int>)
      requires Valid() && i < |inode| && off < TWO32 && |data| < TWO32
      modifies this
      ensures Consistent() && (r.None? ==> Full())
      ensures r == Some(-1) <==> off > old(inode)[i].size || off + |data| > MAXFILE * BSIZE
      ensures r.None? <==> off <= old(inode)[i].size && off + |data| <= MAXFILE * BSIZE
                           && Short(old(Now()), old(owner), i, off, |data|)
      ensures r == Some(-1) ==> Now() == old(Now()) && logged == old(logged)
      ensures r.Some? && r.value != -1 ==> r.value == |data| && Valid() && |inode| == |old(inode)|
      ensures r.Some? && r.value != -1 ==> Contents(Now(), i) == Splice(old(Contents(Now(), i)), off, data)
      ensures r.Some? && r.value != -1 ==>
                forall m :: 0 <= m < |inode| && m != i ==> Contents(Now(), m) == old(Contents(Now(), m))
      ensures r.Some? && r.value != -1 ==> LoggedBy(old(Now()), Now(), old(logged), logged, i, off, |data|)
      ensures r.Some? && |data| <= 3 * BSIZE ==> |logged - old(logged)| <= MAXOPBLOCKS
      ensures old(logged) == {} ==> WorstIsReached(old(Now()), old(owner), i, off, |data|, r, logged)
    {
      hide Owned, Marked, Patched, KeepsAddrs, Mapped, HoleFree, Contents, Splice, Progress, Short, LoggedBy, End,
           WorstIsReached;
      var n := |data|;
      NotRefused(Now(), owner, i, off, n, logged);
      assert (off + n) % TWO32 < off <==> off + n >= TWO32;
      if off > inode[i].size || (off + n) % TWO32 < off {
        return Some(-1);
      }
      if off + n > MAXFILE * BSIZE {
        return Some(-1);
      }
      ghost var fs, was := Now(), owner;
      MappedStart(fs, i, off);
      var ok := WriteLoop(i, off, data);
      if !ok {
        NotShort(fs, was, i, off, n, logged);
        return None;
      }
      ghost var gs := Now();
      WriteDone(fs, gs, owner, i, off, data);
      if off + n > inode[i].size {
        inode := inode[i := inode[i].(size := off + n)];
      }
      ghost var mid := logged;
      logged := logged + {InodeBlock(l, i)};
      WriteLogged(fs, was, old(logged), gs, owner, mid, i, off, n);
      if n <= 3 * BSIZE { LoggedBudget(fs, Now(), old(logged), logged, i, off, n); }
      if old(logged) == {} { WorstLogged(fs, was, gs, owner, mid, Now(), logged, i, off, n); }
      r := Some(n);
    }

    /** readi (fs.c:455-477) when every copy succeeds: the slice of the file, cut off
        at its end; nothing changes. */
    method Readi(i: nat, off: nat, n: nat) returns (data: seq<Byte>)
      requires Valid() && i < |inode| && off < TWO32 && n < TWO32
      modifies this
      ensures Valid() && Now() == old(Now()) && owner == old(owner) && logged == old(logged)
      ensures off > inode[i].size || off + n >= TWO32 ==> data == []
      ensures off <= inode[i].size && off + n < TWO32 ==>
                data == Contents(Now(), i)[off..Min(off + n, inode[i].size)]
    {
      hide FsOk, Contents;
      ReadableSize(Now(), owner, i);
      data := [];
      assert (off + n) % TWO32 < off <==> off + n >= TWO32;
      if off > inode[i].size || (off + n) % TWO32 < off {
        return;
      }
      var len := if off + n > inode[i].size then inode[i].size - off else n;
      var tot := 0;
      while tot < len
        invariant 0 <= tot <= len && |data| == tot
        invariant Valid() && Now() == old(Now()) && owner == old(owner) && logged == old(logged)
        invariant data == Contents(Now(), i)[off..off + tot]
      {
        var m := Min(len - tot, BSIZE - (off + tot) % BSIZE);
        var part := ReadPart(i, off + tot, m);
        data := data + part;
        tot := tot + m;
      }
    }

    /** One turn of readi's loop (fs.c:467-474): part of one block. */
    method ReadPart(i: nat, o: nat, m: nat) returns (part: seq<Byte>)
      requires Valid() && i < |inode| && 0 < m <= BSIZE - o % BSIZE && o + m <= inode[i].size
      modifies this
      ensures Valid() && Now() == old(Now()) && owner == old(owner) && logged == old(logged)
      ensures part == Contents(Now(), i)[o..o + m]
    {
      hide Owned, Marked, KeepsAddrs, SameBytes, HoleFree, Contents, AddrOf, ValidSlot, BlockSlot;
      MappedStart(Now(), i, inode[i].size);
      assert o / BSIZE * BSIZE <= o;
      ghost var took;
      var addr;
      addr, took := Bmap(i, o / BSIZE);
      SlotOwned(Now(), owner, i, o / BSIZE);
      part := block[addr.value][o % BSIZE..o % BSIZE + m];
      ReadBlock(Now(), owner, i, o, m);
    }

    /** bfree (fs.c:89-103); false is the panic "freeing free block". */
    method Bfree(a: nat) returns (ok: bool)
      requires Shape(Now()) && a < l.size
      modifies this`block, this`logged
      ensures ok <==> Bit(l, old(block), a)
      ensures !ok ==> block == old(block) && logged == old(logged)
      ensures ok ==> block == MarkFree(l, old(block), a) && logged == old(logged) + {BitmapBlock(l, a)}
    {
      hide BitOf, WithoutBit;
      var bp := block[l.bmapstart + a / BPB];
      var bi := a % BPB;
      BitPlace(a);
      if !BitOf(bp[bi / 8], bi % 8) {
        return false;
      }
      block := block[l.bmapstart + a / BPB := bp[bi / 8 := WithoutBit(bp[bi / 8], bi % 8)]];
      logged := logged + {BitmapBlock(l, a)};
      return true;
    }

    /** Free the block in an inode slot (fs.c:417-420, 431-432). */
    method ReleaseDirect(i: nat, k: nat, ghost dead: set<Slot>) returns (ok: bool)
      requires Shape(Now()) && Owned(Now(), owner, dead) && Marked(Now(), owner, {}) && EntriesOnly(dead)
      requires ValidSlot(Now(), Direct(i, k)) && inode[i].addrs[k] != 0
      requires k < NDIRECT ==> dead == {}
      requires k == NDIRECT ==> forall s :: s in dead <==> s.Entry? && s.ino == i && s.j < NINDIRECT
      modifies this
      ensures ok && Consistent() && inode == old(inode)[i := old(inode)[i].(addrs := old(inode)[i].addrs[k := 0])]
      ensures OthersKept(old(Now()), Now(), i) && OwnerShrinks(old(owner), owner, i)
    {
      hide Owned, Marked, Bit, MarkFree;
      var a := inode[i].addrs[k];
      assert AddrOf(Now(), Direct(i, k)) == a;
      FreeDirectOwned(Now(), owner, dead, i, k);
      FreedOthers(Now(), owner, dead, a);
      ok := Bfree(a);
      inode := inode[i := inode[i].(addrs := inode[i].addrs[k := 0])];
      owner := owner - {a};
    }

    /** Free the block in an indirect entry (fs.c:427-428). */
    method ReleaseEntry(i: nat, j: nat, ghost dead: set<Slot>) returns (ok: bool)
      requires Shape(Now()) && Owned(Now(), owner, dead) && Marked(Now(), owner, {}) && EntriesOnly(dead)
      requires ValidSlot(Now(), Entry(i, j)) && Entry(i, j) !in dead && inode[i].addrs[NDIRECT] != 0
      modifies this`block, this`owner, this`logged
      ensures ok && Owned(Now(), owner, dead + {Entry(i, j)}) && Marked(Now(), owner, {})
      ensures OthersKept(old(Now()), Now(), i) && OwnerShrinks(old(owner), owner, i)
    {
      hide Owned, Marked, Bit, MarkFree, Word;
      var a := Word(block[inode[i].addrs[NDIRECT]], j);
      assert AddrOf(Now(), Entry(i, j)) == a;
      if a == 0 {
        ZeroEntryDead(Now(), owner, dead, Entry(i, j));
        return true;
      }
      FreeEntryOwned(Now(), owner, dead, i, j);
      FreedOthers(Now(), owner, dead, a);
      ok := Bfree(a);
      owner := owner - {a};
    }

    /** itrunc (fs.c:409-437): exactly the blocks of inode i are released, every one of
        them was marked, and no other file changes. */
    method Itrunc(i: nat) returns (ok: bool)
      requires Valid() && i < |inode|
      modifies this
      ensures ok && Valid() && |inode| == |old(inode)|
      ensures inode[i] == Inode(0, seq(NDIRECT + 1, _ => 0))
      ensures owner == map a | a in old(owner) && old(owner)[a].ino != i :: old(owner)[a]
      ensures forall m :: 0 <= m < |inode| && m != i ==>
                inode[m] == old(inode)[m] && Contents(Now(), m) == old(Contents(Now(), m))
    {
      hide Owned, Marked, HoleFree, Contents, OthersKept, OwnerShrinks, Shape;
      ghost var fs, was := Now(), owner;
      NothingReleased(fs, owner, i);
      var k := 0;
      while k < NDIRECT
        invariant 0 <= k <= NDIRECT && |inode| == |fs.inode| && Consistent()
        invariant OthersKept(fs, Now(), i) && OwnerShrinks(was, owner, i)
        invariant |inode[i].addrs| == NDIRECT + 1 && forall x :: 0 <= x < k ==> inode[i].addrs[x] == 0
      {
        if inode[i].addrs[k] != 0 {
          ghost var mid, midOwner := Now(), owner;
          ok := ReleaseDirect(i, k, {});
          KeptTrans(fs, mid, Now(), i);
          ShrinksTrans(was, midOwner, owner, i);
        }
        k := k + 1;
      }
      if inode[i].addrs[NDIRECT] != 0 {
        ghost var mid, midOwner := Now(), owner;
        ok := ReleaseIndirect(i);
        KeptTrans(fs, mid, Now(), i);
        ShrinksTrans(was, midOwner, owner, i);
      }
      assert inode[i].addrs == seq(NDIRECT + 1, _ => 0);
      Truncated(fs, Now(), was, owner, i);
      inode := inode[i := inode[i].(size := 0)];
      logged := logged + {InodeBlock(l, i)};
      ok := true;
    }

    /** The indirect half of itrunc (fs.c:423-433). */
    method ReleaseIndirect(i: nat) returns (ok: bool)
      requires Consistent() && i < |inode| && inode[i].addrs[NDIRECT] != 0
      modifies this
      ensures ok && Consistent()
      ensures inode == old(inode)[i := old(inode)[i].(addrs := old(inode)[i].addrs[NDIRECT := 0])]
      ensures OthersKept(old(Now()), Now(), i) && OwnerShrinks(old(owner), owner, i)
    {
      hide Owned, Marked, OthersKept, OwnerShrinks, Shape;
      ghost var fs, was := Now(), owner;
      NothingReleased(fs, owner, i);
      ghost var dead: set<Slot> := {};
      var j := 0;
      while j < NINDIRECT
        invariant 0 <= j <= NINDIRECT && inode == fs.inode
        invariant Shape(Now()) && Owned(Now(), owner, dead) && Marked(Now(), owner, {})
        invariant forall s :: s in dead <==> s.Entry? && s.ino == i && s.j < j
        invariant OthersKept(fs, Now(), i) && OwnerShrinks(was, owner, i)
      {
        ghost var mid, midOwner := Now(), owner;
        ok := ReleaseEntry(i, j, dead);
        KeptTrans(fs, mid, Now(), i);
        ShrinksTrans(was, midOwner, owner, i);
        OwnedShape(Now(), owner, dead + {Entry(i, j)});
        dead := dead + {Entry(i, j)};
        j := j + 1;
      }
      ghost var mid, midOwner := Now(), owner;
      ok := ReleaseDirect(i, NDIRECT, dead);
      KeptTrans(fs, mid, Now(), i);
      ShrinksTrans(was, midOwner, owner, i);
    }

    /** filewrite on an inode (file.c:149-175): chunks of three blocks, each its own
        operation. The file is the old one with the written prefix spliced in; the
        whole of `data` is written exactly when it fits below the maximum file size
        from an offset inside the file; no operation logs more than MAXOPBLOCKS
        blocks (`worst`). None is a balloc panic. */
    method FileWrite(i: nat, off: nat, data: seq<Byte>)
      returns (ret: Option<int>, newOff: nat, ghost worst: nat)
      requires Valid() && i < |inode| && off < TWO32 && |data| < TWO32
      modifies this
      ensures worst <= MAXOPBLOCKS && (ret.None? ==> Full())
      ensures ret.Some? ==> Valid() && |inode| == |old(inode)| && off <= newOff <= off + |data|
      ensures ret.Some? ==> newOff == off || off <= |old(Contents(Now(), i))|
      ensures ret.Some? && off <= |old(Contents(Now(), i))| ==>
                Contents(Now(), i) == Splice(old(Contents(Now(), i)), off, data[..newOff - off])
      ensures ret.Some? && off > |old(Contents(Now(), i))| ==> Contents(Now(), i) == old(Contents(Now(), i))
      ensures ret.Some? ==>
                forall m :: 0 <= m < |inode| && m != i ==> Contents(Now(), m) == old(Contents(Now(), m))
      ensures ret.Some? ==> ret.value == |data| || ret.value == -1
      ensures ret.Some? ==>
                (ret.value == |data| <==>
                   |data| == 0 || (off <= |old(Contents(Now(), i))| && off + |data| <= MAXFILE * BSIZE))
      ensures ret == Some(|data|) ==> newOff == off + |data|
    {
      hide Owned, Marked, HoleFree, Contents, Splice, Short, LoggedBy, WorstIsReached;
      var max := (MAXOPBLOCKS - 1 - 1 - 2) / 2 * BSIZE;
      var n := |data|;
      var k := 0;
      ghost var c := Contents(Now(), i);
      worst := 0;
      newOff := off;
      SpliceNothing(c, off);
      while k < n
        invariant 0 <= k <= n && newOff == off + k && worst <= MAXOPBLOCKS
        invariant Valid() && |inode| == |old(inode)|
        invariant k > 0 ==> off <= |c| && off + k <= MAXFILE * BSIZE
        invariant if off <= |c| then Contents(Now(), i) == Splice(c, off, data[..k])
                  else k == 0 && Contents(Now(), i) == c
        invariant forall m :: 0 <= m < |inode| && m != i ==> Contents(Now(), m) == old(Contents(Now(), m))
      {
        var n1 := Min(n - k, max);
        if off <= |c| { SpliceMore(c, off, data, k, n1); }
        logged := {};
        var r := Writei(i, newOff, data[k..k + n1]);
        if r.None? {
          return None, newOff, worst;
        }
        worst := if |logged| > worst then |logged| else worst;
        if r.value > 0 {
          newOff := newOff + r.value;
        }
        if r.value != n1 {
          return Some(-1), newOff, worst;
        }
        k := k + r.value;
      }
      assert data[..n] == data;
      ret := Some(n);
    }
  }

  lemma ReadableSize(fs: Fs, owner: map<nat, Slot>, i: nat)
    requires FsOk(fs, owner) && i < |fs.inode|
    ensures Shape(fs) && fs.inode[i].size <= MAXFILE * BSIZE
  {
  }

  lemma OwnedShape(fs: Fs, owner: map<nat, Slot>, dead: set<Slot>)
    requires Owned(fs, owner, dead)
    ensures Shape(fs)
  {
  }

  lemma NothingReleased(fs: Fs, owner: map<nat, Slot>, i: nat)
    requires Shape(fs) && i < |fs.inode|
    ensures OthersKept(fs, fs, i) && OwnerShrinks(owner, owner, i) && |fs.inode[i].addrs| == NDIRECT + 1
  {
  }

  lemma KeptTrans(a: Fs, b: Fs, c: Fs, i: nat)
    requires OthersKept(a, b, i) && OthersKept(b, c, i)
    ensures OthersKept(a, c, i)
  {
  }

  lemma ShrinksTrans(a: map<nat, Slot>, b: map<nat, Slot>, c: map<nat, Slot>, i: nat)
    requires OwnerShrinks(a, b, i) && OwnerShrinks(b, c, i)
    ensures OwnerShrinks(a, c, i)
  {
  }

  /** Inode i with size 0. */
  function Emptied(gs: Fs, i: nat): Fs
    requires i < |gs.inode|
  {
    gs.(inode := gs.inode[i := gs.inode[i].(size := 0)])
  }

  /** All addresses of inode i cleared: it owns nothing, the others keep everything. */
  lemma Truncated(fs: Fs, gs: Fs, was: map<nat, Slot>, owner: map<nat, Slot>, i: nat)
    requires FsOk(fs, was) && Owned(gs, owner, {}) && Marked(gs, owner, {}) && i < |fs.inode|
    requires OthersKept(fs, gs, i) && OwnerShrinks(was, owner, i)
    requires gs.inode[i].addrs == seq(NDIRECT + 1, _ => 0)
    ensures var rs := Emptied(gs, i);
            && FsOk(rs, owner) && owner == (map a | a in was && was[a].ino != i :: was[a])
            && (forall m :: 0 <= m < |fs.inode| && m != i ==>
                  rs.inode[m] == fs.inode[m] && Contents(rs, m) == Contents(fs, m))
  {
    var rs := Emptied(gs, i);
    TruncatedOwner(gs, was, owner, i);
    TruncatedOwned(gs, owner, i);
    assert Shape(rs) && OthersKept(fs, rs, i);
    OthersAddr(fs, rs, was, i);
    hide AddrOf, ByteAt, Bit, Owned, Marked, BlockSlot, ValidSlot, Contents, Emptied;
    forall m | 0 <= m < |rs.inode| ensures rs.inode[m].size <= MAXFILE * BSIZE && HoleFree(rs, m) {
      if m == i { EmptyHoleFree(rs, i); } else { TruncatedOther(fs, rs, m); }
    }
    forall m | 0 <= m < |fs.inode| && m != i ensures Contents(rs, m) == Contents(fs, m) { TruncatedOther(fs, rs, m); }
  }

  lemma EmptyHoleFree(rs: Fs, i: nat)
    requires Shape(rs) && i < |rs.inode| && rs.inode[i].size == 0
    ensures HoleFree(rs, i)
  {
  }

  lemma TruncatedOwner(gs: Fs, was: map<nat, Slot>, owner: map<nat, Slot>, i: nat)
    requires Owned(gs, owner, {}) && OwnerShrinks(was, owner, i) && i < |gs.inode|
    requires gs.inode[i].addrs == seq(NDIRECT + 1, _ => 0)
    ensures owner == map a | a in was && was[a].ino != i :: was[a]
  {
    ZeroedOwnsNothing(gs, owner, i);
    hide Owned;
  }

  lemma TruncatedOther(fs: Fs, rs: Fs, m: nat)
    requires Shape(fs) && Shape(rs) && m < |fs.inode| == |rs.inode| && rs.inode[m] == fs.inode[m] && HoleFree(fs, m)
    requires forall s :: ValidSlot(fs, s) && s.ino == m ==> AddrOf(rs, s) == AddrOf(fs, s)
    requires forall o :: 0 <= o < MAXFILE * BSIZE ==> ByteAt(rs, m, o) == ByteAt(fs, m, o)
    ensures HoleFree(rs, m) && Contents(rs, m) == Contents(fs, m)
  {
    hide AddrOf, ByteAt;
    assert forall bn :: 0 <= bn < MAXFILE ==> ValidSlot(fs, BlockSlot(m, bn));
  }

  lemma OthersAddr(fs: Fs, rs: Fs, was: map<nat, Slot>, i: nat)
    requires Owned(fs, was, {}) && OthersKept(fs, rs, i) && i < |fs.inode|
    ensures forall s :: ValidSlot(fs, s) && s.ino != i ==> AddrOf(rs, s) == AddrOf(fs, s)
    ensures forall m, o :: 0 <= m < |fs.inode| && m != i && 0 <= o < MAXFILE * BSIZE ==>
            ByteAt(rs, m, o) == ByteAt(fs, m, o)
  {
    forall s | ValidSlot(fs, s) && s.ino != i ensures AddrOf(rs, s) == AddrOf(fs, s) {
      if s.Entry? {
        assert AddrOf(fs, Direct(s.ino, NDIRECT)) == fs.inode[s.ino].addrs[NDIRECT];
      }
    }
    hide AddrOf;
    forall m, o | 0 <= m < |fs.inode| && m != i && 0 <= o < MAXFILE * BSIZE
      ensures ByteAt(rs, m, o) == ByteAt(fs, m, o)
    {
      var s := BlockSlot(m, o / BSIZE);
      assert AddrOf(rs, s) == AddrOf(fs, s);
    }
  }

  lemma ZeroedOwnsNothing(gs: Fs, owner: map<nat, Slot>, i: nat)
    requires Owned(gs, owner, {}) && i < |gs.inode| && gs.inode[i].addrs == seq(NDIRECT + 1, _ => 0)
    ensures forall a :: a in owner ==> owner[a].ino != i
    ensures forall s :: ValidSlot(gs, s) && s.ino == i ==> AddrOf(gs, s) == 0
  {
    forall s | ValidSlot(gs, s) && s.ino == i ensures AddrOf(gs, s) == 0 {
    }
  }

  lemma TruncatedOwned(gs: Fs, owner: map<nat, Slot>, i: nat)
    requires Owned(gs, owner, {}) && Marked(gs, owner, {}) && i < |gs.inode|
    ensures Owned(Emptied(gs, i), owner, {}) && Marked(Emptied(gs, i), owner, {})
  {
    hide Bit;
    var rs := Emptied(gs, i);
    forall s | ValidSlot(gs, s) ensures AddrOf(rs, s) == AddrOf(gs, s) {
    }
    hide AddrOf;
  }

  /** Apart from inode i and the bitmap nothing changed. */
  ghost predicate OthersKept(fs: Fs, gs: Fs, i: nat) {
    && Shape(fs) && Shape(gs) && fs.l == gs.l && |fs.inode| == |gs.inode|
    && (forall m :: 0 <= m < |fs.inode| && m != i ==> gs.inode[m] == fs.inode[m])
    && (forall x :: fs.l.nmeta <= x < fs.l.size ==> gs.block[x] == fs.block[x])
  }

  /** Only blocks of inode i were given up. */
  ghost predicate OwnerShrinks(was: map<nat, Slot>, now: map<nat, Slot>, i: nat) {
    && (forall a :: a in now ==> a in was && now[a] == was[a])
    && (forall a :: a in was && was[a].ino != i ==> a in now)
  }

  lemma FreedOthers(fs: Fs, owner: map<nat, Slot>, dead: set<Slot>, a: nat)
    requires Owned(fs, owner, dead) && a in owner && Bit(fs.l, fs.block, a)
    ensures a < fs.l.size && OwnerShrinks(owner, owner - {a}, owner[a].ino)
    ensures forall x :: fs.l.nmeta <= x < fs.l.size ==> MarkFree(fs.l, fs.block, a)[x] == fs.block[x]
  {
    BitmapIsMeta(fs.l, a);
  }

  lemma ZeroEntryDead(fs: Fs, owner: map<nat, Slot>, dead: set<Slot>, s: Slot)
    requires Owned(fs, owner, dead) && ValidSlot(fs, s) && AddrOf(fs, s) == 0
    ensures Owned(fs, owner, dead + {s})
  {
    hide AddrOf;
  }

  function Min(a: nat, b: nat): nat { if a < b then a else b }

  /** c with the bytes from off on replaced, or extended, by d. */
  function Splice(c: seq<Byte>, off: nat, d: seq<Byte>): seq<Byte>
    requires off <= |c|
  {
    c[..off] + d + (if off + |d| < |c| then c[off + |d|..] else [])
  }

  /** Byte by byte: the new ones where they go, the old ones elsewhere, and no gap. So what
      was written is read back. */
  lemma SpliceBytes(c: seq<Byte>, off: nat, d: seq<Byte>)
    requires off <= |c|
    ensures |Splice(c, off, d)| == if off + |d| > |c| then off + |d| else |c|
    ensures forall x :: 0 <= x < |Splice(c, off, d)| ==>
              Splice(c, off, d)[x] == if off <= x < off + |d| then d[x - off] else c[x]
    ensures Splice(c, off, d)[off..off + |d|] == d
  {
  }

  /** Every block that starts below offset e is allocated. */
  ghost predicate Mapped(fs: Fs, i: nat, e: nat) {
    && Shape(fs) && i < |fs.inode|
    && forall bn :: 0 <= bn < MAXFILE && bn * BSIZE < e ==> AddrOf(fs, BlockSlot(i, bn)) != 0
  }

  ghost predicate SameSizes(fs: Fs, gs: Fs) {
    && |fs.inode| == |gs.inode|
    && forall i :: 0 <= i < |fs.inode| ==> gs.inode[i].size == fs.inode[i].size
  }

  /** gs has the bytes of fs, except that inode i holds `data` from offset off on. */
  ghost predicate Patched(fs: Fs, gs: Fs, i: nat, off: nat, data: seq<Byte>) {
    && Shape(fs) && Shape(gs) && |fs.inode| == |gs.inode| && i < |fs.inode|
    && forall m, o :: 0 <= m < |fs.inode| && 0 <= o < MAXFILE * BSIZE ==>
         ByteAt(gs, m, o) == if m == i && off <= o < off + |data| then data[o - off] else ByteAt(fs, m, o)
  }

  lemma BytesSizes(fs: Fs, gs: Fs)
    requires SameBytes(fs, gs)
    ensures SameSizes(fs, gs)
  {
  }

  lemma SlotOwned(fs: Fs, owner: map<nat, Slot>, i: nat, bn: nat)
    requires Owned(fs, owner, {}) && i < |fs.inode| && bn < MAXFILE && AddrOf(fs, BlockSlot(i, bn)) != 0
    ensures var a := AddrOf(fs, BlockSlot(i, bn));
            a in owner && IsData(owner[a]) && fs.l.nmeta <= a < fs.l.size
  {
    hide AddrOf;
  }

  lemma WriteDataKeeps(fs: Fs, owner: map<nat, Slot>, a: nat, b: Block)
    requires Owned(fs, owner, {}) && a in owner && IsData(owner[a])
    ensures KeepsAddrs(fs, WriteData(fs, a, b)) && SameSizes(fs, WriteData(fs, a, b))
    ensures forall s :: ValidSlot(fs, s) ==> AddrOf(WriteData(fs, a, b), s) == AddrOf(fs, s)
  {
    hide AddrOf;
    forall s | ValidSlot(fs, s) ensures AddrOf(WriteData(fs, a, b), s) == AddrOf(fs, s) {
      WriteDataAddr(fs, owner, a, b, s);
    }
  }

  /** Overwriting part of a mapped block patches the file at that offset. */
  lemma PatchBlock(fs: Fs, owner: map<nat, Slot>, i: nat, o: nat, part: seq<Byte>, nb: Block)
    requires Owned(fs, owner, {}) && i < |fs.inode| && o < MAXFILE * BSIZE && |part| <= BSIZE - o % BSIZE
    requires AddrOf(fs, BlockSlot(i, o / BSIZE)) != 0 && AddrOf(fs, BlockSlot(i, o / BSIZE)) < fs.l.size
    requires var b, k := fs.block[AddrOf(fs, BlockSlot(i, o / BSIZE))], o % BSIZE;
             nb == b[..k] + part + b[k + |part|..]
    ensures Patched(fs, WriteData(fs, AddrOf(fs, BlockSlot(i, o / BSIZE)), nb), i, o, part)
  {
    hide AddrOf;
    var a := AddrOf(fs, BlockSlot(i, o / BSIZE));
    var gs := WriteData(fs, a, nb);
    forall m, p | 0 <= m < |fs.inode| && 0 <= p < MAXFILE * BSIZE
      ensures ByteAt(gs, m, p) == if m == i && o <= p < o + |part| then part[p - o] else ByteAt(fs, m, p)
    {
      WriteDataBytes(fs, owner, i, o / BSIZE, nb, m, p);
    }
  }

  lemma SamePatched(fs: Fs, mid: Fs, gs: Fs, i: nat, o: nat, part: seq<Byte>)
    requires SameBytes(fs, mid) && Patched(mid, gs, i, o, part)
    ensures Patched(fs, gs, i, o, part)
  {
    hide ByteAt;
    forall m, p | 0 <= m < |fs.inode| && 0 <= p < MAXFILE * BSIZE
      ensures ByteAt(gs, m, p) == if m == i && o <= p < o + |part| then part[p - o] else ByteAt(fs, m, p)
    {
      assert ByteAt(mid, m, p) == ByteAt(fs, m, p);
    }
  }

  lemma PatchMore(fs: Fs, mid: Fs, gs: Fs, i: nat, off: nat, data: seq<Byte>, more: seq<Byte>)
    requires Patched(fs, mid, i, off, data) && Patched(mid, gs, i, off + |data|, more)
    ensures Patched(fs, gs, i, off, data + more)
  {
    hide ByteAt;
    forall m, p | 0 <= m < |fs.inode| && 0 <= p < MAXFILE * BSIZE
      ensures ByteAt(gs, m, p) == if m == i && off <= p < off + |data + more| then (data + more)[p - off]
              else ByteAt(fs, m, p)
    {
      assert ByteAt(mid, m, p) == if m == i && off <= p < off + |data| then data[p - off] else ByteAt(fs, m, p);
    }
  }

  lemma SameBytesTrans(a: Fs, b: Fs, c: Fs)
    requires SameBytes(a, b) && SameBytes(b, c)
    ensures SameBytes(a, c)
  {
    hide ByteAt;
    forall i, o | 0 <= i < |a.inode| && 0 <= o < MAXFILE * BSIZE ensures ByteAt(c, i, o) == ByteAt(a, i, o) {
      assert ByteAt(c, i, o) == ByteAt(b, i, o);
    }
  }

  /** Allocating a block into a direct slot changes that slot only. */
  lemma DirectAddrs(fs: Fs, owner: map<nat, Slot>, i: nat, k: nat, a: nat)
    requires Owned(fs, owner, {}) && fs.l.nmeta <= a < fs.l.size && a !in owner && !Bit(fs.l, fs.block, a)
    requires ValidSlot(fs, Direct(i, k)) && AddrOf(fs, Direct(i, k)) == 0
    ensures var gs := PutDirect(Allocated(fs, a), i, k, a);
            forall s :: ValidSlot(fs, s) ==>
              ValidSlot(gs, s) && AddrOf(gs, s) == if s == Direct(i, k) then a else AddrOf(fs, s)
  {
    hide AddrOf;
    var ms := Allocated(fs, a);
    AllocatedOwned(fs, owner, a);
    AllocatedAddr(fs, owner, a, Direct(i, k));
    var gs := PutDirect(ms, i, k, a);
    forall s | ValidSlot(fs, s)
      ensures ValidSlot(gs, s) && AddrOf(gs, s) == if s == Direct(i, k) then a else AddrOf(fs, s)
    {
      AllocatedAddr(fs, owner, a, s);
      PutDirectAddr(ms, owner, i, k, a, s);
    }
  }

  lemma EntryAddrs(fs: Fs, owner: map<nat, Slot>, i: nat, j: nat, a: nat)
    requires Owned(fs, owner, {}) && fs.l.nmeta <= a < fs.l.size && a !in owner && !Bit(fs.l, fs.block, a)
    requires ValidSlot(fs, Entry(i, j)) && AddrOf(fs, Entry(i, j)) == 0 && AddrOf(fs, Direct(i, NDIRECT)) != 0
    ensures var gs := PutEntry(Allocated(fs, a), i, j, a);
            forall s :: ValidSlot(fs, s) ==>
              ValidSlot(gs, s) && AddrOf(gs, s) == if s == Entry(i, j) then a else AddrOf(fs, s)
  {
    hide AddrOf;
    var ms := Allocated(fs, a);
    AllocatedOwned(fs, owner, a);
    AllocatedAddr(fs, owner, a, Direct(i, NDIRECT));
    var gs := PutEntry(ms, i, j, a);
    forall s | ValidSlot(fs, s)
      ensures ValidSlot(gs, s) && AddrOf(gs, s) == if s == Entry(i, j) then a else AddrOf(fs, s)
    {
      AllocatedAddr(fs, owner, a, s);
      PutEntryAddr(ms, owner, i, j, a, s);
    }
  }

  lemma KeepsTrans(a: Fs, b: Fs, c: Fs)
    requires KeepsAddrs(a, b) && KeepsAddrs(b, c)
    ensures KeepsAddrs(a, c)
  {
    hide AddrOf;
  }

  lemma SameBytesRefl(fs: Fs)
    requires Shape(fs)
    ensures SameBytes(fs, fs)
  {
  }

  lemma IndirectAt(fs: Fs, i: nat)
    requires Shape(fs) && i < |fs.inode|
    ensures ValidSlot(fs, Direct(i, NDIRECT)) && |fs.inode[i].addrs| == NDIRECT + 1
    ensures AddrOf(fs, Direct(i, NDIRECT)) == fs.inode[i].addrs[NDIRECT]
  {
  }

  lemma ShapeAllocated(fs: Fs, a: nat)
    requires Shape(fs) && a < fs.l.size && !Bit(fs.l, fs.block, a)
    ensures Shape(Allocated(fs, a)) && Allocated(fs, a).inode == fs.inode
  {
  }

  lemma MappedStart(fs: Fs, i: nat, off: nat)
    requires Shape(fs) && i < |fs.inode| && HoleFree(fs, i) && off <= fs.inode[i].size
    ensures Mapped(fs, i, off)
  {
    hide AddrOf;
  }

  lemma MappedMore(fs: Fs, gs: Fs, i: nat, o: nat, m: nat)
    requires Mapped(fs, i, o) && KeepsAddrs(fs, gs) && 0 < m <= BSIZE - o % BSIZE && o < MAXFILE * BSIZE
    requires AddrOf(gs, BlockSlot(i, o / BSIZE)) != 0
    ensures Mapped(gs, i, o + m)
  {
    hide AddrOf;
    forall bn | 0 <= bn < MAXFILE && bn * BSIZE < o + m ensures AddrOf(gs, BlockSlot(i, bn)) != 0 {
      if bn != o / BSIZE { assert bn * BSIZE < o; }
    }
  }

  // ------------------------------------------------------------ what a write fills, takes and logs

  /** Fewer blocks are free than the write needs. */
  ghost predicate Short(fs: Fs, owner: map<nat, Slot>, i: nat, off: nat, n: nat) {
    && Shape(fs) && i < |fs.inode| && End(off, n) <= MAXFILE
    && fs.l.nmeta + |owner| + Need(fs, i, off / BSIZE, End(off, n)) > fs.l.size
  }

  /** A write has filled blocks lo to h of inode i, taken the blocks for them and logged what
      changed. */
  ghost predicate Progress(fs: Fs, was: map<nat, Slot>, had: set<nat>, gs: Fs, now: map<nat, Slot>, logged: set<nat>,
                           i: nat, lo: nat, h: nat)
  {
    && lo <= h && Filled(fs, gs, i, lo, h)
    && TookLowest(fs.l.nmeta, was, now, Need(fs, i, lo, h)) && logged == had + Wrote(fs, gs, i, lo, h)
  }

  lemma ProgressStart(fs: Fs, was: map<nat, Slot>, had: set<nat>, i: nat, lo: nat)
    requires Shape(fs) && i < |fs.inode| && lo <= MAXFILE
    ensures Progress(fs, was, had, fs, was, had, i, lo, lo)
  {
    hide AddrOf, Filled;
    FilledNone(fs, i, lo);
  }

  lemma ProgressMore(fs: Fs, was: map<nat, Slot>, had: set<nat>, mid: Fs, midOwner: map<nat, Slot>, midLog: set<nat>,
                     gs: Fs, now: map<nat, Slot>, logged: set<nat>, i: nat, lo: nat, h: nat)
    requires Progress(fs, was, had, mid, midOwner, midLog, i, lo, h) && Filled(mid, gs, i, h, h + 1)
    requires TookLowest(mid.l.nmeta, midOwner, now, Need(mid, i, h, h + 1))
    requires logged == midLog + MapLog(mid, gs, i, h) + {AddrOf(gs, BlockSlot(i, h))}
    ensures Progress(fs, was, had, gs, now, logged, i, lo, h + 1)
  {
    hide AddrOf, Filled, TookLowest, Wrote, MapLog, Need;
    FilledShape(fs, mid, i, lo, h);
    FilledShape(mid, gs, i, h, h + 1);
    FilledMore(fs, mid, gs, i, lo, h);
    NeedMore(fs, mid, i, lo, h);
    TookMore(fs.l.nmeta, was, midOwner, now, Need(fs, i, lo, h), Need(mid, i, h, h + 1));
    WroteMore(fs, mid, gs, i, lo, h);
  }

  lemma ProgressStops(fs: Fs, was: map<nat, Slot>, had: set<nat>, mid: Fs, midOwner: map<nat, Slot>, midLog: set<nat>,
                      gs: Fs, now: map<nat, Slot>, i: nat, off: nat, n: nat, h: nat, took: nat)
    requires Progress(fs, was, had, mid, midOwner, midLog, i, off / BSIZE, h) && h < End(off, n) <= MAXFILE
    requires TookLowest(mid.l.nmeta, midOwner, now, took) && took < Need(mid, i, h, h + 1)
    requires Owned(gs, now, {}) && gs.l == fs.l && forall a :: gs.l.nmeta <= a < gs.l.size ==> a in now
    ensures Short(fs, was, i, off, n)
  {
    hide AddrOf, Filled, Wrote, Need, Owned;
    FilledShape(fs, mid, i, off / BSIZE, h);
    NeedMore(fs, mid, i, off / BSIZE, h);
    NeedGrows(fs, i, off / BSIZE, h + 1, End(off, n));
    OwnedCount(gs, now);
  }

  lemma ProgressEnds(fs: Fs, was: map<nat, Slot>, had: set<nat>, gs: Fs, now: map<nat, Slot>, logged: set<nat>,
                     i: nat, off: nat, n: nat)
    requires Progress(fs, was, had, gs, now, logged, i, off / BSIZE, End(off, n)) && Owned(gs, now, {})
    ensures !Short(fs, was, i, off, n)
  {
    hide AddrOf, Filled, Wrote, Need, Owned;
    FilledShape(fs, gs, i, off / BSIZE, End(off, n));
    OwnedCount(gs, now);
  }

  lemma EndStart(off: nat, n: nat)
    requires off + n <= MAXFILE * BSIZE
    ensures End(off, 0) == off / BSIZE <= End(off, n) <= MAXFILE
  {
  }

  lemma EndMore(off: nat, tot: nat, m: nat, n: nat)
    requires tot == 0 || (off + tot) % BSIZE == 0
    requires 0 < m <= BSIZE - (off + tot) % BSIZE && tot + m <= n && off + n <= MAXFILE * BSIZE
    ensures End(off, tot) == (off + tot) / BSIZE && End(off, tot + m) == End(off, tot) + 1
    ensures End(off, tot) < End(off, n) <= MAXFILE
  {
    SameBlock(off + tot, m);
    if tot > 0 { BlockBefore(off + tot); }
    assert off + tot + m - 1 <= off + n - 1;
  }

  lemma SameBlock(o: nat, m: nat)
    requires 0 < m <= BSIZE - o % BSIZE
    ensures (o + m - 1) / BSIZE == o / BSIZE
  {
  }

  lemma BlockBefore(o: nat)
    requires o > 0 && o % BSIZE == 0
    ensures (o - 1) / BSIZE == o / BSIZE - 1
  {
  }

  lemma FilledKeeps(fs: Fs, gs: Fs, i: nat, lo: nat, hi: nat)
    requires Filled(fs, gs, i, lo, hi)
    ensures KeepsAddrs(fs, gs)
    ensures lo < hi ==> AddrOf(gs, BlockSlot(i, lo)) != 0
  {
    hide AddrOf, Filled;
    FilledShape(fs, gs, i, lo, hi);
    forall s | ValidSlot(fs, s) && AddrOf(fs, s) != 0 ensures AddrOf(gs, s) == AddrOf(fs, s) {
      FilledAt(fs, gs, i, lo, hi, s);
    }
    if lo < hi {
      SlotFills(i, lo, hi, lo);
      FilledAt(fs, gs, i, lo, hi, BlockSlot(i, lo));
    }
  }

  lemma DirectAt(fs: Fs, i: nat, k: nat)
    requires Shape(fs) && i < |fs.inode| && k < NDIRECT
    ensures ValidSlot(fs, Direct(i, k)) && AddrOf(fs, Direct(i, k)) == fs.inode[i].addrs[k]
  {
  }

  /** One direct slot. */
  lemma OneDirect(fs: Fs, gs: Fs, i: nat, bn: nat)
    requires Shape(fs) && Shape(gs) && fs.l == gs.l && |fs.inode| == |gs.inode| && i < |fs.inode| && bn < NDIRECT
    requires forall s :: ValidSlot(fs, s) && s != Direct(i, bn) ==> AddrOf(gs, s) == AddrOf(fs, s)
    ensures Need(fs, i, bn, bn + 1) == if AddrOf(fs, Direct(i, bn)) == 0 then 1 else 0
    ensures MapLog(fs, gs, i, bn) == SlotLog(fs, gs, Direct(i, bn))
    ensures var s := Direct(i, bn);
            AddrOf(gs, s) != 0 && (AddrOf(fs, s) != 0 ==> AddrOf(gs, s) == AddrOf(fs, s)) ==>
              Filled(fs, gs, i, bn, bn + 1)
  {
    hide AddrOf;
    assert NewCount(fs, i, bn, bn) == 0;
  }

  /** Another slot kept its address. */
  lemma OnlySlot(fs: Fs, gs: Fs, s: Slot, t: Slot)
    requires Shape(fs) && Shape(gs) && |fs.inode| == |gs.inode| && ValidSlot(fs, t) && t != s
    requires forall u :: ValidSlot(fs, u) && u != s ==> AddrOf(gs, u) == AddrOf(fs, u)
    ensures ValidSlot(gs, t) && AddrOf(gs, t) == AddrOf(fs, t)
  {
    hide AddrOf;
  }

  lemma EntryNeedsIndirect(fs: Fs, i: nat, bn: nat)
    requires Shape(fs) && i < |fs.inode| && NDIRECT <= bn < MAXFILE
    ensures AddrOf(fs, BlockSlot(i, bn)) != 0 ==> AddrOf(fs, Direct(i, NDIRECT)) != 0
  {
  }

  lemma NeedOne(fs: Fs, i: nat, bn: nat)
    requires Shape(fs) && i < |fs.inode| && NDIRECT <= bn < MAXFILE
    ensures Need(fs, i, bn, bn + 1) == (if AddrOf(fs, BlockSlot(i, bn)) == 0 then 1 else 0)
                                       + (if AddrOf(fs, Direct(i, NDIRECT)) == 0 then 1 else 0)
  {
    hide AddrOf;
    assert NewCount(fs, i, bn, bn) == 0;
  }

  /** One entry, and the indirect block before it. */
  lemma OneEntry(fs: Fs, mid: Fs, gs: Fs, i: nat, bn: nat, had: set<nat>, midLog: set<nat>, logged: set<nat>)
    requires Shape(fs) && Shape(mid) && Shape(gs) && fs.l == mid.l == gs.l && |fs.inode| == |mid.inode| == |gs.inode|
    requires i < |fs.inode| && NDIRECT <= bn < MAXFILE
    requires forall s :: ValidSlot(fs, s) && s != Direct(i, NDIRECT) ==> AddrOf(mid, s) == AddrOf(fs, s)
    requires forall s :: ValidSlot(mid, s) && s != BlockSlot(i, bn) ==> AddrOf(gs, s) == AddrOf(mid, s)
    requires midLog == had + SlotLog(fs, mid, Direct(i, NDIRECT))
    requires var s, x := BlockSlot(i, bn), Direct(i, NDIRECT);
             && AddrOf(gs, s) != 0 && (AddrOf(fs, s) != 0 ==> AddrOf(gs, s) == AddrOf(fs, s))
             && AddrOf(mid, x) != 0 && (AddrOf(fs, x) != 0 ==> AddrOf(mid, x) == AddrOf(fs, x))
             && logged == if AddrOf(mid, s) == 0 then midLog + SlotLog(mid, gs, s) + {AddrOf(gs, x)} else midLog
    ensures Filled(fs, gs, i, bn, bn + 1) && logged == had + MapLog(fs, gs, i, bn)
  {
    hide AddrOf;
    var s, x := BlockSlot(i, bn), Direct(i, NDIRECT);
    forall t | ValidSlot(fs, t) && t != s && t != x ensures AddrOf(gs, t) == AddrOf(fs, t) {
      assert AddrOf(mid, t) == AddrOf(fs, t);
    }
  }

  /** Writing the data changes no address. */
  lemma SameAddrs(fs: Fs, mid: Fs, gs: Fs, i: nat, bn: nat)
    requires Filled(fs, mid, i, bn, bn + 1) && Shape(gs) && gs.l == mid.l && gs.inode == mid.inode && bn < MAXFILE
    requires forall s :: ValidSlot(mid, s) ==> AddrOf(gs, s) == AddrOf(mid, s)
    ensures Filled(fs, gs, i, bn, bn + 1) && MapLog(fs, gs, i, bn) == MapLog(fs, mid, i, bn)
    ensures AddrOf(gs, BlockSlot(i, bn)) == AddrOf(mid, BlockSlot(i, bn))
  {
    hide AddrOf, Filled;
    FilledShape(fs, mid, i, bn, bn + 1);
    forall s | ValidSlot(fs, s)
      ensures FilledSlot(fs, gs, i, bn, bn + 1, s)
    {
      FilledAt(fs, mid, i, bn, bn + 1, s);
    }
    FilledIs(fs, gs, i, bn, bn + 1);
  }

  /** A whole write logs what its blocks need, and the inode. */
  ghost predicate LoggedBy(fs: Fs, gs: Fs, had: set<nat>, logged: set<nat>, i: nat, off: nat, n: nat) {
    && Shape(fs) && Shape(gs) && |fs.inode| == |gs.inode| && i < |fs.inode| && End(off, n) <= MAXFILE
    && logged == had + Wrote(fs, gs, i, off / BSIZE, End(off, n)) + {InodeBlock(gs.l, i)}
    && (n > 0 && off % BSIZE != 0 ==> AddrOf(fs, BlockSlot(i, off / BSIZE)) != 0)
  }

  lemma WriteLogged(fs: Fs, was: map<nat, Slot>, had: set<nat>, gs: Fs, now: map<nat, Slot>, mid: set<nat>,
                    i: nat, off: nat, n: nat)
    requires Progress(fs, was, had, gs, now, mid, i, off / BSIZE, End(off, n)) && Mapped(fs, i, off)
    requires off + n <= MAXFILE * BSIZE
    ensures i < |gs.inode| && LoggedBy(fs, Resized(gs, i, off + n), had, mid + {InodeBlock(gs.l, i)}, i, off, n)
  {
    hide AddrOf, Filled, Wrote, Need, TookLowest;
    FilledShape(fs, gs, i, off / BSIZE, End(off, n));
    ResizedAddr(gs, i, off + n);
    WroteSame(fs, gs, Resized(gs, i, off + n), i, off / BSIZE, End(off, n));
    if n > 0 { FirstMapped(fs, i, off, 0); }
  }

  lemma LoggedBudget(fs: Fs, gs: Fs, had: set<nat>, logged: set<nat>, i: nat, off: nat, n: nat)
    requires LoggedBy(fs, gs, had, logged, i, off, n) && n <= 3 * BSIZE
    ensures |logged - had| <= MAXOPBLOCKS
  {
    hide AddrOf, Wrote, End;
    ChunkBudget(fs, gs, i, off, n);
    SubsetSize(logged - had, Wrote(fs, gs, i, off / BSIZE, End(off, n)) + {InodeBlock(gs.l, i)});
  }

  /** Three blocks, from inside the last direct block on. */
  predicate WorstWrite(size: nat, off: nat, n: nat) {
    off == (NDIRECT - 1) * BSIZE + 1 <= size && n == 3 * BSIZE
  }

  lemma WorstEnd()
    ensures ((NDIRECT - 1) * BSIZE + 1) / BSIZE == NDIRECT - 1
    ensures End((NDIRECT - 1) * BSIZE + 1, 3 * BSIZE) == NDIRECT + 3
  {
  }

  /** In the worst place the write succeeds and logs MAXOPBLOCKS blocks. */
  ghost predicate WorstIsReached(fs: Fs, owner: map<nat, Slot>, i: nat, off: nat, n: nat, r: Option<int>,
                                 logged: set<nat>)
    requires i < |fs.inode|
  {
    forall lowest :: WorstCase(fs, owner, i, lowest) && WorstWrite(fs.inode[i].size, off, n) ==>
      r == Some(n) && |logged| == MAXOPBLOCKS
  }

  lemma NotRefused(fs: Fs, owner: map<nat, Slot>, i: nat, off: nat, n: nat, logged: set<nat>)
    requires i < |fs.inode|
    ensures off > fs.inode[i].size || off + n > MAXFILE * BSIZE ==>
              WorstIsReached(fs, owner, i, off, n, Some(-1), logged)
  {
  }

  lemma NotShort(fs: Fs, owner: map<nat, Slot>, i: nat, off: nat, n: nat, logged: set<nat>)
    requires Owned(fs, owner, {}) && Short(fs, owner, i, off, n)
    ensures WorstIsReached(fs, owner, i, off, n, None, logged)
  {
    hide WorstCase, Owned, Need, End;
    WorstEnd();
    forall lowest | WorstCase(fs, owner, i, lowest) ensures !WorstWrite(fs.inode[i].size, off, n) {
      WorstNeed(fs, owner, i, lowest);
    }
  }

  lemma WorstLogged(fs: Fs, was: map<nat, Slot>, gs: Fs, now: map<nat, Slot>, mid: set<nat>, rs: Fs, logged: set<nat>,
                    i: nat, off: nat, n: nat)
    requires Owned(fs, was, {}) && Owned(gs, now, {}) && i < |gs.inode| && rs == Resized(gs, i, off + n)
    requires Progress(fs, was, {}, gs, now, mid, i, off / BSIZE, End(off, n)) && LoggedBy(fs, rs, {}, logged, i, off, n)
    ensures WorstIsReached(fs, was, i, off, n, Some(n), logged)
  {
    hide WorstCase, Owned, Need, End, AddrOf, Filled, TookLowest, Wrote;
    WorstEnd();
    FilledShape(fs, gs, i, off / BSIZE, End(off, n));
    ResizedAddr(gs, i, off + n);
    WroteSame(fs, gs, rs, i, off / BSIZE, End(off, n));
    forall lowest | WorstCase(fs, was, i, lowest) && WorstWrite(fs.inode[i].size, off, n)
      ensures |logged| == MAXOPBLOCKS
    {
      WorstNeed(fs, was, i, lowest);
      WorstChunk(fs, was, gs, now, i, lowest);
      assert logged == Wrote(fs, gs, i, NDIRECT - 1, NDIRECT + 3) + {InodeBlock(gs.l, i)};
    }
  }

  /** A write that starts inside a block starts in an allocated block. */
  lemma FirstMapped(fs: Fs, i: nat, off: nat, tot: nat)
    requires Mapped(fs, i, off + tot) && off < MAXFILE * BSIZE
    ensures tot == 0 && off % BSIZE != 0 ==> AddrOf(fs, BlockSlot(i, off / BSIZE)) != 0
  {
    hide AddrOf;
  }

  lemma NothingWritten(fs: Fs, i: nat, off: nat)
    requires Shape(fs) && i < |fs.inode|
    ensures Patched(fs, fs, i, off, []) && KeepsAddrs(fs, fs) && SameSizes(fs, fs)
  {
  }

  /** One more part written: the loop invariants about contents and addresses. */
  lemma TurnKeeps(fs: Fs, mid: Fs, gs: Fs, i: nat, off: nat, data: seq<Byte>, tot: nat, m: nat)
    requires tot + m <= |data| && 0 < m <= BSIZE - (off + tot) % BSIZE && off + tot < MAXFILE * BSIZE
    requires KeepsAddrs(fs, mid) && SameSizes(fs, mid) && Patched(fs, mid, i, off, data[..tot])
             && Mapped(mid, i, off + tot)
    requires KeepsAddrs(mid, gs) && SameSizes(mid, gs) && Patched(mid, gs, i, off + tot, data[tot..tot + m])
    requires AddrOf(gs, BlockSlot(i, (off + tot) / BSIZE)) != 0
    ensures KeepsAddrs(fs, gs) && SameSizes(fs, gs) && Patched(fs, gs, i, off, data[..tot + m])
    ensures Mapped(gs, i, off + (tot + m))
  {
    KeepsTrans(fs, mid, gs);
    PatchMore(fs, mid, gs, i, off, data[..tot], data[tot..tot + m]);
    assert data[..tot + m] == data[..tot] + data[tot..tot + m];
    MappedMore(mid, gs, i, off + tot, m);
    assert off + tot + m == off + (tot + m);
    hide KeepsAddrs, Patched, Mapped, AddrOf;
  }

  /** After the loop: set the size, and the file is the splice. */
  function Resized(gs: Fs, i: nat, e: nat): Fs
    requires i < |gs.inode|
  {
    if e > gs.inode[i].size then gs.(inode := gs.inode[i := gs.inode[i].(size := e)]) else gs
  }

  lemma ResizedAddr(gs: Fs, i: nat, e: nat)
    requires Shape(gs) && i < |gs.inode|
    ensures Shape(Resized(gs, i, e))
    ensures forall s :: ValidSlot(gs, s) <==> ValidSlot(Resized(gs, i, e), s)
    ensures forall s :: ValidSlot(gs, s) ==> AddrOf(Resized(gs, i, e), s) == AddrOf(gs, s)
    ensures forall m, o :: 0 <= m < |gs.inode| && 0 <= o < MAXFILE * BSIZE ==>
            ByteAt(Resized(gs, i, e), m, o) == ByteAt(gs, m, o)
  {
  }

  lemma WriteDone(fs: Fs, gs: Fs, owner: map<nat, Slot>, i: nat, off: nat, data: seq<Byte>)
    requires Shape(fs) && Shape(gs) && i < |fs.inode| && off <= fs.inode[i].size && off + |data| <= MAXFILE * BSIZE
    requires forall m :: 0 <= m < |fs.inode| ==> fs.inode[m].size <= MAXFILE * BSIZE && HoleFree(fs, m)
    requires Owned(gs, owner, {}) && Marked(gs, owner, {})
    requires KeepsAddrs(fs, gs) && SameSizes(fs, gs) && Patched(fs, gs, i, off, data) && Mapped(gs, i, off + |data|)
    ensures FsOk(Resized(gs, i, off + |data|), owner)
    ensures Contents(Resized(gs, i, off + |data|), i) == Splice(Contents(fs, i), off, data)
    ensures forall m :: 0 <= m < |fs.inode| && m != i ==> Contents(Resized(gs, i, off + |data|), m) == Contents(fs, m)
  {
    hide AddrOf, ByteAt, Patched, KeepsAddrs, Mapped, Owned, Marked, Contents, Splice, HoleFree;
    ResizedOwned(gs, owner, i, off + |data|);
    ResizedHoleFree(fs, gs, i, off + |data|);
    ResizedContents(fs, gs, i, off, data);
  }

  lemma ResizedOwned(gs: Fs, owner: map<nat, Slot>, i: nat, e: nat)
    requires Owned(gs, owner, {}) && Marked(gs, owner, {}) && i < |gs.inode|
    ensures Owned(Resized(gs, i, e), owner, {}) && Marked(Resized(gs, i, e), owner, {})
  {
    hide AddrOf, Bit;
    ResizedAddr(gs, i, e);
  }

  lemma ResizedHoleFree(fs: Fs, gs: Fs, i: nat, e: nat)
    requires Shape(fs) && Shape(gs) && i < |fs.inode| && e <= MAXFILE * BSIZE
    requires forall m :: 0 <= m < |fs.inode| ==> HoleFree(fs, m)
    requires KeepsAddrs(fs, gs) && SameSizes(fs, gs) && Mapped(gs, i, e)
    ensures Shape(Resized(gs, i, e)) && forall m :: 0 <= m < |fs.inode| ==> HoleFree(Resized(gs, i, e), m)
  {
    hide AddrOf;
    ResizedAddr(gs, i, e);
    var rs := Resized(gs, i, e);
    forall m | 0 <= m < |fs.inode| ensures HoleFree(rs, m) {
      assert HoleFree(fs, m);
      forall bn | 0 <= bn < MAXFILE && bn * BSIZE < rs.inode[m].size ensures AddrOf(rs, BlockSlot(m, bn)) != 0 {
        if bn * BSIZE < fs.inode[m].size { assert AddrOf(fs, BlockSlot(m, bn)) != 0; }
      }
    }
  }

  lemma ResizedContents(fs: Fs, gs: Fs, i: nat, off: nat, data: seq<Byte>)
    requires Shape(fs) && Shape(gs) && i < |fs.inode| && off <= fs.inode[i].size && off + |data| <= MAXFILE * BSIZE
    requires forall m :: 0 <= m < |fs.inode| ==> fs.inode[m].size <= MAXFILE * BSIZE
    requires SameSizes(fs, gs) && Patched(fs, gs, i, off, data)
    ensures var rs := Resized(gs, i, off + |data|);
            && Shape(rs) && (forall m :: 0 <= m < |fs.inode| ==> rs.inode[m].size <= MAXFILE * BSIZE)
            && Contents(rs, i) == Splice(Contents(fs, i), off, data)
            && forall m :: 0 <= m < |fs.inode| && m != i ==> Contents(rs, m) == Contents(fs, m)
  {
    hide ByteAt, Splice, Contents, Patched;
    ResizedAddr(gs, i, off + |data|);
    var rs := Resized(gs, i, off + |data|);
    assert Patched(fs, rs, i, off, data) by { PatchedAgain(fs, gs, rs, i, off, data); }
    SplicedContents(fs, rs, i, off, data);
    forall m | 0 <= m < |fs.inode| && m != i ensures Contents(rs, m) == Contents(fs, m) {
      UnpatchedContents(fs, rs, i, off, data, m);
    }
  }

  lemma PatchedAgain(fs: Fs, gs: Fs, rs: Fs, i: nat, off: nat, data: seq<Byte>)
    requires Patched(fs, gs, i, off, data) && Shape(rs) && |rs.inode| == |gs.inode|
    requires forall m, o :: 0 <= m < |gs.inode| && 0 <= o < MAXFILE * BSIZE ==> ByteAt(rs, m, o) == ByteAt(gs, m, o)
    ensures Patched(fs, rs, i, off, data)
  {
    hide ByteAt;
  }

  lemma SplicedContents(fs: Fs, rs: Fs, i: nat, off: nat, data: seq<Byte>)
    requires Patched(fs, rs, i, off, data) && off <= fs.inode[i].size <= MAXFILE * BSIZE
             && off + |data| <= MAXFILE * BSIZE
    requires rs.inode[i].size == if off + |data| > fs.inode[i].size then off + |data| else fs.inode[i].size
    ensures Contents(rs, i) == Splice(Contents(fs, i), off, data)
  {
    hide ByteAt;
    var c, t := Contents(rs, i), Splice(Contents(fs, i), off, data);
    assert |c| == |t|;
    forall o | 0 <= o < |c| ensures c[o] == t[o] {
      assert c[o] == ByteAt(rs, i, o);
    }
  }

  lemma UnpatchedContents(fs: Fs, rs: Fs, i: nat, off: nat, data: seq<Byte>, m: nat)
    requires Patched(fs, rs, i, off, data) && m < |fs.inode| && m != i
    requires rs.inode[m].size == fs.inode[m].size <= MAXFILE * BSIZE
    ensures Contents(rs, m) == Contents(fs, m)
  {
    hide ByteAt;
    forall o | 0 <= o < fs.inode[m].size ensures Contents(rs, m)[o] == Contents(fs, m)[o] {
      assert ByteAt(rs, m, o) == ByteAt(fs, m, o);
    }
  }

  /** The bytes of one block, as the file sees them. */
  lemma ReadBlock(fs: Fs, owner: map<nat, Slot>, i: nat, o: nat, m: nat)
    requires FsOk(fs, owner) && i < |fs.inode| && m <= BSIZE - o % BSIZE && o + m <= fs.inode[i].size && m > 0
    requires 0 < AddrOf(fs, BlockSlot(i, o / BSIZE)) < fs.l.size
    ensures var a := AddrOf(fs, BlockSlot(i, o / BSIZE));
            Contents(fs, i)[o..o + m] == fs.block[a][o % BSIZE..o % BSIZE + m]
  {
    hide AddrOf, Owned, Marked, HoleFree;
    var a := AddrOf(fs, BlockSlot(i, o / BSIZE));
    var x, y := Contents(fs, i)[o..o + m], fs.block[a][o % BSIZE..o % BSIZE + m];
    forall p | 0 <= p < m ensures x[p] == y[p] {
      assert (o + p) / BSIZE == o / BSIZE && (o + p) % BSIZE == o % BSIZE + p;
    }
  }

  lemma SpliceNothing(c: seq<Byte>, off: nat)
    ensures off <= |c| ==> Splice(c, off, []) == c
  {
  }

  lemma SpliceMore(c: seq<Byte>, off: nat, data: seq<Byte>, k: nat, n: nat)
    requires k + n <= |data| && off <= |c|
    ensures off + k <= |Splice(c, off, data[..k])|
    ensures Splice(Splice(c, off, data[..k]), off + k, data[k..k + n]) == Splice(c, off, data[..k + n])
  {
  }
}

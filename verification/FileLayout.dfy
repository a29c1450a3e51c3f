/** The block layer of fs.c as plain values: the bitmap, the direct and indirect
    block map of an inode, block ownership and file contents. */
module FileLayout {
  import opened Basics
  import opened Blocks

  /** The superblock: blocks on disk, where the inodes and the bitmap start, and
      the number of metadata blocks (boot, super, log, inode and bitmap blocks). */
  datatype Layout = Layout(size: nat, inodestart: nat, bmapstart: nat, nmeta: nat)

  predicate LayoutOk(l: Layout) {
    && 0 < l.nmeta <= l.size < TWO32
    && l.bmapstart + (l.size - 1) / BPB < l.nmeta
  }

  /** An inode's size and its 12 direct addresses plus the indirect block. */
  datatype Inode = Inode(size: nat, addrs: seq<nat>)

  /** The places a block address is kept: Direct(i, NDIRECT) is the indirect
      block itself, Entry(i, j) its j-th word. */
  datatype Slot = Direct(ino: nat, k: nat) | Entry(ino: nat, j: nat)

  // ------------------------------------------------------------ the bitmap

  predicate Bit(l: Layout, block: seq<Block>, a: nat)
    requires LayoutOk(l) && |block| == l.size && a < l.size
  {
    BitOf(block[l.bmapstart + a / BPB][a % BPB / 8], a % 8)
  }

  function MarkUsed(l: Layout, block: seq<Block>, a: nat): (r: seq<Block>)
    requires LayoutOk(l) && |block| == l.size && a < l.size && !Bit(l, block, a)
    ensures |r| == |block|
  {
    var x, y := l.bmapstart + a / BPB, a % BPB / 8;
    block[x := block[x][y := WithBit(block[x][y], a % 8)]]
  }

  function MarkFree(l: Layout, block: seq<Block>, a: nat): (r: seq<Block>)
    requires LayoutOk(l) && |block| == l.size && a < l.size && Bit(l, block, a)
    ensures |r| == |block|
  {
    var x, y := l.bmapstart + a / BPB, a % BPB / 8;
    block[x := block[x][y := WithoutBit(block[x][y], a % 8)]]
  }

  lemma MarkUsedBits(l: Layout, block: seq<Block>, a: nat, c: nat)
    requires LayoutOk(l) && |block| == l.size && a < l.size && c < l.size && !Bit(l, block, a)
    ensures Bit(l, MarkUsed(l, block, a), c) <==> c == a || Bit(l, block, c)
  {
    hide BitOf, WithBit;
    WithBitBits(block[l.bmapstart + a / BPB][a % BPB / 8], a % 8, c % 8);
    SameBit(a, c);
  }

  lemma MarkFreeBits(l: Layout, block: seq<Block>, a: nat, c: nat)
    requires LayoutOk(l) && |block| == l.size && a < l.size && c < l.size && Bit(l, block, a)
    ensures Bit(l, MarkFree(l, block, a), c) <==> c != a && Bit(l, block, c)
  {
    hide BitOf, WithoutBit;
    WithoutBitBits(block[l.bmapstart + a / BPB][a % BPB / 8], a % 8, c % 8);
    SameBit(a, c);
  }

  /** A block's bit by bitmap block, byte and bit number. */
  lemma BitPlace(a: nat)
    ensures a == BPB * (a / BPB) + 8 * (a % BPB / 8) + a % 8 && a % 8 == a % BPB % 8
  {
    var q, r := a / BPB, a % BPB;
    assert a == 8 * (1024 * q + r / 8) + r % 8;
    Remainder(1024 * q + r / 8, r % 8);
  }

  lemma Remainder(x: nat, y: nat)
    requires y < 8
    ensures (8 * x + y) % 8 == y
  {
  }

  lemma SameBit(a: nat, c: nat)
    ensures a == c <==> a / BPB == c / BPB && a % BPB / 8 == c % BPB / 8 && a % 8 == c % 8
  {
    BitPlace(a);
    BitPlace(c);
  }

  /** Bitmap blocks are metadata. */
  lemma BitmapIsMeta(l: Layout, a: nat)
    requires LayoutOk(l) && a < l.size
    ensures l.bmapstart + a / BPB < l.nmeta
  {
  }

  /** Changing a block that is not metadata does not change the bitmap. */
  lemma BitFrame(l: Layout, block: seq<Block>, a: nat, x: nat, b: Block)
    requires LayoutOk(l) && |block| == l.size && a < l.size && l.nmeta <= x < l.size
    ensures Bit(l, block[x := b], a) == Bit(l, block, a)
  {
    BitmapIsMeta(l, a);
  }

  // ------------------------------------------------------------ block addresses

  /** The mounted file system: superblock, all blocks, all inodes. */
  datatype Fs = Fs(l: Layout, block: seq<Block>, inode: seq<Inode>)

  predicate ValidSlot(fs: Fs, s: Slot) {
    match s
    case Direct(i, k) => i < |fs.inode| && k <= NDIRECT
    case Entry(i, j) => i < |fs.inode| && j < NINDIRECT
  }

  /** Right lengths, and indirect addresses inside the disk. */
  predicate Shape(fs: Fs) {
    && LayoutOk(fs.l) && |fs.block| == fs.l.size
    && forall i :: 0 <= i < |fs.inode| ==>
         |fs.inode[i].addrs| == NDIRECT + 1 && fs.inode[i].addrs[NDIRECT] < fs.l.size
  }

  function AddrOf(fs: Fs, s: Slot): nat
    requires Shape(fs) && ValidSlot(fs, s)
  {
    match s
    case Direct(i, k) => fs.inode[i].addrs[k]
    case Entry(i, j) =>
      var x := fs.inode[i].addrs[NDIRECT];
      if x == 0 then 0 else Word(fs.block[x], j)
  }

  /** The slot that holds the address of block bn of inode i. */
  function BlockSlot(i: nat, bn: nat): Slot {
    if bn < NDIRECT then Direct(i, bn) else Entry(i, bn - NDIRECT)
  }

  predicate IsData(s: Slot) {
    s.Entry? || s.k < NDIRECT
  }

  // ------------------------------------------------------------ ownership

  /** Every address in a slot is owned by that slot and no other, apart from the
      slots in `dead`, which an unfinished truncation has already released. */
  ghost predicate Owned(fs: Fs, owner: map<nat, Slot>, dead: set<Slot>) {
    && Shape(fs)
    && (forall s :: ValidSlot(fs, s) && s !in dead && AddrOf(fs, s) != 0 ==>
          AddrOf(fs, s) in owner && owner[AddrOf(fs, s)] == s)
    && (forall a :: a in owner ==>
          && fs.l.nmeta <= a < fs.l.size && ValidSlot(fs, owner[a]) && owner[a] !in dead
          && AddrOf(fs, owner[a]) == a)
  }

  /** The bitmap marks exactly the metadata blocks, the owned blocks and `taken`,
      the blocks allocated but not yet stored in a slot. */
  ghost predicate Marked(fs: Fs, owner: map<nat, Slot>, taken: set<nat>) {
    && Shape(fs)
    && forall a :: 0 <= a < fs.l.size ==> (Bit(fs.l, fs.block, a) <==> a < fs.l.nmeta || a in owner || a in taken)
  }

  // ------------------------------------------------------------ contents

  /** Every block below the file's size is allocated. */
  ghost predicate HoleFree(fs: Fs, i: nat)
    requires Shape(fs) && i < |fs.inode|
  {
    && fs.inode[i].size <= MAXFILE * BSIZE
    && forall bn :: 0 <= bn < MAXFILE && bn * BSIZE < fs.inode[i].size ==> AddrOf(fs, BlockSlot(i, bn)) != 0
  }

  ghost predicate FsOk(fs: Fs, owner: map<nat, Slot>) {
    && Shape(fs) && Owned(fs, owner, {}) && Marked(fs, owner, {})
    && (forall i :: 0 <= i < |fs.inode| ==> fs.inode[i].size <= MAXFILE * BSIZE)
    && (forall i :: 0 <= i < |fs.inode| ==> HoleFree(fs, i))
  }

  /** The byte at offset o of inode i; 0 where no block is mapped. */
  ghost function ByteAt(fs: Fs, i: nat, o: nat): Byte
    requires Shape(fs) && i < |fs.inode| && o < MAXFILE * BSIZE
  {
    var a := AddrOf(fs, BlockSlot(i, o / BSIZE));
    if 0 < a < fs.l.size then fs.block[a][o % BSIZE] else 0
  }

  /** The file as a byte sequence. */
  ghost function Contents(fs: Fs, i: nat): (r: seq<Byte>)
    requires Shape(fs) && i < |fs.inode| && fs.inode[i].size <= MAXFILE * BSIZE
    ensures |r| == fs.inode[i].size
  {
    seq(fs.inode[i].size, o requires 0 <= o < fs.inode[i].size => ByteAt(fs, i, o))
  }

  /** The same inodes with the same sizes and the same bytes at every offset. */
  ghost predicate SameBytes(fs: Fs, gs: Fs) {
    && Shape(fs) && Shape(gs) && fs.l == gs.l && |fs.inode| == |gs.inode|
    && (forall i :: 0 <= i < |fs.inode| ==> fs.inode[i].size == gs.inode[i].size)
    && (forall i, o :: 0 <= i < |fs.inode| && 0 <= o < MAXFILE * BSIZE ==> ByteAt(gs, i, o) == ByteAt(fs, i, o))
  }

  // ------------------------------------------------------------ block allocation

  /** What balloc does to the disk: mark the block and zero it. */
  function Allocated(fs: Fs, a: nat): (r: Fs)
    requires Shape(fs) && a < fs.l.size && !Bit(fs.l, fs.block, a)
    ensures Shape(r)
  {
    fs.(block := MarkUsed(fs.l, fs.block, a)[a := Zeroed()])
  }

  /** An unmarked block is not owned, so taking it changes no address. */
  lemma AllocatedAddr(fs: Fs, owner: map<nat, Slot>, a: nat, s: Slot)
    requires Owned(fs, owner, {}) && a < fs.l.size && fs.l.nmeta <= a && a !in owner && !Bit(fs.l, fs.block, a)
    requires ValidSlot(fs, s)
    ensures AddrOf(Allocated(fs, a), s) == AddrOf(fs, s)
  {
    BitmapIsMeta(fs.l, a);
    if s.Entry? {
      var x := fs.inode[s.ino].addrs[NDIRECT];
      assert AddrOf(fs, Direct(s.ino, NDIRECT)) == x;
    }
  }

  lemma AllocatedOwned(fs: Fs, owner: map<nat, Slot>, a: nat)
    requires Owned(fs, owner, {}) && a < fs.l.size && fs.l.nmeta <= a && a !in owner && !Bit(fs.l, fs.block, a)
    ensures Owned(Allocated(fs, a), owner, {})
  {
    hide AddrOf, Allocated;
    var gs := Allocated(fs, a);
    AllocatedInodes(fs, a);
    forall s | ValidSlot(gs, s) ensures AddrOf(gs, s) == AddrOf(fs, s) {
      AllocatedAddr(fs, owner, a, s);
    }
  }

  lemma AllocatedInodes(fs: Fs, a: nat)
    requires Shape(fs) && a < fs.l.size && !Bit(fs.l, fs.block, a)
    ensures Allocated(fs, a).inode == fs.inode && Allocated(fs, a).l == fs.l
  {
  }

  lemma AllocatedMarked(fs: Fs, owner: map<nat, Slot>, taken: set<nat>, a: nat)
    requires Marked(fs, owner, taken) && fs.l.nmeta <= a < fs.l.size && !Bit(fs.l, fs.block, a)
    ensures Marked(Allocated(fs, a), owner, taken + {a})
  {
    hide Bit, MarkUsed;
    var m := MarkUsed(fs.l, fs.block, a);
    forall c | 0 <= c < fs.l.size
      ensures Bit(fs.l, Allocated(fs, a).block, c) <==> c == a || Bit(fs.l, fs.block, c)
    {
      MarkUsedBits(fs.l, fs.block, a, c);
      BitFrame(fs.l, m, c, a, Zeroed());
    }
  }

  lemma AllocatedBytes(fs: Fs, owner: map<nat, Slot>, a: nat)
    requires Owned(fs, owner, {}) && a < fs.l.size && fs.l.nmeta <= a && a !in owner && !Bit(fs.l, fs.block, a)
    ensures SameBytes(fs, Allocated(fs, a))
  {
    var gs := Allocated(fs, a);
    forall i, o | 0 <= i < |fs.inode| && 0 <= o < MAXFILE * BSIZE
      ensures ByteAt(gs, i, o) == ByteAt(fs, i, o)
    {
      var s := BlockSlot(i, o / BSIZE);
      AllocatedAddr(fs, owner, a, s);
      BitmapIsMeta(fs.l, a);
    }
  }

  // ------------------------------------------------------------ storing an address

  /** A block that may be given to a slot: allocated, zero, not owned yet. */
  ghost predicate Takeable(fs: Fs, owner: map<nat, Slot>, a: nat) {
    && Shape(fs) && fs.l.nmeta <= a < fs.l.size && a !in owner && fs.block[a] == Zeroed()
  }

  function PutDirect(fs: Fs, i: nat, k: nat, a: nat): (r: Fs)
    requires Shape(fs) && i < |fs.inode| && k <= NDIRECT && a < fs.l.size
    ensures Shape(r)
  {
    fs.(inode := fs.inode[i := fs.inode[i].(addrs := fs.inode[i].addrs[k := a])])
  }

  function PutEntry(fs: Fs, i: nat, j: nat, a: nat): (r: Fs)
    requires Shape(fs) && i < |fs.inode| && j < NINDIRECT && a < fs.l.size
    ensures Shape(r)
  {
    var x := fs.inode[i].addrs[NDIRECT];
    fs.(block := fs.block[x := SetWord(fs.block[x], j, a)])
  }

  lemma ZeroWords(j: nat)
    requires j < NINDIRECT
    ensures Word(Zeroed(), j) == 0
  {
  }

  lemma PutDirectAddr(fs: Fs, owner: map<nat, Slot>, i: nat, k: nat, a: nat, s: Slot)
    requires Takeable(fs, owner, a) && ValidSlot(fs, Direct(i, k)) && AddrOf(fs, Direct(i, k)) == 0 && ValidSlot(fs, s)
    ensures AddrOf(PutDirect(fs, i, k, a), s) == if s == Direct(i, k) then a else AddrOf(fs, s)
  {
    if s.Entry? { ZeroWords(s.j); }
  }

  lemma PutDirectOwned(fs: Fs, owner: map<nat, Slot>, taken: set<nat>, i: nat, k: nat, a: nat)
    requires Owned(fs, owner, {}) && Marked(fs, owner, taken) && Takeable(fs, owner, a) && a in taken
    requires ValidSlot(fs, Direct(i, k)) && AddrOf(fs, Direct(i, k)) == 0
    ensures Owned(PutDirect(fs, i, k, a), owner[a := Direct(i, k)], {})
    ensures Marked(PutDirect(fs, i, k, a), owner[a := Direct(i, k)], taken - {a})
    ensures SameBytes(fs, PutDirect(fs, i, k, a))
  {
    hide AddrOf, Bit;
    var gs := PutDirect(fs, i, k, a);
    forall s | ValidSlot(gs, s) ensures AddrOf(gs, s) == if s == Direct(i, k) then a else AddrOf(fs, s) {
      PutDirectAddr(fs, owner, i, k, a, s);
    }
    forall j, o | 0 <= j < |fs.inode| && 0 <= o < MAXFILE * BSIZE ensures ByteAt(gs, j, o) == ByteAt(fs, j, o) {
      PutDirectAddr(fs, owner, i, k, a, BlockSlot(j, o / BSIZE));
    }
  }

  lemma PutEntryAddr(fs: Fs, owner: map<nat, Slot>, i: nat, j: nat, a: nat, s: Slot)
    requires Owned(fs, owner, {}) && Takeable(fs, owner, a) && ValidSlot(fs, Entry(i, j)) && ValidSlot(fs, s)
    requires AddrOf(fs, Direct(i, NDIRECT)) != 0
    ensures AddrOf(PutEntry(fs, i, j, a), s) == if s == Entry(i, j) then a else AddrOf(fs, s)
  {
    hide Word, SetWord;
    if s.Entry? {
      var x := fs.inode[i].addrs[NDIRECT];
      assert AddrOf(fs, Direct(s.ino, NDIRECT)) == fs.inode[s.ino].addrs[NDIRECT];
      WordAfterSet(fs.block[x], j, a, s.j);
    }
  }

  lemma PutEntryOwned(fs: Fs, owner: map<nat, Slot>, taken: set<nat>, i: nat, j: nat, a: nat)
    requires Owned(fs, owner, {}) && Marked(fs, owner, taken) && Takeable(fs, owner, a) && a in taken
    requires ValidSlot(fs, Entry(i, j)) && AddrOf(fs, Entry(i, j)) == 0 && AddrOf(fs, Direct(i, NDIRECT)) != 0
    ensures Owned(PutEntry(fs, i, j, a), owner[a := Entry(i, j)], {})
    ensures Marked(PutEntry(fs, i, j, a), owner[a := Entry(i, j)], taken - {a})
  {
    hide AddrOf, Bit;
    var gs := PutEntry(fs, i, j, a);
    forall s | ValidSlot(gs, s) ensures AddrOf(gs, s) == if s == Entry(i, j) then a else AddrOf(fs, s) {
      PutEntryAddr(fs, owner, i, j, a, s);
    }
    IndirectOwned(fs, owner, i);
    forall c | 0 <= c < fs.l.size ensures Bit(fs.l, gs.block, c) == Bit(fs.l, fs.block, c) {
      var x := fs.inode[i].addrs[NDIRECT];
      BitFrame(fs.l, fs.block, c, x, SetWord(fs.block[x], j, a));
    }
  }

  /** An indirect block belongs to its inode, and is no file's data. */
  lemma IndirectOwned(fs: Fs, owner: map<nat, Slot>, i: nat)
    requires Owned(fs, owner, {}) && i < |fs.inode| && AddrOf(fs, Direct(i, NDIRECT)) != 0
    ensures var x := fs.inode[i].addrs[NDIRECT];
            fs.l.nmeta <= x < fs.l.size && x in owner && owner[x] == Direct(i, NDIRECT)
  {
    assert AddrOf(fs, Direct(i, NDIRECT)) == fs.inode[i].addrs[NDIRECT];
  }

  lemma PutEntryBytes(fs: Fs, owner: map<nat, Slot>, i: nat, j: nat, a: nat)
    requires Owned(fs, owner, {}) && Takeable(fs, owner, a)
    requires ValidSlot(fs, Entry(i, j)) && AddrOf(fs, Entry(i, j)) == 0 && AddrOf(fs, Direct(i, NDIRECT)) != 0
    ensures SameBytes(fs, PutEntry(fs, i, j, a))
  {
    hide AddrOf;
    var gs := PutEntry(fs, i, j, a);
    IndirectOwned(fs, owner, i);
    forall m, o | 0 <= m < |fs.inode| && 0 <= o < MAXFILE * BSIZE ensures ByteAt(gs, m, o) == ByteAt(fs, m, o) {
      var s := BlockSlot(m, o / BSIZE);
      PutEntryAddr(fs, owner, i, j, a, s);
    }
  }

  // ------------------------------------------------------------ writing data

  function WriteData(fs: Fs, a: nat, b: Block): (r: Fs)
    requires Shape(fs) && a < fs.l.size
    ensures Shape(r)
  {
    fs.(block := fs.block[a := b])
  }

  lemma WriteDataAddr(fs: Fs, owner: map<nat, Slot>, a: nat, b: Block, s: Slot)
    requires Owned(fs, owner, {}) && a in owner && IsData(owner[a]) && ValidSlot(fs, s)
    ensures AddrOf(WriteData(fs, a, b), s) == AddrOf(fs, s)
  {
    if s.Entry? {
      assert AddrOf(fs, Direct(s.ino, NDIRECT)) == fs.inode[s.ino].addrs[NDIRECT];
    }
  }

  lemma WriteDataOwned(fs: Fs, owner: map<nat, Slot>, taken: set<nat>, a: nat, b: Block)
    requires Owned(fs, owner, {}) && Marked(fs, owner, taken) && a in owner && IsData(owner[a])
    ensures Owned(WriteData(fs, a, b), owner, {}) && Marked(WriteData(fs, a, b), owner, taken)
  {
    hide AddrOf, Bit;
    var gs := WriteData(fs, a, b);
    forall s | ValidSlot(gs, s) ensures AddrOf(gs, s) == AddrOf(fs, s) {
      WriteDataAddr(fs, owner, a, b, s);
    }
    forall c | 0 <= c < fs.l.size ensures Bit(fs.l, gs.block, c) == Bit(fs.l, fs.block, c) {
      BitFrame(fs.l, fs.block, c, a, b);
    }
  }

  /** Writing block bn of inode i changes the bytes of that block and no others. */
  lemma WriteDataBytes(fs: Fs, owner: map<nat, Slot>, i: nat, bn: nat, b: Block, m: nat, o: nat)
    requires Owned(fs, owner, {}) && i < |fs.inode| && m < |fs.inode| && bn < MAXFILE && o < MAXFILE * BSIZE
    requires AddrOf(fs, BlockSlot(i, bn)) != 0
    ensures var a := AddrOf(fs, BlockSlot(i, bn));
            a in owner && IsData(owner[a]) &&
            ByteAt(WriteData(fs, a, b), m, o) == if m == i && o / BSIZE == bn then b[o % BSIZE] else ByteAt(fs, m, o)
  {
    hide AddrOf;
    var a := AddrOf(fs, BlockSlot(i, bn));
    var s := BlockSlot(m, o / BSIZE);
    WriteDataAddr(fs, owner, a, b, s);
    assert s == BlockSlot(i, bn) <==> m == i && o / BSIZE == bn;
  }

  // ------------------------------------------------------------ releasing blocks

  ghost predicate EntriesOnly(dead: set<Slot>) {
    forall s :: s in dead ==> s.Entry?
  }

  /** Clearing a bitmap bit changes no address and no byte of a mapped block. */
  lemma FreedAddr(fs: Fs, owner: map<nat, Slot>, dead: set<Slot>, a: nat, s: Slot)
    requires Owned(fs, owner, dead) && EntriesOnly(dead) && a < fs.l.size && Bit(fs.l, fs.block, a) && ValidSlot(fs, s)
    ensures AddrOf(fs.(block := MarkFree(fs.l, fs.block, a)), s) == AddrOf(fs, s)
  {
    BitmapIsMeta(fs.l, a);
    if s.Entry? {
      assert AddrOf(fs, Direct(s.ino, NDIRECT)) == fs.inode[s.ino].addrs[NDIRECT];
    }
  }

  lemma FreedMarked(fs: Fs, owner: map<nat, Slot>, a: nat)
    requires Marked(fs, owner, {}) && a in owner && fs.l.nmeta <= a < fs.l.size
    ensures Bit(fs.l, fs.block, a)
    ensures Marked(fs.(block := MarkFree(fs.l, fs.block, a)), owner - {a}, {})
  {
    hide Bit, MarkFree;
    forall c | 0 <= c < fs.l.size
      ensures Bit(fs.l, MarkFree(fs.l, fs.block, a), c) <==> c != a && Bit(fs.l, fs.block, c)
    {
      MarkFreeBits(fs.l, fs.block, a, c);
    }
  }

  /** Free the block in an indirect entry; the entry stays in the indirect block. */
  function FreeEntry(fs: Fs, a: nat): (r: Fs)
    requires Shape(fs) && a < fs.l.size && Bit(fs.l, fs.block, a)
    ensures Shape(r)
  {
    fs.(block := MarkFree(fs.l, fs.block, a))
  }

  lemma FreeEntryOwned(fs: Fs, owner: map<nat, Slot>, dead: set<Slot>, i: nat, j: nat)
    requires Owned(fs, owner, dead) && Marked(fs, owner, {}) && EntriesOnly(dead)
    requires ValidSlot(fs, Entry(i, j)) && Entry(i, j) !in dead && AddrOf(fs, Entry(i, j)) != 0
    ensures var a := AddrOf(fs, Entry(i, j));
            && a in owner && owner[a] == Entry(i, j) && a < fs.l.size && Bit(fs.l, fs.block, a)
                 && EntriesOnly(dead + {Entry(i, j)})
            && Owned(FreeEntry(fs, a), owner - {a}, dead + {Entry(i, j)}) && Marked(FreeEntry(fs, a), owner - {a}, {})
            && forall s :: ValidSlot(fs, s) ==> AddrOf(FreeEntry(fs, a), s) == AddrOf(fs, s)
  {
    hide AddrOf, Bit, MarkFree;
    var a := AddrOf(fs, Entry(i, j));
    FreedMarked(fs, owner, a);
    var gs := FreeEntry(fs, a);
    forall s | ValidSlot(fs, s) ensures AddrOf(gs, s) == AddrOf(fs, s) {
      FreedAddr(fs, owner, dead, a, s);
    }
  }

  /** Free the block in an inode slot and clear the slot. */
  function FreeDirect(fs: Fs, i: nat, k: nat, a: nat): (r: Fs)
    requires Shape(fs) && i < |fs.inode| && k <= NDIRECT && a < fs.l.size && Bit(fs.l, fs.block, a)
    ensures Shape(r)
  {
    FreeEntry(fs, a).(inode := fs.inode[i := fs.inode[i].(addrs := fs.inode[i].addrs[k := 0])])
  }

  /** For the indirect block itself every entry must have been released before. */
  lemma FreeDirectOwned(fs: Fs, owner: map<nat, Slot>, dead: set<Slot>, i: nat, k: nat)
    requires Owned(fs, owner, dead) && Marked(fs, owner, {}) && EntriesOnly(dead)
    requires ValidSlot(fs, Direct(i, k)) && AddrOf(fs, Direct(i, k)) != 0
    requires k < NDIRECT ==> dead == {}
    requires k == NDIRECT ==> forall s :: s in dead <==> s.Entry? && s.ino == i && s.j < NINDIRECT
    ensures var a := AddrOf(fs, Direct(i, k));
            && a in owner && owner[a] == Direct(i, k) && a < fs.l.size && Bit(fs.l, fs.block, a)
            && Owned(FreeDirect(fs, i, k, a), owner - {a}, {}) && Marked(FreeDirect(fs, i, k, a), owner - {a}, {})
            && forall s :: ValidSlot(fs, s) ==>
                 AddrOf(FreeDirect(fs, i, k, a), s) ==
                   if s == Direct(i, k) || (k == NDIRECT && s.Entry? && s.ino == i) then 0 else AddrOf(fs, s)
  {
    var a := AddrOf(fs, Direct(i, k));
    FreedMarked(fs, owner, a);
    var ms, gs := FreeEntry(fs, a), FreeDirect(fs, i, k, a);
    forall s | ValidSlot(fs, s)
      ensures AddrOf(gs, s) == if s == Direct(i, k) || (k == NDIRECT && s.Entry? && s.ino == i) then 0
              else AddrOf(fs, s)
    {
      hide Bit, MarkFree;
      FreedAddr(fs, owner, dead, a, s);
    }
    FreeDirectOwnedAux(fs, owner, dead, i, k, a);
  }

  lemma FreeDirectOwnedAux(fs: Fs, owner: map<nat, Slot>, dead: set<Slot>, i: nat, k: nat, a: nat)
    requires Owned(fs, owner, dead) && ValidSlot(fs, Direct(i, k)) && AddrOf(fs, Direct(i, k)) == a != 0
    requires k < NDIRECT ==> dead == {}
    requires k == NDIRECT ==> forall s :: s in dead <==> s.Entry? && s.ino == i && s.j < NINDIRECT
    requires a < fs.l.size && Bit(fs.l, fs.block, a)
    requires forall s :: ValidSlot(fs, s) ==>
               AddrOf(FreeDirect(fs, i, k, a), s) ==
                 if s == Direct(i, k) || (k == NDIRECT && s.Entry? && s.ino == i) then 0 else AddrOf(fs, s)
    requires Marked(FreeEntry(fs, a), owner - {a}, {})
    ensures Owned(FreeDirect(fs, i, k, a), owner - {a}, {}) && Marked(FreeDirect(fs, i, k, a), owner - {a}, {})
  {
    hide AddrOf, Bit, MarkFree;
  }
}

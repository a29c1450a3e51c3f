/** A file system in the worst case for the log budget of a write (BlockUse.WorstCase): the
    disk is filled file by file with the lowest free blocks, and then four files, one under
    each bitmap block, lose their first block. */
module WorstDisk {
  import opened Basics
  import opened Blocks
  import opened FileLayout
  import opened BlockUse
  import opened Files

  /** A full file: 12 direct blocks, the indirect block and its 256 entries. */
  const FULL: nat := 269

  const META: nat := 60

  /** 94 full files and one with its direct blocks only. */
  const USED: nat := 94 * FULL + NDIRECT

  const LAYOUT := Layout(META + USED, 32, 50, META)

  const LAST: nat := 94

  /** The slot that gets data block number r: file after file, each in the order of a write
      from its start, but for the indirect block. */
  function SlotFor(r: nat): Slot {
    var m, q := r / FULL, r % FULL;
    if q <= NDIRECT then Direct(m, q) else Entry(m, q - NDIRECT - 1)
  }

  function NumberOf(s: Slot): nat {
    match s case Direct(m, q) => m * FULL + q case Entry(m, j) => m * FULL + NDIRECT + 1 + j
  }

  lemma Numbered(r: nat)
    ensures NumberOf(SlotFor(r)) == r
  {
    assert r == r / FULL * FULL + r % FULL;
  }

  lemma SlotNumber(m: nat, q: nat)
    requires q < FULL
    ensures SlotFor(m * FULL + q) == if q <= NDIRECT then Direct(m, q) else Entry(m, q - NDIRECT - 1)
  {
    assert (m * FULL + q) / FULL == m && (m * FULL + q) % FULL == q;
  }

  function SlotAt(a: nat): Slot {
    SlotFor(if a < META then 0 else a - META)
  }

  function OwnerTo(n: nat): map<nat, Slot> {
    map a: nat | META <= a < META + n :: SlotAt(a)
  }

  // ------------------------------------------------------------ filling the disk

  /** The first n data blocks belong to their slots, and no others. */
  ghost predicate FullTo(fs: Fs, n: nat) {
    && fs.l == LAYOUT && fs.inode == Sized(fs.inode) && |fs.inode| == LAST + 1
    && Owned(fs, OwnerTo(n), {}) && Marked(fs, OwnerTo(n), {})
  }

  /** Every file has size 0. */
  function Sized(inode: seq<Inode>): seq<Inode> {
    seq(|inode|, m requires 0 <= m < |inode| => inode[m].(size := 0))
  }

  lemma {:induction false} BlankTo(n: nat) returns (block: seq<Block>)
    requires n <= META
    ensures MarksBelow(LAYOUT, block, n)
  {
    if n == 0 {
      NothingMarked(LAYOUT);
      block := seq(LAYOUT.size, _ => Zeroed());
    } else {
      block := BlankTo(n - 1);
      MarksNext(LAYOUT, block, n - 1);
      block := MarkUsed(LAYOUT, block, n - 1);
    }
  }

  lemma FullToNone() returns (fs: Fs)
    ensures FullTo(fs, 0)
  {
    hide Bit, MarkUsed, AddrOf, MarksBelow;
    var block := BlankTo(META);
    fs := Fs(LAYOUT, block, Unused(LAST + 1));
    BlankOk(fs, LAST + 1);
    assert OwnerTo(0) == map[];
    assert Sized(fs.inode) == fs.inode;
  }

  /** The next block and its slot. */
  lemma NextSlot(fs: Fs, n: nat)
    requires FullTo(fs, n) && n < USED
    ensures var a, s := META + n, SlotFor(n);
            && a !in OwnerTo(n) && META <= a < fs.l.size && !Bit(fs.l, fs.block, a)
            && ValidSlot(fs, s) && AddrOf(fs, s) == 0 && OwnerTo(n + 1) == OwnerTo(n)[a := s]
            && (s.Entry? ==> AddrOf(fs, Direct(s.ino, NDIRECT)) != 0)
  {
    hide AddrOf, Bit;
    var s := SlotFor(n);
    OwnedShape(fs, OwnerTo(n), {});
    assert ValidSlot(fs, s);
    if AddrOf(fs, s) != 0 {
      var b := AddrOf(fs, s);
      Numbered(n);
      Numbered(b - META);
    }
    if s.Entry? {
      SlotNumber(s.ino, NDIRECT);
      assert META + s.ino * FULL + NDIRECT in OwnerTo(n);
    }
  }

  lemma FullToNext(fs: Fs, n: nat) returns (gs: Fs)
    requires FullTo(fs, n) && n < USED
    ensures FullTo(gs, n + 1)
  {
    hide AddrOf, Bit, MarkUsed, Owned, Marked, SetWord, SameBytes;
    NextSlot(fs, n);
    var a, s, owner := META + n, SlotFor(n), OwnerTo(n);
    OwnedShape(fs, owner, {});
    AllocatedOwned(fs, owner, a);
    AllocatedMarked(fs, owner, {}, a);
    AllocatedAddr(fs, owner, a, s);
    assert {} + {a} == {a} && {a} - {a} == {};
    var ms := Allocated(fs, a);
    AllocatedInodes(fs, a);
    assert Takeable(ms, owner, a) by { ZeroedBlock(fs, a); }
    match s
    case Direct(m, k) =>
      PutDirectOwned(ms, owner, {a}, m, k, a);
      gs := PutDirect(ms, m, k, a);
      assert Sized(gs.inode) == gs.inode;
    case Entry(m, j) =>
      AllocatedAddr(fs, owner, a, Direct(m, NDIRECT));
      PutEntryOwned(ms, owner, {a}, m, j, a);
      gs := PutEntry(ms, m, j, a);
  }

  lemma ZeroedBlock(fs: Fs, a: nat)
    requires Shape(fs) && a < fs.l.size && !Bit(fs.l, fs.block, a)
    ensures Allocated(fs, a).block[a] == Zeroed()
  {
    hide Bit, MarkUsed;
  }

  lemma {:induction false} FillTo(n: nat) returns (fs: Fs)
    requires n <= USED
    ensures FullTo(fs, n)
  {
    hide FullTo;
    if n == 0 {
      fs := FullToNone();
    } else {
      fs := FillTo(n - 1);
      fs := FullToNext(fs, n - 1);
    }
  }

  // ------------------------------------------------------------ four blocks under four bitmap blocks

  /** The first block of file 31 * t. */
  function Hole(t: nat): nat {
    META + 31 * t * FULL
  }

  function HolesTo(t: nat): set<nat> {
    set k | 0 <= k < t :: Hole(k)
  }

  /** The disk is full but for the first t of them. */
  ghost predicate HolesIn(fs: Fs, t: nat) {
    && fs.l == LAYOUT && fs.inode == Sized(fs.inode) && |fs.inode| == LAST + 1
    && Owned(fs, OwnerTo(USED) - HolesTo(t), {}) && Marked(fs, OwnerTo(USED) - HolesTo(t), {})
  }

  lemma HoleSlot(t: nat)
    requires t < 4
    ensures Hole(t) in OwnerTo(USED) && OwnerTo(USED)[Hole(t)] == Direct(31 * t, 0) && Hole(t) !in HolesTo(t)
    ensures HolesTo(t + 1) == HolesTo(t) + {Hole(t)}
  {
    SlotNumber(31 * t, 0);
  }

  lemma NextHole(fs: Fs, t: nat) returns (gs: Fs)
    requires HolesIn(fs, t) && t < 4
    ensures HolesIn(gs, t + 1)
  {
    hide AddrOf, Bit, MarkFree, Owned, Marked, OwnerTo, HolesTo;
    HoleSlot(t);
    var owner, a := OwnerTo(USED) - HolesTo(t), Hole(t);
    OwnedShape(fs, owner, {});
    assert ValidSlot(fs, Direct(31 * t, 0)) && AddrOf(fs, Direct(31 * t, 0)) == a by { OwnerAt(fs, owner, a); }
    assert EntriesOnly({});
    FreeDirectOwned(fs, owner, {}, 31 * t, 0);
    gs := FreeDirect(fs, 31 * t, 0, a);
    assert owner - {a} == OwnerTo(USED) - HolesTo(t + 1);
    assert Sized(gs.inode) == gs.inode;
  }

  lemma OwnerAt(fs: Fs, owner: map<nat, Slot>, a: nat)
    requires Owned(fs, owner, {}) && a in owner
    ensures ValidSlot(fs, owner[a]) && AddrOf(fs, owner[a]) == a && a >= fs.l.nmeta
  {
    hide AddrOf;
  }

  lemma {:induction false} Punch(t: nat) returns (fs: Fs)
    requires t <= 4
    ensures HolesIn(fs, t)
  {
    hide HolesIn, FullTo;
    if t == 0 {
      fs := FillTo(USED);
      NoHoles(fs);
    } else {
      fs := Punch(t - 1);
      fs := NextHole(fs, t - 1);
    }
  }

  lemma NoHoles(fs: Fs)
    requires FullTo(fs, USED)
    ensures HolesIn(fs, 0)
  {
    hide AddrOf, Bit, Owned, Marked;
    assert OwnerTo(USED) - HolesTo(0) == OwnerTo(USED);
  }

  // ------------------------------------------------------------ the file that is written

  /** The last file holds eleven blocks and a byte; all of it is there. */
  lemma LastFile(fs: Fs)
    requires HolesIn(fs, 4)
    ensures forall k :: 0 <= k < NDIRECT ==> fs.inode[LAST].addrs[k] != 0
    ensures fs.inode[LAST].addrs[NDIRECT] == 0
  {
    hide AddrOf, Bit, OwnerTo, HolesTo, Marked;
    var owner := OwnerTo(USED) - HolesTo(4);
    forall k | 0 <= k < NDIRECT ensures fs.inode[LAST].addrs[k] != 0 {
      LastSlot(k);
      OwnerAt(fs, owner, META + LAST * FULL + k);
      DirectAt(fs, LAST, k);
    }
    IndirectAt(fs, LAST);
    if AddrOf(fs, Direct(LAST, NDIRECT)) != 0 { NotTaken(AddrOf(fs, Direct(LAST, NDIRECT))); }
  }

  lemma LastSlot(k: nat)
    requires k < NDIRECT
    ensures var a := META + LAST * FULL + k;
            a in OwnerTo(USED) && OwnerTo(USED)[a] == Direct(LAST, k) && a !in HolesTo(4)
  {
    SlotNumber(LAST, k);
  }

  lemma NotTaken(a: nat)
    ensures a in OwnerTo(USED) ==> OwnerTo(USED)[a] != Direct(LAST, NDIRECT)
  {
    if a in OwnerTo(USED) { Numbered(a - META); }
  }

  /** There is a consistent file system in which a write of three blocks to the last file
      meets the worst case. */
  lemma WorstExists() returns (fs: Fs, owner: map<nat, Slot>)
    ensures FsOk(fs, owner) && LAST < |fs.inode| && WorstCase(fs, owner, LAST, HolesTo(4))
    ensures WorstWrite(fs.inode[LAST].size, (NDIRECT - 1) * BSIZE + 1, 3 * BSIZE)
  {
    hide AddrOf, Bit, Owned, Marked, HoleFree, WorstCase, OwnerTo, HolesTo;
    var gs := Punch(4);
    owner := OwnerTo(USED) - HolesTo(4);
    OwnedShape(gs, owner, {});
    assert forall m :: 0 <= m < |gs.inode| ==> gs.inode[m] == Sized(gs.inode)[m];
    LastFile(gs);
    var e := (NDIRECT - 1) * BSIZE + 1;
    ResizedOwned(gs, owner, LAST, e);
    ResizedAddr(gs, LAST, e);
    fs := Resized(gs, LAST, e);
    forall m | 0 <= m < |fs.inode| ensures HoleFree(fs, m) { Holeless(fs, m); }
    FourHoles(fs);
  }

  lemma Holeless(fs: Fs, m: nat)
    requires Shape(fs) && m < |fs.inode| && fs.inode[m].size <= (NDIRECT - 1) * BSIZE + 1
    requires fs.inode[m].size == 0 || forall k :: 0 <= k < NDIRECT ==> fs.inode[m].addrs[k] != 0
    ensures HoleFree(fs, m)
  {
  }

  lemma HolesApart(s: nat, t: nat)
    requires s < 4 && t < 4 && s != t
    ensures Hole(s) != Hole(t) && BitmapBlock(LAYOUT, Hole(s)) != BitmapBlock(LAYOUT, Hole(t))
  {
    assert Hole(0) / BPB == 0 && Hole(1) / BPB == 1 && Hole(2) / BPB == 2 && Hole(3) / BPB == 3;
  }

  lemma FourHoles(fs: Fs)
    requires Shape(fs) && fs.l == LAYOUT && |fs.inode| == LAST + 1
    requires fs.inode[LAST].addrs[NDIRECT - 1] != 0 && fs.inode[LAST].addrs[NDIRECT] == 0
    ensures WorstCase(fs, OwnerTo(USED) - HolesTo(4), LAST, HolesTo(4))
  {
    var h := HolesTo(4);
    assert h == {Hole(0), Hole(1), Hole(2), Hole(3)};
    HolesApart(0, 1);
    HolesApart(0, 2);
    HolesApart(0, 3);
    HolesApart(1, 2);
    HolesApart(1, 3);
    HolesApart(2, 3);
  }
}

/** What exec builds, on flat user memory: loading segments and pushing arguments. */
module ExecImage {
  import opened Basics
  import opened PageTable
  import opened Vm
  import opened UserImage
  import opened UserMemory

  const TWO64: nat := 0x1_0000_0000_0000_0000
  const MAXARG: nat := 32

  /** A program header, with what the file holds from its offset on. */
  datatype Segment = Segment(load: bool, vaddr: nat, memsz: nat, filesz: nat, data: seq<Byte>)

  /** Flat memory with bytes stored from va on. */
  function StoreAt(img: seq<UserPage>, va: nat, src: seq<Byte>): (r: seq<UserPage>)
    ensures |r| == |img|
  {
    seq(|img|, p requires 0 <= p < |img| => UserPage(StoreIn(img[p].data, p * PGSIZE, va, src), img[p].perm))
  }

  function StoreIn(f: Frame, base: nat, va: nat, src: seq<Byte>): Frame {
    seq(PGSIZE, o requires 0 <= o < PGSIZE => if va <= base + o < va + |src| then src[base + o - va] else f[o])
  }

  /** Stored determines the image. */
  lemma StoredIs(img: seq<UserPage>, now: seq<UserPage>, va: nat, src: seq<Byte>)
    requires Stored(img, now, va, src, |src|)
    ensures now == StoreAt(img, va, src)
  {
    forall p | 0 <= p < |img| ensures now[p] == StoreAt(img, va, src)[p] {
      forall o | 0 <= o < PGSIZE ensures now[p].data[o] == StoreIn(img[p].data, p * PGSIZE, va, src)[o] {
        var x: nat := p * PGSIZE + o;
        assert x / PGSIZE == p && x % PGSIZE == o;
        assert ByteAt(now, x) == if va <= x < va + |src| then src[x - va] else ByteAt(img, x);
      }
      assert now[p].data == StoreIn(img[p].data, p * PGSIZE, va, src);
    }
  }

  /** Memory and size after loading one segment (exec.c:45-58). */
  function LoadOne(img: seq<UserPage>, s: Segment): seq<UserPage> {
    if !s.load then img
    else
      var room := if PagesOf(s.vaddr + s.memsz) >= |img| then Grown(img, PagesOf(s.vaddr + s.memsz)) else img;
      StoreAt(room, s.vaddr, s.data[..if s.filesz <= |s.data| then s.filesz else |s.data|])
  }

  function LoadAll(segs: seq<Segment>): seq<UserPage> {
    if segs == [] then [] else LoadOne(LoadAll(segs[..|segs| - 1]), segs[|segs| - 1])
  }

  /** Every user page so far is open to user code. */
  predicate AllOpen(img: seq<UserPage>) {
    forall i :: 0 <= i < |img| ==> img[i].perm == RWXU
  }

  lemma OpenReach(img: seq<UserPage>, va: nat)
    requires AllOpen(img) && va / PGSIZE < |img|
    ensures Reach(img, va)
  {
  }

  lemma LoadOneOpen(img: seq<UserPage>, s: Segment)
    requires AllOpen(img)
    ensures AllOpen(LoadOne(img, s))
  {
  }

  /** The stack: a page user code cannot reach, then one it can (exec.c:69-74). */
  function WithStack(img: seq<UserPage>): (r: seq<UserPage>)
    ensures |r| == |img| + 2
  {
    var g := Grown(img, |img| + 2);
    g[|img| := g[|img|].(perm := g[|img|].perm.(u := false))]
  }

  /** The little-endian bytes of a number. */
  function Le(x: nat, n: nat): (r: seq<Byte>)
    ensures |r| == n
  {
    if n == 0 then [] else [x % 256] + Le(x / 256, n - 1)
  }

  function FromLe(b: seq<Byte>): nat {
    if b == [] then 0 else b[0] + 256 * FromLe(b[1..])
  }

  function Pow256(n: nat): nat {
    if n == 0 then 1 else 256 * Pow256(n - 1)
  }

  lemma {:induction false} LeRoundTrip(x: nat, n: nat)
    requires x < Pow256(n)
    ensures FromLe(Le(x, n)) == x
  {
    if n > 0 { LeRoundTrip(x / 256, n - 1); }
  }

  /** The argv array as bytes: the pointers and a null. */
  function Pointers(ustack: seq<nat>): (r: seq<Byte>)
    ensures |r| == 8 * (|ustack| + 1)
  {
    if ustack == [] then Le(0, 8) else Le(ustack[0], 8) + Pointers(ustack[1..])
  }

  /** Eight bytes of the array are one pointer; the last is null. */
  lemma {:induction false} PointerAt(ustack: seq<nat>, i: nat)
    requires i <= |ustack|
    ensures Pointers(ustack)[8 * i..8 * i + 8] == Le(if i < |ustack| then ustack[i] else 0, 8)
  {
    hide Le;
    var p := Pointers(ustack);
    if ustack == [] {
      assert p[0..8] == p;
    } else if i == 0 {
      assert p[0..8] == Le(ustack[0], 8);
    } else {
      var q := Pointers(ustack[1..]);
      PointerAt(ustack[1..], i - 1);
      assert p[8 * i..8 * i + 8] == q[8 * (i - 1)..8 * (i - 1) + 8];
    }
  }

  /** User code that loads the 8-byte word at va gets x. */
  ghost predicate Loads(img: seq<UserPage>, va: nat, x: nat) {
    exists b: seq<Byte> :: |b| == 8 && Fetched(img, va, b) && FromLe(b) == x
  }

  /** User code finds argument string arg through the pointer at va. */
  ghost predicate ArgAt(img: seq<UserPage>, va: nat, arg: seq<Byte>) {
    exists a: nat :: Loads(img, va, a) && Fetched(img, a, arg + [0])
  }

  /** At sp is the argv of a program called with args: in order, and null behind the last. */
  ghost predicate ArgvAt(img: seq<UserPage>, sp: nat, args: seq<seq<Byte>>) {
    (forall i :: 0 <= i < |args| ==> ArgAt(img, sp + 8 * i, args[i])) && Loads(img, sp + 8 * |args|, 0)
  }

  lemma FetchedPart(img: seq<UserPage>, va: nat, b: seq<Byte>, i: nat, j: nat)
    requires Fetched(img, va, b) && i <= j <= |b|
    ensures Fetched(img, va + i, b[i..j])
  {
  }

  lemma LoadsPointer(img: seq<UserPage>, sp: nat, ustack: seq<nat>, i: nat, x: nat)
    requires Fetched(img, sp, Pointers(ustack)) && i <= |ustack| && x == (if i < |ustack| then ustack[i] else 0)
    requires x < Pow256(8)
    ensures Loads(img, sp + 8 * i, x)
  {
    hide Fetched, Pow256, FromLe, Le, Pointers;
    var p := Pointers(ustack);
    PointerAt(ustack, i);
    LeRoundTrip(x, 8);
    FetchedPart(img, sp, p, 8 * i, 8 * i + 8);
    assert |p[8 * i..8 * i + 8]| == 8 && Fetched(img, sp + 8 * i, p[8 * i..8 * i + 8]);
  }

  /** The pushed array and strings make an argv. */
  lemma ArgvIs(img: seq<UserPage>, args: seq<seq<Byte>>, ustack: seq<nat>, sp: nat)
    requires ArgsAt(img, args, ustack, sp) && |ustack| == |args| && Fetched(img, sp, Pointers(ustack))
    requires |img| < TRAPFRAME
    ensures ArgvAt(img, sp, args)
  {
    hide Loads, Pointers, Pow256;
    forall i | 0 <= i < |args| ensures ArgAt(img, sp + 8 * i, args[i]) {
      assert Fetched(img, ustack[i], args[i] + [0]);
      InMemory(img, ustack[i]);
      LoadsPointer(img, sp, ustack, i, ustack[i]);
    }
    WordBound();
    LoadsPointer(img, sp, ustack, |args|, 0);
  }

  lemma InMemory(img: seq<UserPage>, a: nat)
    requires Reach(img, a) && |img| < TRAPFRAME
    ensures a < Pow256(8)
  {
    WordBound();
    assert a < TRAPFRAME * PGSIZE;
  }

  lemma WordBound()
    ensures Pow256(8) > TRAPFRAME * PGSIZE
  {
    assert Pow256(4) == 0x1_0000_0000;
  }

  /** The arguments pushed so far lie at or above sp, each a terminated string. */
  ghost predicate ArgsAt(img: seq<UserPage>, args: seq<seq<Byte>>, ustack: seq<nat>, sp: nat) {
    && |ustack| <= |args|
    && forall i :: 0 <= i < |ustack| ==> sp <= ustack[i] && Fetched(img, ustack[i], args[i] + [0])
  }

  /** now has the pages of img below the top one, and the same permissions. */
  predicate BelowSame(img: seq<UserPage>, now: seq<UserPage>) {
    && |now| == |img|
    && forall i :: 0 <= i < |img| ==> now[i].perm == img[i].perm && (i < |img| - 1 ==> now[i] == img[i])
  }

  /** A store below what was pushed leaves it alone. */
  lemma PushKeeps(img: seq<UserPage>, now: seq<UserPage>, args: seq<seq<Byte>>, ustack: seq<nat>, sp: nat, va: nat,
                  src: seq<Byte>)
    requires ArgsAt(img, args, ustack, sp) && Stored(img, now, va, src, |src|) && va + |src| <= sp
    ensures ArgsAt(now, args, ustack, va)
  {
    hide Reach, ByteAt;
    forall i | 0 <= i < |ustack| ensures va <= ustack[i] && Fetched(now, ustack[i], args[i] + [0]) {
      FetchedKept(img, now, va, src, ustack[i], args[i] + [0]);
    }
  }

  lemma FetchedKept(img: seq<UserPage>, now: seq<UserPage>, va: nat, src: seq<Byte>, at: nat, dst: seq<Byte>)
    requires Stored(img, now, va, src, |src|) && va + |src| <= at && Fetched(img, at, dst)
    ensures Fetched(now, at, dst)
  {
    forall x: nat | at <= x < at + |dst| ensures Reach(now, x) && dst[x - at] == ByteAt(now, x) {
      assert Reach(img, x);
      ReachStored(img, now, va, src, |src|, x);
    }
  }

  lemma StoredFetched(img: seq<UserPage>, now: seq<UserPage>, va: nat, src: seq<Byte>)
    requires Stored(img, now, va, src, |src|)
    ensures Fetched(now, va, src)
  {
    forall x: nat | va <= x < va + |src| ensures Reach(now, x) && src[x - va] == ByteAt(now, x) {
      assert Reach(img, x);
      ReachStored(img, now, va, src, |src|, x);
    }
  }

  /** A store within the top page. */
  lemma StoredTop(img: seq<UserPage>, now: seq<UserPage>, va: nat, src: seq<Byte>)
    requires |img| > 0 && Stored(img, now, va, src, |src|) && va >= (|img| - 1) * PGSIZE
    ensures BelowSame(img, now)
  {
    forall i | 0 <= i < |img| - 1 ensures now[i] == img[i] {
      forall o | 0 <= o < PGSIZE ensures now[i].data[o] == img[i].data[o] {
        var x: nat := i * PGSIZE + o;
        assert x / PGSIZE == i && x % PGSIZE == o;
        assert ByteAt(now, x) == ByteAt(img, x);
      }
    }
  }

  lemma BelowTrans(a: seq<UserPage>, b: seq<UserPage>, c: seq<UserPage>)
    requires BelowSame(a, b) && BelowSame(b, c)
    ensures BelowSame(a, c)
  {
  }

  /** All of the stack page is reachable. */
  lemma StackReach(img: seq<UserPage>, now: seq<UserPage>, x: nat)
    requires BelowSame(WithStack(img), now) && (|img| + 1) * PGSIZE <= x < (|img| + 2) * PGSIZE
    ensures Reach(now, x)
  {
    assert x / PGSIZE == |img| + 1;
  }

  /** The stack pointer is kept 16-byte aligned. */
  function Aligned(sp: int): (r: int)
    ensures r % 16 == 0 && r <= sp < r + 16
  {
    sp - sp % 16
  }

  /** The stack pointer after pushing n arguments from `top` down. */
  function SpAfter(top: int, args: seq<seq<Byte>>, n: nat): int
    requires n <= |args|
  {
    if n == 0 then top else Aligned(SpAfter(top, args, n - 1) - (|args[n - 1]| + 1))
  }

  /** The stack pointer with the argv array below the arguments. */
  function FinalSp(top: int, args: seq<seq<Byte>>): int {
    Aligned(SpAfter(top, args, |args|) - 8 * (|args| + 1))
  }

  lemma {:induction false} SpGoesDown(top: int, args: seq<seq<Byte>>, i: nat, n: nat)
    requires i <= n <= |args|
    ensures SpAfter(top, args, n) <= SpAfter(top, args, i)
  {
    if i < n { SpGoesDown(top, args, i, n - 1); }
  }

  /** The size of user memory after loading segments (exec.c:53-55): uvmalloc never shrinks it. */
  function SizeAfter(segs: seq<Segment>): nat {
    if segs == [] then 0
    else
      var last, before := segs[|segs| - 1], SizeAfter(segs[..|segs| - 1]);
      if last.load && last.vaddr + last.memsz >= before then last.vaddr + last.memsz else before
  }

  /** A header that exec refuses when memory is sz bytes so far, or a file too short for it. */
  predicate Bad(s: Segment, sz: nat) {
    s.load && (s.memsz < s.filesz || s.vaddr + s.memsz >= TWO64 || (s.vaddr + s.memsz == 0 && sz == 0)
        || s.vaddr % PGSIZE != 0 || |s.data| < s.filesz)
  }

  /** No header is refused. */
  predicate Accepted(segs: seq<Segment>) {
    forall i :: 0 <= i < |segs| ==> !Bad(segs[i], SizeAfter(segs[..i]))
  }

  /** One more accepted header. */
  lemma AcceptedMore(segs: seq<Segment>)
    requires segs != [] && Accepted(segs[..|segs| - 1])
    requires !Bad(segs[|segs| - 1], SizeAfter(segs[..|segs| - 1]))
    ensures Accepted(segs)
  {
    hide Bad, SizeAfter;
    var rest := segs[..|segs| - 1];
    forall i | 0 <= i < |segs| ensures !Bad(segs[i], SizeAfter(segs[..i])) {
      if i < |segs| - 1 { assert rest[..i] == segs[..i] && rest[i] == segs[i]; }
    }
  }

  /** Loaded memory covers every loaded segment. */
  lemma {:induction false} LoadCovers(segs: seq<Segment>, i: nat)
    requires i < |segs| && segs[i].load
    ensures PagesOf(segs[i].vaddr + segs[i].memsz) <= |LoadAll(segs)|
  {
    hide PagesOf, LoadOne;
    var rest := segs[..|segs| - 1];
    LoadOneCovers(LoadAll(rest), segs[|segs| - 1]);
    if i < |segs| - 1 { LoadCovers(rest, i); }
  }

  lemma LoadOneCovers(img: seq<UserPage>, s: Segment)
    ensures |LoadOne(img, s)| >= |img| && (s.load ==> PagesOf(s.vaddr + s.memsz) <= |LoadOne(img, s)|)
  {
    hide PagesOf;
  }

  /** The byte at x once the segments are loaded in order: from the file part of the last one
      that covers x, and 0 if none does. */
  function LoadedByte(segs: seq<Segment>, x: nat): Byte {
    if segs == [] then 0
    else
      var last := segs[|segs| - 1];
      if FilePart(last, x) then last.data[x - last.vaddr] else LoadedByte(segs[..|segs| - 1], x)
  }

  predicate FilePart(s: Segment, x: nat) {
    s.load && s.vaddr <= x < s.vaddr + s.filesz && x - s.vaddr < |s.data|
  }

  lemma LoadOneByte(img: seq<UserPage>, s: Segment, x: nat)
    requires x / PGSIZE < |LoadOne(img, s)|
    ensures ByteAt(LoadOne(img, s), x) ==
              if FilePart(s, x) then s.data[x - s.vaddr] else if x / PGSIZE < |img| then ByteAt(img, x) else 0
  {
    hide PagesOf;
    assert (x / PGSIZE) * PGSIZE + x % PGSIZE == x;
  }

  /** No file part lies beyond the loaded memory. */
  lemma {:induction false} NothingBeyond(segs: seq<Segment>, x: nat)
    requires Accepted(segs) && x / PGSIZE >= |LoadAll(segs)|
    ensures LoadedByte(segs, x) == 0
  {
    hide LoadAll, PagesOf, Accepted, FilePart;
    if segs != [] {
      var rest, n := segs[..|segs| - 1], |segs| - 1;
      AcceptedLess(segs);
      NoPart(segs[n], x);
      if segs[n].load {
        LoadCovers(segs, n);
        PartFits(segs[n], x, |LoadAll(segs)|);
      }
      Growing(rest, segs[n]);
      assert rest + [segs[n]] == segs;
      NothingBeyond(rest, x);
    }
  }

  lemma NoPart(s: Segment, x: nat)
    ensures !s.load ==> !FilePart(s, x)
  {
  }

  lemma PartFits(s: Segment, x: nat, n: nat)
    requires s.filesz <= s.memsz && PagesOf(s.vaddr + s.memsz) <= n <= x / PGSIZE
    ensures !FilePart(s, x)
  {
  }

  lemma Growing(segs: seq<Segment>, s: Segment)
    ensures |LoadAll(segs)| <= |LoadAll(segs + [s])|
  {
    hide PagesOf;
    assert (segs + [s])[..|segs|] == segs;
  }

  lemma AcceptedLess(segs: seq<Segment>)
    requires segs != [] && Accepted(segs)
    ensures Accepted(segs[..|segs| - 1])
    ensures segs[|segs| - 1].load ==> segs[|segs| - 1].filesz <= segs[|segs| - 1].memsz
  {
    var rest := segs[..|segs| - 1];
    assert !Bad(segs[|segs| - 1], SizeAfter(rest));
    hide Bad, SizeAfter;
    forall i | 0 <= i < |rest| ensures !Bad(rest[i], SizeAfter(rest[..i])) {
      assert rest[..i] == segs[..i];
    }
  }

  /** Loaded memory holds at each address what the last segment put there, and 0 elsewhere. */
  lemma {:induction false} LoadedBytes(segs: seq<Segment>, x: nat)
    requires Accepted(segs) && x / PGSIZE < |LoadAll(segs)|
    ensures ByteAt(LoadAll(segs), x) == LoadedByte(segs, x)
  {
    hide LoadOne, FilePart, Bad, SizeAfter;
    if segs != [] {
      var rest, last := segs[..|segs| - 1], segs[|segs| - 1];
      AcceptedLess(segs);
      if x / PGSIZE < |LoadAll(rest)| { LoadedBytes(rest, x); } else { NothingBeyond(rest, x); }
      LoadOneByte(LoadAll(rest), last, x);
    }
  }

  /** The memory of a new program as it starts: the segments, with zeros between them, in n
      pages open to user code; a page it cannot use; and the stack page. */
  ghost predicate Program(now: seq<UserPage>, segs: seq<Segment>, n: nat) {
    && |now| == n + 2
    && (forall x: nat :: x / PGSIZE < n ==> Free(now[x / PGSIZE].perm) && ByteAt(now, x) == LoadedByte(segs, x))
    && (forall x: nat :: x / PGSIZE == n ==> !Reach(now, x))
    && Free(now[n + 1].perm)
  }

  lemma ProgramIs(segs: seq<Segment>, now: seq<UserPage>)
    requires Accepted(segs) && AllOpen(LoadAll(segs)) && BelowSame(WithStack(LoadAll(segs)), now)
    ensures Program(now, segs, |LoadAll(segs)|)
  {
    hide LoadedByte, LoadAll, Accepted;
    var img := LoadAll(segs);
    forall x: nat | x / PGSIZE < |img|
      ensures Free(now[x / PGSIZE].perm) && ByteAt(now, x) == LoadedByte(segs, x)
    {
      LoadedBytes(segs, x);
      assert now[x / PGSIZE] == img[x / PGSIZE];
    }
  }
}

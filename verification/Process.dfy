/** The memory of processes: fork's copy and its undoing, sbrk's growth and the
    memory limit (proc.c). */
module Process {
  import opened Basics
  import opened PageTable
  import opened Vm
  import opened FreeTables
  import opened UserImage
  import opened UserMemory

  /** max_mem as allocproc sets it: priority is always 60 there (proc.c:133-143). */
  const MAX_MEM: nat := 128 * 1024

  /** A process's memory, as far as proc.c knows it. */
  class Proc {
    var pt: nat
    var trapframe: nat
    var sz: nat
    var maxMem: nat

    constructor (pt0: nat, trapframe0: nat, sz0: nat)
      ensures pt == pt0 && trapframe == trapframe0 && sz == sz0 && maxMem == MAX_MEM
    {
      pt, trapframe, sz, maxMem := pt0, trapframe0, sz0, MAX_MEM;
    }

    /** The process sees img, and its size accounts for exactly those pages. */
    ghost predicate Sees(w: World, img: seq<UserPage>)
      reads this
    {
      User(w, pt, img) && |img| == PagesOf(sz) && trapframe in w.held
    }

    /** growproc (proc.c:269-299), in 32-bit unsigned arithmetic. */
    method Growproc(mem: Memory, n: int, ghost img: seq<UserPage>) returns (r: int)
      requires Sees(mem.W(), img) && sz < 0x8000_0000 && -0x8000_0000 <= n < 0x8000_0000
      modifies this`sz, mem`free, mem`tables, mem`bytes, mem`owner, mem`held
      ensures Ok(mem.W()) && Apart(old(mem.W()), mem.W(), pt) && mem.held == old(mem.held)
              && mem.roots == old(mem.roots)
      ensures r == 0 || r == -1
      ensures r == 0 && n > 0 ==> sz == old(sz) + n <= maxMem
      ensures r == 0 && n < 0 ==> sz == if old(sz) + n >= 0 then old(sz) + n else old(sz)
      ensures n == 0 || r == -1 ==> sz == old(sz)
      ensures sz == Resized(old(sz), n, maxMem, r == 0)
      ensures r == -1 ==> n > 0
      ensures old(sz) + n > maxMem && n > 0 ==> r == -1
      ensures r == -1 && old(sz) + n <= maxMem ==> |old(mem.free)| < 3 * (PagesOf(old(sz) + n) - |img|)
      ensures Sees(mem.W(), if sz >= old(sz) then Grown(img, PagesOf(sz)) else img[..PagesOf(sz)])
      ensures sz >= old(sz) ==> exists now :: Sees(mem.W(), now) && ZeroGrown(img, now, PagesOf(sz))
    {
      hide Ok, Apart, User, ZeroGrown;
      ghost var w := mem.W();
      UserOk(w, pt, img);
      StartStep(w, pt);
      assert Grown(img, |img|) == img;
      GrownZero(img, |img|);
      Wraps(sz, n);
      var s := sz % TWO32;
      if n > 0 {
        var newSz := (s + n) % TWO32;
        if newSz > maxMem { return -1; }
        s := mem.Uvmalloc(pt, s, newSz, img);
        if s == 0 { return -1; }
        GrownZero(img, PagesOf(s));
      } else if n < 0 {
        s := mem.Uvmdealloc(pt, s, (s + n) % TWO32, img);
        assert s == sz ==> img[..|img|] == img;
      }
      sz := s;
      r := 0;
    }
  }

  lemma Wraps(s: nat, n: int)
    requires s < 0x8000_0000 && -0x8000_0000 <= n < 0x8000_0000
    ensures s % TWO32 == s && (s + n) % TWO32 == if s + n < 0 then s + n + TWO32 else s + n
  {
  }

  /** The size after growproc(n): a growth that succeeds is within the limit, and a
      shrink by more than there is does nothing. */
  function Resized(sz: nat, n: int, maxMem: nat, ok: bool): (r: nat)
    ensures r <= sz || r <= maxMem
    ensures ok && 0 <= sz + n && (n <= 0 || sz + n <= maxMem) ==> r - sz == n
    ensures !ok || sz + n < 0 ==> r == sz
  {
    if ok && n > 0 && sz + n <= maxMem then sz + n
    else if ok && n < 0 && sz + n >= 0 then sz + n
    else sz
  }

  function Resizes(sz: nat, calls: seq<(int, bool)>, maxMem: nat): nat {
    if calls == [] then sz
        else Resized(Resizes(sz, calls[..|calls| - 1], maxMem), calls[|calls| - 1].0, maxMem, calls[|calls| - 1].1)
  }

  /** Over any sequence of calls the size stays within what it was at the last fork or
      exec, or within the limit. */
  lemma {:induction false} MemoryLimit(sz: nat, calls: seq<(int, bool)>, maxMem: nat)
    ensures Resizes(sz, calls, maxMem) <= if sz < maxMem then maxMem else sz
  {
    if calls != [] { MemoryLimit(sz, calls[..|calls| - 1], maxMem); }
  }

  /** The memory side of fork (proc.c:148-160, 309-321, with allocproc and freeproc): the
      child has a copy of its parent's memory in pages of its own, or every page is back
      where it was. */
  method ForkMemory(mem: Memory, p: Proc, trampoline: nat, ghost img: seq<UserPage>) returns (child: Proc?)
    requires p.Sees(mem.W(), img) && trampoline != 0
    modifies mem`free, mem`tables, mem`bytes, mem`roots, mem`owner, mem`held
    ensures p.Sees(mem.W(), img)
    ensures child == null ==> Restored(old(mem.W()), mem.W()) && |old(mem.free)| < 6 + 3 * |img|
    ensures child != null ==> fresh(child) && child.Sees(mem.W(), img) && child.pt != p.pt && child.sz == p.sz
    ensures child != null ==> mem.held == old(mem.held) + {child.trapframe} && child.trapframe !in old(mem.held)
    ensures child != null ==> Apart(old(mem.W()), mem.W(), child.pt) && child.pt !in old(mem.roots)
  {
    hide Ok, Apart, User, Space, Lookup, Restored, Released;
    ghost var w := mem.W();
    UserOk(w, p.pt, img);
    var tf := mem.Kalloc();
    if tf.None? {
      RestoredSelf(w);
      return null;
    }
    TakenKeeps(w, 0);
    ghost var v := mem.W();
    UserTaken(w, p.pt, img);
    var np := mem.ProcPagetable(trampoline, tf.value);
    if np.None? {
      RestoredOk(v, mem.W(), 0);
      ghost var u := mem.W();
      OkIsOkBut(u);
      mem.Kfree(tf.value, {});
      FreedTrapframe(w, v, u, tf.value, 0);
      RestoredOk(w, mem.W(), 0);
      UserRestored(w, mem.W(), p.pt, img);
      return null;
    }
    var pt := np.value;
    ghost var u := mem.W();
    UserApart(v, u, pt, p.pt, img);
    EmptySpace(u, pt);
    var ok := mem.Uvmcopy(p.pt, pt, p.sz, img);
    TakenKeeps(w, pt);
    ApartTrans(w, v, u, pt);
    ApartTrans(w, u, mem.W(), pt);
    if !ok {
      ghost var x := mem.W();
      UserOk(x, pt, []);
      OkIsOkBut(x);
      mem.Kfree(tf.value, {});
      UserReturned(x, pt, [], tf.value);
      ghost var y := mem.W();
      ApartTrans(w, x, y, pt);
      UserOk(y, pt, []);
      mem.ProcFreepagetable(pt, 0);
      GoneAgain(w, y, mem.W(), pt);
      RestoredOk(w, mem.W(), 0);
      UserRestored(w, mem.W(), p.pt, img);
      return null;
    }
    child := new Proc(pt, tf.value, p.sz);
  }

  lemma RestoredOk(w: World, v: World, pt: nat)
    requires Restored(w, v)
    ensures Ok(v) && Apart(w, v, pt) && v.held == w.held && v.mem.roots == w.mem.roots
  {
    hide Entry;
  }

  lemma UserRestored(w: World, v: World, pt: nat, img: seq<UserPage>)
    requires User(w, pt, img) && Restored(w, v)
    ensures User(v, pt, img)
  {
    SpaceKept(w.mem, v.mem, pt, |img|, true, true);
    hide Space;
    LookupKept(w.mem, v.mem, pt);
    ImageKept(w, v, pt, |img|, |img|, true, true);
  }

  lemma FreedTrapframe(w: World, v: World, u: World, tf: nat, pt: nat)
    requires Ok(w) && Apart(w, v, pt) && Apart(v, u, pt) && Ok(u) && tf in u.held && u.held == w.held + {tf}
             && tf !in w.held
    requires pt !in w.mem.roots && u.mem.roots == w.mem.roots
    ensures Restored(w, Returned(u, tf))
  {
    HeldPage(u, tf);
    ReturnedOk(u, tf, {});
    hide OkBut, Apart;
    ApartBytes(u, Returned(u, tf), pt);
    ApartTrans(w, v, u, pt);
    ApartTrans(w, u, Returned(u, tf), pt);
    CameAndWent(w, Returned(u, tf), pt);
  }

  lemma EmptySpace(w: World, pt: nat)
    requires Ok(w) && Space(w.mem, pt, 0, true, true)
    ensures User(w, pt, [])
  {
    SpaceRoot(w.mem, pt, 0);
    hide Ok, Space;
    assert Image(w, pt, 0) == [];
  }
}

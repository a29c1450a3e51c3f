/** Physical memory and the user page tables in it, updated in place: kalloc.c,
    vm.c and the address-space part of proc.c. Addresses of tables and pages are
    physical page numbers; virtual addresses and sizes are in bytes. */
module UserMemory {
  import opened Basics
  import opened PageTable
  import opened Vm
  import opened FreeTables
  import opened UserImage

  const RWXU := Perm(true, true, true, true)

  /** PGROUNDUP in pages. */
  function PagesOf(sz: nat): nat {
    (sz + PGSIZE - 1) / PGSIZE
  }

  /** The slot of the table that walk looks at on a level. */
  function NodeSlot(pt: nat, vpn: nat, level: nat): Slot
    requires level <= 2
  {
    if level == 2 then Root(pt) else if level == 1 then Mid(pt, vpn / 0x4_0000 % 512)
    else Low(pt, vpn / 0x4_0000 % 512, vpn / 0x200 % 512)
  }

  /** The PX macro (riscv.h:357). */
  function Px(level: nat, vpn: nat): (r: nat)
    requires level <= 2
    ensures r < NPTE
  {
    if level == 2 then vpn / 0x4_0000 % 512 else if level == 1 then vpn / 0x200 % 512 else vpn % 512
  }

  lemma NodeChild(pt: nat, vpn: nat, level: nat)
    requires 1 <= level <= 2
    ensures Child(NodeSlot(pt, vpn, level), Px(level, vpn)) == NodeSlot(pt, vpn, level - 1)
    ensures Parent(PageSlot(pt, vpn)) == NodeSlot(pt, vpn, 0) && PageSlot(pt, vpn).k == Px(0, vpn)
  {
  }

  class Memory {
    const pages: set<nat>
    /** kmem.freelist, the tables, and the contents of the other pages. */
    var free: seq<nat>
    var tables: map<nat, Table>
    var bytes: map<nat, Frame>
    ghost var roots: set<nat>
    ghost var owner: map<nat, Slot>
    ghost var held: set<nat>

    ghost function W(): World
      reads this
    {
      World(pages, free, Mem(tables, roots), bytes, owner, held)
    }

    /** kinit (kalloc.c:26-40): all pages in the range are free. */
    constructor (lo: nat, hi: nat)
      requires 0 < lo <= hi && hi - lo < TRAPFRAME
      ensures Ok(W()) && pages == Range(lo, hi) == ToSet(free) && roots == {} && held == {}
    {
      var f := Freerange(lo, hi);
      pages, free, tables, bytes, roots, owner, held := Range(lo, hi), f, map[], map[], {}, map[], {};
      AllFree(Range(lo, hi), f);
    }

    /** kalloc (kalloc.c:68-82). */
    method Kalloc() returns (r: Option<nat>)
      requires Ok(W())
      modifies this`free, this`bytes, this`held
      ensures r.None? <==> old(free) == []
      ensures r.None? ==> W() == old(W())
      ensures r.Some? ==> r.value == old(free[0]) && W() == Taken(old(W()))
      ensures Ok(W())
      ensures r.Some? ==>
                r.value != 0 && r.value in held && r.value !in owner && r.value !in old(held) && r.value in bytes
    {
      if free == [] {
        r := None;
      } else {
        TakenOk(W());
        r := Some(free[0]);
        bytes := bytes[free[0] := Filled(5)];
        held := held + {free[0]};
        free := free[1..];
      }
    }

    /** kfree (kalloc.c:46-63); the page must be out with its caller. */
    method Kfree(a: nat, ghost dead: set<Slot>)
      requires OkBut(W(), dead) && a in held
      modifies this`free, this`bytes, this`held
      ensures W() == Returned(old(W()), a) && OkBut(W(), dead)
    {
      ReturnedOk(W(), a, dead);
      free := [a] + free;
      bytes := bytes[a := Filled(1)];
      held := held - {a};
    }

    /** One level of walk (vm.c:86-95): 0 when there is no table and none could be added. */
    method Descend(p: nat, k: nat, alloc: bool, ghost s: Slot) returns (q: nat)
      requires Ok(W()) && (s.Root? || s.Mid?) && k < NPTE && p in tables && Holds(W().mem, s, p)
      modifies this`free, this`tables, this`bytes, this`owner, this`held
      ensures Ok(W()) && KeepsPages(old(W().mem), W().mem) && Apart(old(W()), W(), s.pt) && held == old(held)
      ensures KeepsContents(old(W()), W())
      ensures q != 0 ==> q in tables && Holds(W().mem, Child(s, k), q)
      ensures q == 0 ==> if alloc then free == [] == old(free) else Holds(W().mem, Child(s, k), 0)
      ensures !alloc ==> W() == old(W())
      ensures |free| + 1 >= |old(free)|
    {
      hide Ok, KeepsPages, AddrOf, Apart;
      ghost var w := W();
      StartStep(w, s.pt);
      ChildHere(w, s, k, p);
      if tables[p][k].v {
        q := tables[p][k].ppn;
      } else if !alloc {
        q := 0;
      } else {
        q := NewTable(p, k, s);
      }
    }

    /** A table that is missing is allocated and linked in (vm.c:91-94). */
    method NewTable(p: nat, k: nat, ghost s: Slot) returns (q: nat)
      requires Ok(W()) && (s.Root? || s.Mid?) && k < NPTE && p in tables && Holds(W().mem, s, p) && !tables[p][k].v
      modifies this`free, this`tables, this`bytes, this`owner, this`held
      ensures Ok(W()) && KeepsPages(old(W().mem), W().mem) && Apart(old(W()), W(), s.pt) && held == old(held)
      ensures KeepsContents(old(W()), W()) && |free| + 1 >= |old(free)|
      ensures q != 0 ==> q in tables && Holds(W().mem, Child(s, k), q)
      ensures q == 0 ==> free == [] == old(free)
    {
      hide Ok, KeepsPages, AddrOf, Apart, KeepsContents;
      ghost var w := W();
      StartStep(w, s.pt);
      ChildHere(w, s, k, p);
      var r := Kalloc();
      if r.None? { return 0; }
      q := r.value;
      ghost var v := W();
      TakenKeeps(w, s.pt);
      AttachedOk(v, s, p, k, q);
      AttachedKeeps(v, s, p, k, q);
      Attach(p, k, q, s);
      ApartTrans(w, v, W(), s.pt);
      ContentsTrans(w, v, W());
    }

    /** A new zeroed table (vm.c:93-94). */
    method Attach(p: nat, k: nat, q: nat, ghost s: Slot)
      requires p in tables && k < NPTE && !s.Page?
      modifies this`tables, this`owner, this`held
      ensures W() == Attached(old(W()), s, p, k, q)
    {
      tables := tables[p := tables[p][k := NodePte(q)]][q := ZeroTable()];
      owner := owner[q := Child(s, k)];
      held := held - {q};
    }

    /** walk (vm.c:80-98): the level-0 table for a page number, or 0. It may add inner
        nodes when alloc is set, but changes no page entry of any page table. */
    method Walk(pt: nat, vpn: nat, alloc: bool) returns (q: nat)
      requires Ok(W()) && pt in roots && vpn < MAXVPN
      modifies this`free, this`tables, this`bytes, this`owner, this`held
      ensures Ok(W()) && KeepsPages(old(W().mem), W().mem) && Apart(old(W()), W(), pt) && held == old(held)
      ensures KeepsContents(old(W()), W())
      ensures q != 0 ==> q in tables && Holds(W().mem, Parent(PageSlot(pt, vpn)), q)
      ensures q == 0 && alloc ==> free == [] && |old(free)| <= 1
      ensures q == 0 && !alloc ==> !Lookup(W().mem, pt, vpn).v
      ensures !alloc ==> W() == old(W())
      ensures |free| + 2 >= |old(free)|
    {
      hide Ok, KeepsPages, AddrOf, Apart, Entry, KeepsContents;
      ghost var w := W();
      StartStep(w, pt);
      RootTable(w, pt);
      q := pt;
      var level := 2;
      while level > 0
        invariant level <= 2 && Ok(W()) && KeepsPages(w.mem, W().mem) && Apart(w, W(), pt) && held == w.held
        invariant KeepsContents(w, W())
        invariant q != 0 && q in tables && Holds(W().mem, NodeSlot(pt, vpn, level), q)
        invariant (!alloc ==> W() == w) && |free| + 2 - level >= |w.free|
      {
        ghost var v := W();
        q := Descend(q, Px(level, vpn), alloc, NodeSlot(pt, vpn, level));
        NodeChild(pt, vpn, level);
        PagesTrans(w.mem, v.mem, W().mem);
        ApartTrans(w, v, W(), pt);
        ContentsTrans(w, v, W());
        level := level - 1;
        if q == 0 {
          if !alloc { NothingBelow(w, pt, vpn, level); }
          return 0;
        }
      }
      NodeChild(pt, vpn, 1);
    }

    /** One turn of the loop in mappages (vm.c:149-153). */
    method MapPage(pt: nat, vpn: nat, ppn: nat, perm: Perm) returns (ok: bool)
      requires Ok(W()) && pt in roots && vpn < MAXVPN && !Lookup(W().mem, pt, vpn).v
      requires ppn != 0 && (perm.r || perm.w || perm.x) && (vpn < TRAPFRAME ==> ppn in held && ppn in bytes)
      modifies this`free, this`tables, this`bytes, this`owner, this`held
      ensures Ok(W()) && Apart(old(W()), W(), pt) && KeepsContents(old(W()), W())
      ensures ok ==> Mapped(old(W().mem), W().mem, pt, vpn, 1, ppn, perm)
      ensures ok ==> held == old(held) - if vpn < TRAPFRAME then {ppn} else {}
      ensures !ok ==> KeepsPages(old(W().mem), W().mem) && held == old(held) && free == [] && |old(free)| <= 1
      ensures |free| + 2 >= |old(free)|
    {
      hide Ok, KeepsPages, AddrOf, Apart, Entry, Mapped, KeepsContents;
      ghost var w := W();
      var q := Walk(pt, vpn, true);
      ghost var v := W();
      if q == 0 { return false; }
      ok := true;
      MapReady(w, v, pt, vpn, q, ppn);
      MapStep(v, pt, vpn, q, ppn, perm);
      tables := tables[q := tables[q][vpn % 512 := LeafPte(ppn, perm)]];
      if vpn < TRAPFRAME {
        owner := owner[ppn := PageSlot(pt, vpn)];
        held := held - {ppn};
      }
      PageSlotVpn(pt, vpn);
      assert W() == Given(v, PageSlot(pt, vpn), q, LeafPte(ppn, perm));
      ApartTrans(w, v, W(), pt);
      ContentsTrans(w, v, W());
      MappedAfter(w.mem, v.mem, W().mem, pt, vpn, ppn, perm);
    }

    /** mappages (vm.c:137-160): maps the pages of a byte range in turn; on failure the
        first `done` of them stay mapped. */
    method Mappages(pt: nat, va: nat, size: nat, ppn: nat, perm: Perm) returns (ok: bool, ghost done: nat)
      requires Ok(W()) && pt in roots && size > 0 && (va + size - 1) / PGSIZE < MAXVPN
      requires forall i :: va / PGSIZE <= i <= (va + size - 1) / PGSIZE ==> !Lookup(W().mem, pt, i).v
      requires ppn != 0 && (perm.r || perm.w || perm.x)
      requires
        || va / PGSIZE >= TRAPFRAME
        || ((va + size - 1) / PGSIZE < TRAPFRAME && HeldRun(W(), ppn, (va + size - 1) / PGSIZE - va / PGSIZE + 1))
      modifies this`free, this`tables, this`bytes, this`owner, this`held
      ensures Ok(W()) && Apart(old(W()), W(), pt) && KeepsContents(old(W()), W())
      ensures ok <==> done == (va + size - 1) / PGSIZE - va / PGSIZE + 1
      ensures Mapped(old(W().mem), W().mem, pt, va / PGSIZE, done, ppn, perm)
      ensures held == old(held) - if va / PGSIZE >= TRAPFRAME then {} else Range(ppn, ppn + done)
      ensures !ok ==> free == [] && done <= (va + size - 1) / PGSIZE - va / PGSIZE
      ensures |free| + 2 * ((va + size - 1) / PGSIZE - va / PGSIZE + 1) >= |old(free)|
      ensures !ok ==> |old(free)| <= 2 * done + 1
    {
      hide Ok, KeepsPages, Apart, Entry, Mapped, KeepsContents, Lookup, HeldRun, Range, MapSoFar;
      ghost var w := W();
      var lo, last := va / PGSIZE, (va + size - 1) / PGSIZE;
      var a, pa := lo, ppn;
      done := 0;
      MapStart(w, pt, lo, ppn, perm);
      while true
        invariant lo <= a <= last && done == a - lo && pa == ppn + done && |free| + 2 * done >= |w.free|
        invariant MapSoFar(w, W(), pt, lo, done, ppn, perm)
        decreases last - a
      {
        ghost var v := W();
        MapNext(w, v, pt, lo, last, done, ppn, perm);
        ok := MapPage(pt, a, pa, perm);
        if !ok {
          MapFailed(w, v, W(), pt, lo, done, ppn, perm);
          return;
        }
        MapMore(w, v, W(), pt, lo, done, ppn, perm);
        done := done + 1;
        if a == last { break; }
        a := a + 1;
        pa := pa + 1;
      }
      MapEnd(w, W(), pt, lo, done, ppn, perm);
    }

    /** One turn of the loop in uvmunmap (vm.c:175-185). */
    method UnmapPage(pt: nat, vpn: nat, doFree: bool)
      requires Ok(W()) && pt in roots && vpn < MAXVPN && Lookup(W().mem, pt, vpn).v && (doFree ==> vpn < TRAPFRAME)
      modifies this`free, this`tables, this`bytes, this`owner, this`held
      ensures Ok(W()) && Apart(old(W()), W(), pt) && Shrinks(old(W()), W())
      ensures Unmapped(old(W().mem), W().mem, pt, vpn, 1)
      ensures old(held) <= held && (doFree || vpn >= TRAPFRAME ==> held == old(held))
    {
      hide Ok, Apart, Entry, Unmapped, KeepsPages, KeepsContents, Lookup, Shrinks;
      ghost var w := W();
      var q := Walk(pt, vpn, false);
      PageSlotVpn(pt, vpn);
      LeafHere(w, pt, vpn, q);
      var pa := tables[q][vpn % 512].ppn;
      UnmapStep(w, pt, vpn, q);
      tables := tables[q := tables[q][vpn % 512 := ZERO]];
      if vpn < TRAPFRAME {
        owner := owner - {pa};
        held := held + {pa};
      }
      ghost var v := W();
      assert v == Cleared(w, PageSlot(pt, vpn), q);
      if doFree {
        assert Ok(v) && pa in held;
        OkIsOkBut(v);
        Kfree(pa, {});
        OkIsOkBut(W());
        FreedShrinks(w, v, pa, pt);
      }
    }

    /** uvmunmap (vm.c:165-187): the mappings of npages pages go; with doFree so do
        the pages. None of its panics is reachable when the pages are mapped. */
    method Uvmunmap(pt: nat, va: nat, npages: nat, doFree: bool)
      requires Ok(W()) && pt in roots && va % PGSIZE == 0 && va / PGSIZE + npages <= MAXVPN
      requires forall i :: va / PGSIZE <= i < va / PGSIZE + npages ==> Lookup(W().mem, pt, i).v
      requires doFree ==> va / PGSIZE + npages <= TRAPFRAME
      modifies this`free, this`tables, this`bytes, this`owner, this`held
      ensures Ok(W()) && Apart(old(W()), W(), pt) && Shrinks(old(W()), W())
      ensures Unmapped(old(W().mem), W().mem, pt, va / PGSIZE, npages)
      ensures old(held) <= held && (doFree || va / PGSIZE >= TRAPFRAME ==> held == old(held))
    {
      hide Ok, Apart, Entry, Unmapped, KeepsPages, Lookup, Shrinks, UnmapSoFar;
      ghost var w := W();
      ghost var lo, k := va / PGSIZE, 0;
      var a := va / PGSIZE;
      UnmapStart(w, pt, lo);
      while a < va / PGSIZE + npages
        invariant k <= npages && a == lo + k && UnmapSoFar(w, W(), pt, lo, k)
        invariant w.held <= held && (doFree || lo >= TRAPFRAME ==> held == w.held)
      {
        ghost var v := W();
        UnmapNext(w, v, pt, lo, k, npages);
        UnmapPage(pt, a, doFree);
        UnmapMore(w, v, W(), pt, lo, k);
        a, k := a + 1, k + 1;
      }
      UnmapEnd(w, W(), pt, lo, k);
    }

    /** freewalk (vm.c:266-282): frees the table p in slot s and all tables below it.
        Its panic is unreachable when nothing is mapped there. */
    method Freewalk(p: nat, ghost s: Slot)
      requires Ok(W()) && !s.Page? && Holds(W().mem, s, p) && p in tables && NoLeaves(W().mem, s)
      modifies this`free, this`tables, this`bytes, this`owner, this`held
      ensures OkBut(W(), {s}) && Freed(old(W()), W(), s)
      decreases Level(s)
    {
      hide Ok, OkBut, Entry, AddrOf, Above, Under, Pruned, Freed, NoLeaves, Cut;
      ghost var w := W();
      PruneStart(w, s);
      var i := 0;
      while i < NPTE
        invariant i <= NPTE && Ok(W()) && Pruned(w, W(), s, i)
        invariant Holds(W().mem, s, p) && p in tables && NoLeaves(W().mem, s)
      {
        ghost var v := W();
        var pte := tables[p][i];
        ChildEntry(v, s, p, i);
        if pte.v && !IsLeaf(pte) {
          ChildLeaves(v.mem, s, i);
          Freewalk(pte.ppn, Child(s, i));
          ghost var u := W();
          ClearStep(v, u, s, p, i);
          tables := tables[p := tables[p][i := ZERO]];
          assert W() == u.(mem := SetEntry(u.mem, p, i, ZERO));
          PruneChild(w, v, u, W(), s, i);
        } else if pte.v {
          LeafHasNoPlace(v.mem, s, i);
          assert false;
        } else {
          PruneEmpty(w, v, s, i);
        }
        PruneKeeps(w, W(), s, i + 1, p);
        i := i + 1;
      }
      ghost var v := W();
      UnhookOk(w, v, s, p);
      tables, owner, held := tables - {p}, owner - {p}, held + {p};
      assert W() == Unhooked(v, p);
      Kfree(p, {s});
      FreedAll(w, v, s, p);
    }

    /** uvmcreate (vm.c:191-200). */
    method Uvmcreate() returns (r: Option<nat>)
      requires Ok(W())
      modifies this`free, this`tables, this`bytes, this`roots, this`owner, this`held
      ensures r.None? ==> W() == old(W()) && free == []
      ensures r.Some? ==> Ok(W()) && r.value !in old(roots) && roots == old(roots) + {r.value} && held == old(held)
      ensures r.Some? ==> Space(W().mem, r.value, 0, false, false) && Apart(old(W()), W(), r.value)
      ensures r.Some? ==> |free| + 1 == |old(free)|
    {
      hide Ok, Apart, Space;
      ghost var w := W();
      r := Kalloc();
      if r.None? { return; }
      ghost var v := W();
      TakenKeeps(w, r.value);
      CreatedOk(v, r.value);
      tables := tables[r.value := ZeroTable()];
      roots := roots + {r.value};
      owner := owner[r.value := Root(r.value)];
      held := held - {r.value};
      assert W() == Created(v, r.value);
      ApartTrans(w, v, W(), r.value);
    }

    /** uvmfree (vm.c:286-292). */
    method Uvmfree(pt: nat, sz: nat)
      requires Ok(W()) && Space(W().mem, pt, PagesOf(sz), false, false)
      modifies this`free, this`tables, this`bytes, this`roots, this`owner, this`held
      ensures Released(old(W()), W(), pt)
    {
      hide Ok, OkBut, Apart, Space, Entry, Freed, NoLeaves, Lookup, Shrinks, Unmapped, Released;
      ghost var w := W();
      SpaceIn(w, pt, PagesOf(sz), false, false);
      StartStep(w, pt);
      if sz > 0 {
        SpaceFull(w.mem, pt, PagesOf(sz), false, false);
        Uvmunmap(pt, 0, PagesOf(sz), true);
        SpaceUnmapped(w.mem, W().mem, pt, 0, PagesOf(sz), false, false);
      }
      ghost var v := W();
      SpaceIn(v, pt, 0, false, false);
      RootTable(v, pt);
      NoLeavesIn(v.mem, pt);
      Freewalk(pt, Root(pt));
      ReleaseRoot(v, W(), pt);
      roots := roots - {pt};
      ReleaseAfter(w, v, W(), pt);
    }

    /** proc_pagetable (proc.c:194-219): the trampoline and the process's trapframe at
        the top of an empty space; on failure every page is back where it was. */
    method ProcPagetable(trampoline: nat, trapframe: nat) returns (r: Option<nat>)
      requires Ok(W()) && trampoline != 0 && trapframe != 0
      modifies this`free, this`tables, this`bytes, this`roots, this`owner, this`held
      ensures r.None? ==> Restored(old(W()), W()) && |old(free)| < 5
      ensures r.Some? ==> Ok(W()) && r.value !in old(roots) && roots == old(roots) + {r.value} && held == old(held)
      ensures r.Some? ==> |free| + 5 >= |old(free)|
      ensures r.Some? ==> Space(W().mem, r.value, 0, true, true) && Apart(old(W()), W(), r.value)
      ensures r.Some? ==> Lookup(W().mem, r.value, TRAMPOLINE) == LeafPte(trampoline, Perm(true, false, true, false))
      ensures r.Some? ==> Lookup(W().mem, r.value, TRAPFRAME) == LeafPte(trapframe, Perm(true, true, false, false))
    {
      hide Ok, Apart, Space, Entry, KeepsContents, Lookup, Shrinks, Unmapped, Mapped, Released, Restored, HeldRun;
      ghost var w := W();
      r := Uvmcreate();
      if r.None? {
        RestoredSelf(w);
        return;
      }
      var pt := r.value;
      ghost var v := W();
      TopEmpty(v.mem, pt, 0, false);
      var ok, done := Mappages(pt, TRAMPOLINE * PGSIZE, PGSIZE, trampoline, Perm(true, false, true, false));
      ghost var u := W();
      ApartTrans(w, v, u, pt);
      if !ok {
        SpaceTop(v.mem, u.mem, pt, TRAMPOLINE, 0, trampoline, Perm(true, false, true, false));
        Uvmfree(pt, 0);
        GoneAgain(w, u, W(), pt);
        return None;
      }
      SpaceTop(v.mem, u.mem, pt, TRAMPOLINE, 1, trampoline, Perm(true, false, true, false));
      TopEmpty(u.mem, pt, 0, true);
      ok, done := Mappages(pt, TRAPFRAME * PGSIZE, PGSIZE, trapframe, Perm(true, true, false, false));
      ApartTrans(w, u, W(), pt);
      if !ok {
        ghost var x := W();
        SpaceTop(u.mem, x.mem, pt, TRAPFRAME, 0, trapframe, Perm(true, true, false, false));
        SpaceAt(x.mem, pt, 0, true, false, TRAMPOLINE);
        Uvmunmap(pt, TRAMPOLINE * PGSIZE, 1, false);
        SpaceTopGone(x.mem, W().mem, pt, 0, TRAMPOLINE, true, false);
        ApartTrans(w, x, W(), pt);
        ghost var y := W();
        Uvmfree(pt, 0);
        GoneAgain(w, y, W(), pt);
        return None;
      }
      SpaceTop(u.mem, W().mem, pt, TRAPFRAME, 1, trapframe, Perm(true, true, false, false));
      LookupMapped(v.mem, u.mem, pt, TRAMPOLINE, 1, trampoline, Perm(true, false, true, false), TRAMPOLINE);
      LookupMapped(u.mem, W().mem, pt, TRAPFRAME, 1, trapframe, Perm(true, true, false, false), TRAMPOLINE);
      LookupMapped(u.mem, W().mem, pt, TRAPFRAME, 1, trapframe, Perm(true, true, false, false), TRAPFRAME);
    }

    /** proc_freepagetable (proc.c:222-228): all memory of a process goes back. */
    method ProcFreepagetable(pt: nat, sz: nat)
      requires Ok(W()) && Space(W().mem, pt, PagesOf(sz), true, true)
      modifies this`free, this`tables, this`bytes, this`roots, this`owner, this`held
      ensures Released(old(W()), W(), pt)
    {
      hide Ok, Apart, Space, Entry, Lookup, Shrinks, Unmapped, Released;
      ghost var w := W();
      SpaceIn(w, pt, PagesOf(sz), true, true);
      SpaceAt(w.mem, pt, PagesOf(sz), true, true, TRAMPOLINE);
      Uvmunmap(pt, TRAMPOLINE * PGSIZE, 1, false);
      ghost var v := W();
      SpaceTopGone(w.mem, v.mem, pt, PagesOf(sz), TRAMPOLINE, true, true);
      SpaceAt(v.mem, pt, PagesOf(sz), false, true, TRAPFRAME);
      Uvmunmap(pt, TRAPFRAME * PGSIZE, 1, false);
      ghost var u := W();
      SpaceTopGone(v.mem, u.mem, pt, PagesOf(sz), TRAPFRAME, false, true);
      ApartTrans(w, v, u, pt);
      Uvmfree(pt, sz);
      ReleaseAfter(w, u, W(), pt);
    }

    /** The turn that the loops of uvmalloc (vm.c:231-241) and uvmcopy (vm.c:315-321)
        share: a new page with contents f becomes the next page of the space. The
        page below the trapframe is never reached, so mappages cannot panic. */
    method AddPage(pt: nat, vpn: nat, f: Frame, perm: Perm, ghost img: seq<UserPage>) returns (ok: bool)
      requires User(W(), pt, img) && vpn == |img| && (perm.r || perm.w || perm.x)
      modifies this`free, this`tables, this`bytes, this`owner, this`held
      ensures Ok(W()) && Apart(old(W()), W(), pt) && held == old(held) && roots == old(roots)
      ensures User(W(), pt, if ok then img + [UserPage(f, perm)] else img)
      ensures |free| + 3 >= |old(free)| && (!ok ==> |old(free)| < 3)
    {
      hide Ok, Apart, User;
      ghost var w := W();
      UserOk(w, pt, img);
      StartStep(w, pt);
      var mem := NewPage(pt, f, img);
      if mem.None? { return false; }
      ghost var u := W();
      ok := AppendPage(pt, vpn, mem.value, perm, img);
      ApartTrans(w, u, W(), pt);
    }

    /** A page with contents f, out with its caller (vm.c:232-236, 315-317). */
    method NewPage(pt: nat, f: Frame, ghost img: seq<UserPage>) returns (r: Option<nat>)
      requires User(W(), pt, img)
      modifies this`free, this`bytes, this`held
      ensures r.None? <==> old(free) == []
      ensures r.None? ==> W() == old(W())
      ensures r.Some? ==> User(W(), pt, img) && Ok(W()) && Apart(old(W()), W(), pt)
      ensures r.Some? ==> r.value != 0 && r.value !in old(held) && held == old(held) + {r.value}
      ensures r.Some? ==> r.value in bytes && bytes[r.value] == f && |free| + 1 == |old(free)|
    {
      hide Ok, Apart, User;
      ghost var w := W();
      UserOk(w, pt, img);
      r := Kalloc();
      if r.None? { return; }
      UserTaken(w, pt, img);
      ghost var v := W();
      UserFill(v, pt, img, r.value, f);
      bytes := bytes[r.value := f];
      assert W() == Fill(v, r.value, f);
      ApartTrans(w, v, W(), pt);
    }

    /** The page becomes the next one of the space, or is freed (vm.c:237-241, 318-321). */
    method AppendPage(pt: nat, vpn: nat, a: nat, perm: Perm, ghost img: seq<UserPage>) returns (ok: bool)
      requires User(W(), pt, img) && vpn == |img| && (perm.r || perm.w || perm.x) && a != 0 && a in held && a in bytes
      modifies this`free, this`tables, this`bytes, this`owner, this`held
      ensures Ok(W()) && Apart(old(W()), W(), pt) && held == old(held) - {a} && roots == old(roots)
      ensures User(W(), pt, if ok then img + [UserPage(old(bytes[a]), perm)] else img)
      ensures |free| + 2 >= |old(free)| && (!ok ==> |old(free)| <= 1)
    {
      hide Ok, Apart, Entry, KeepsContents, KeepsPages, Lookup, Mapped, User, HeldRun;
      ghost var u := W();
      UserOk(u, pt, img);
      NextFree(u, pt, img, a);
      ghost var done;
      ok, done := Mappages(pt, vpn * PGSIZE, PGSIZE, a, perm);
      if ok {
        UserMapped(u, W(), pt, img, a, perm);
      } else {
        ghost var x := W();
        MappedNothing(u.mem, x.mem, pt, |img|, a, perm);
        UserKept(u, x, pt, img);
        OkIsOkBut(x);
        Kfree(a, {});
        UserReturned(x, pt, img, a);
        ApartTrans(u, x, W(), pt);
        OkIsOkBut(W());
      }
    }

    /** uvmdealloc (vm.c:250-262): keeps the pages that newsz needs, and frees the rest. */
    method Uvmdealloc(pt: nat, oldsz: nat, newsz: nat, ghost img: seq<UserPage>) returns (r: nat)
      requires User(W(), pt, img) && |img| == PagesOf(oldsz)
      modifies this`free, this`tables, this`bytes, this`owner, this`held
      ensures Ok(W()) && Apart(old(W()), W(), pt) && held == old(held) && roots == old(roots)
      ensures r == if newsz >= oldsz then oldsz else newsz
      ensures User(W(), pt, img[..PagesOf(r)])
    {
      hide Ok, Apart, Entry, Lookup, Unmapped, User, Shrinks;
      ghost var w := W();
      UserOk(w, pt, img);
      StartStep(w, pt);
      if newsz >= oldsz {
        assert img[..PagesOf(oldsz)] == img;
        return oldsz;
      }
      if PagesOf(newsz) < PagesOf(oldsz) {
        UserFull(w, pt, img);
        Uvmunmap(pt, PagesOf(newsz) * PGSIZE, PagesOf(oldsz) - PagesOf(newsz), true);
        UserUnmapped(w, W(), pt, img, PagesOf(newsz));
      } else {
        assert img[..PagesOf(newsz)] == img;
      }
      r := newsz;
    }

    /** uvmalloc (vm.c:220-244): success adds zeroed pages; failure undoes what was
        added, and every size that succeeds fits below the trapframe. */
    method Uvmalloc(pt: nat, oldsz: nat, newsz: nat, ghost img: seq<UserPage>) returns (r: nat)
      requires User(W(), pt, img) && |img| == PagesOf(oldsz)
      modifies this`free, this`tables, this`bytes, this`owner, this`held
      ensures Ok(W()) && Apart(old(W()), W(), pt) && held == old(held) && roots == old(roots)
      ensures newsz < oldsz ==> r == oldsz && User(W(), pt, img)
      ensures newsz >= oldsz ==>
                (r == newsz && User(W(), pt, Grown(img, PagesOf(newsz)))) || (r == 0 && User(W(), pt, img))
      ensures newsz >= oldsz && r == newsz ==> exists now :: User(W(), pt, now) && ZeroGrown(img, now, PagesOf(newsz))
      ensures r == newsz > oldsz ==> |free| + 3 * (PagesOf(newsz) - |img|) >= |old(free)|
      ensures newsz >= oldsz && r != newsz ==> |old(free)| < 3 * (PagesOf(newsz) - |img|)
      ensures newsz <= oldsz ==> free == old(free)
    {
      hide Ok, Apart, Entry, User, PagesOf, ZeroGrown;
      ghost var w := W();
      UserOk(w, pt, img);
      StartStep(w, pt);
      if newsz < oldsz { return oldsz; }
      Rounding(oldsz, newsz);
      var a := PagesOf(oldsz);
      assert Grown(img, a) == img;
      while a * PGSIZE < newsz
        invariant |img| <= a <= PagesOf(newsz) && |free| + 3 * (a - |img|) >= |w.free|
        invariant PagesOf(newsz) == |img| ==> free == w.free
        invariant Ok(W()) && Apart(w, W(), pt) && held == w.held && roots == w.mem.roots
        invariant User(W(), pt, Grown(img, a))
      {
        ghost var v := W();
        Rounding(a * PGSIZE, newsz);
        var ok := AddPage(pt, a, Filled(0), RWXU, Grown(img, a));
        ApartTrans(w, v, W(), pt);
        if !ok {
          ghost var u := W();
          Rounding(PagesOf(oldsz) * PGSIZE, a * PGSIZE);
          var _ := Uvmdealloc(pt, a * PGSIZE, PagesOf(oldsz) * PGSIZE, Grown(img, a));
          ApartTrans(w, u, W(), pt);
          assert Grown(img, a)[..|img|] == img;
          return 0;
        }
        assert Grown(img, a) + [UserPage(Filled(0), RWXU)] == Grown(img, a + 1);
        a := a + 1;
      }
      Rounding(a * PGSIZE, newsz);
      r := newsz;
      GrownZero(img, a);
    }

    /** uvmcopy (vm.c:300-328): the child gets a page of its own, with the same contents
        and permissions, for every page of the parent, or nothing at all. */
    method Uvmcopy(parent: nat, child: nat, sz: nat, ghost img: seq<UserPage>) returns (ok: bool)
      requires User(W(), parent, img) && User(W(), child, []) && parent != child && |img| == PagesOf(sz)
      modifies this`free, this`tables, this`bytes, this`owner, this`held
      ensures Ok(W()) && Apart(old(W()), W(), child) && held == old(held) && roots == old(roots)
      ensures User(W(), parent, img) && User(W(), child, if ok then img else [])
      ensures !ok ==> |old(free)| < 3 * |img|
    {
      hide Ok, Apart, Entry, User, PagesOf, Lookup, Unmapped, Shrinks, Holds;
      ghost var w := W();
      UserOk(w, parent, img);
      StartStep(w, child);
      var i := 0;
      assert img[..0] == [];
      Rounding(0, sz);
      while i * PGSIZE < sz
        invariant i <= |img| && Ok(W()) && Apart(w, W(), child) && held == w.held && roots == w.mem.roots
        invariant |free| + 3 * i >= |w.free|
        invariant User(W(), parent, img) && User(W(), child, img[..i])
      {
        ghost var v := W();
        Rounding(i * PGSIZE, sz);
        UserFull(v, parent, img);
        var q := Walk(parent, i, false);
        LeafHere(v, parent, i, q);
        var pte := tables[q][i % 512];
        PageHere(v, parent, img, i);
        var ok1 := AddPage(child, i, bytes[pte.ppn], Perm(pte.r, pte.w, pte.x, pte.u), img[..i]);
        ApartTrans(w, v, W(), child);
        UserApart(v, W(), child, parent, img);
        if !ok1 {
          ghost var u := W();
          UserFull(u, child, img[..i]);
          Uvmunmap(child, 0, i, true);
          ApartTrans(w, u, W(), child);
          UserUnmapped(u, W(), child, img[..i], 0);
          UserApart(u, W(), child, parent, img);
          assert img[..i][..0] == [];
          return false;
        }
        assert img[..i] + [img[i]] == img[..i + 1];
        i := i + 1;
      }
      Rounding(i * PGSIZE, sz);
      assert img[..i] == img;
      ok := true;
    }

    /** uvmclear (vm.c:332-341): user code loses access to one page. */
    method Uvmclear(pt: nat, va: nat, ghost img: seq<UserPage>)
      requires User(W(), pt, img) && va / PGSIZE < |img|
      modifies this`free, this`tables, this`bytes, this`owner, this`held
      ensures Ok(W()) && Apart(old(W()), W(), pt) && held == old(held) && roots == old(roots) && free == old(free)
      ensures User(W(), pt, img[va / PGSIZE := img[va / PGSIZE].(perm := img[va / PGSIZE].perm.(u := false))])
    {
      hide Ok, Apart, Entry, User, Lookup, Holds;
      ghost var w := W();
      var vpn := va / PGSIZE;
      UserOk(w, pt, img);
      UserFull(w, pt, img);
      var q := Walk(pt, vpn, false);
      LeafHere(w, pt, vpn, q);
      var e := tables[q][vpn % 512].(u := false);
      ClearU(w, pt, img, vpn, q);
      tables := tables[q := tables[q][vpn % 512 := e]];
      assert W() == Written(w, PageSlot(pt, vpn), q, e);
    }

    /** walkaddr (vm.c:103-121): the physical page of a user address, or 0. */
    method Walkaddr(pt: nat, va: nat, ghost img: seq<UserPage>) returns (pa: nat)
      requires User(W(), pt, img)
      modifies this`free, this`tables, this`bytes, this`owner, this`held
      ensures W() == old(W()) && (pa != 0 <==> Reach(img, va))
      ensures pa != 0 ==> Backs(W(), pt, va / PGSIZE, pa) && pa in bytes && bytes[pa] == img[va / PGSIZE].data
    {
      hide Ok, Apart, Entry, User, Lookup, Holds;
      ghost var w := W();
      UserOk(w, pt, img);
      if va / PGSIZE >= MAXVPN { return 0; }
      var vpn := va / PGSIZE;
      SpaceAt(w.mem, pt, |img|, true, true, vpn);
      var q := Walk(pt, vpn, false);
      if q == 0 { return 0; }
      EntryHere(w, pt, vpn, q);
      if !tables[q][vpn % 512].v { return 0; }
      if !tables[q][vpn % 512].u { UserReach(w, pt, img, vpn); return 0; }
      UserReach(w, pt, img, vpn);
      pa := tables[q][vpn % 512].ppn;
    }

    /** copyout (vm.c:346-366): stores the bytes one page part at a time; it stops
        before the first address that user code cannot reach. */
    method Copyout(pt: nat, dstva: nat, src: seq<Byte>, ghost img: seq<UserPage>)
      returns (ok: bool, ghost k: nat, ghost now: seq<UserPage>)
      requires User(W(), pt, img)
      modifies this`free, this`tables, this`bytes, this`owner, this`held
      ensures Ok(W()) && Apart(old(W()), W(), pt) && held == old(held) && roots == old(roots) && free == old(free)
      ensures User(W(), pt, now) && k <= |src| && Stored(img, now, dstva, src, k)
      ensures ok <==> k == |src|
      ensures !ok ==> !Reach(img, dstva + k)
    {
      hide Ok, Apart, Entry, User, Stored, Reach, Backs;
      ghost var w := W();
      UserOk(w, pt, img);
      StartStep(w, pt);
      now, k := img, 0;
      StoredNone(img, dstva, src);
      var va, at := dstva, 0;
      while at < |src|
        invariant at == k <= |src| && va == dstva + k && Ok(W()) && User(W(), pt, now)
                  && Stored(img, now, dstva, src, k)
        invariant Apart(w, W(), pt) && held == w.held && roots == w.mem.roots && free == w.free
      {
        ghost var v := W();
        var pa := Walkaddr(pt, va, now);
        ReachStored(img, now, dstva, src, k, va);
        if pa == 0 { return false, k, now; }
        var off := va % PGSIZE;
        var n := if PGSIZE - off > |src| - at then |src| - at else PGSIZE - off;
        var f: Frame := Patch(bytes[pa], off, src[at..at + n]);
        ReachPage(now, va);
        UserWrite(v, pt, now, va / PGSIZE, pa, f);
        bytes := bytes[pa := f];
        assert W() == Fill(v, pa, f);
        ApartTrans(w, v, W(), pt);
        StoredMore(img, now, dstva, src, k, n);
        now := Put(now, va / PGSIZE, f);
        at, k, va := at + n, k + n, va + n;
      }
      ok := true;
    }

    /** copyin (vm.c:371-391). */
    method Copyin(pt: nat, srcva: nat, len: nat, ghost img: seq<UserPage>) returns (ok: bool, dst: seq<Byte>)
      requires User(W(), pt, img)
      modifies this`free, this`tables, this`bytes, this`owner, this`held
      ensures W() == old(W()) && |dst| <= len && (ok <==> |dst| == len)
      ensures Fetched(img, srcva, dst) && (!ok ==> !Reach(img, srcva + |dst|))
    {
      hide Ok, Entry, User, Reach, Backs, Fetched;
      ghost var w := W();
      dst := [];
      FetchedNone(img, srcva);
      while |dst| < len
        invariant |dst| <= len && W() == w && Fetched(img, srcva, dst)
      {
        var va := srcva + |dst|;
        var pa := Walkaddr(pt, va, img);
        if pa == 0 { return false, dst; }
        var off := va % PGSIZE;
        var n := if PGSIZE - off > len - |dst| then len - |dst| else PGSIZE - off;
        ReachPage(img, va);
        FetchedMore(img, srcva, dst, n);
        dst := dst + bytes[pa][off..off + n];
      }
      ok := true;
    }
  }

  /** User memory grown to n pages: the new ones are zero. */
  function Grown(img: seq<UserPage>, n: nat): (r: seq<UserPage>)
    requires |img| <= n
    ensures |r| == n
  {
    img + seq(n - |img|, _ => UserPage(Filled(0), RWXU))
  }

  /** Memory img has been extended to n pages, and every address beyond it can be read,
      written and executed by user code, and reads as 0. */
  ghost predicate ZeroGrown(img: seq<UserPage>, now: seq<UserPage>, n: nat) {
    && img <= now && |now| == n
    && forall x: nat :: |img| * PGSIZE <= x < n * PGSIZE ==>
         Reach(now, x) && ByteAt(now, x) == 0 && Free(now[x / PGSIZE].perm)
  }

  predicate Free(p: Perm) {
    p.r && p.w && p.x && p.u
  }

  lemma GrownZero(img: seq<UserPage>, n: nat)
    requires |img| <= n
    ensures ZeroGrown(img, Grown(img, n), n)
  {
    forall x: nat | |img| * PGSIZE <= x < n * PGSIZE
      ensures var now := Grown(img, n); Reach(now, x) && ByteAt(now, x) == 0 && Free(now[x / PGSIZE].perm)
    {
      assert |img| <= x / PGSIZE < n;
    }
  }

  lemma Rounding(a: nat, b: nat)
    ensures a <= b ==> PagesOf(a) <= PagesOf(b)
    ensures a % PGSIZE == 0 ==>
              PagesOf(a) * PGSIZE == a && PagesOf(a) == a / PGSIZE && (a < b <==> PagesOf(a) < PagesOf(b))
    ensures PagesOf(PagesOf(a) * PGSIZE) == PagesOf(a)
  {
  }

  lemma UserOk(w: World, pt: nat, img: seq<UserPage>)
    requires User(w, pt, img)
    ensures Ok(w) && pt in w.mem.roots && |img| < TRAPFRAME && Space(w.mem, pt, |img|, true, true)
  {
    SpaceFits(w, pt, |img|, true, true);
  }

  /** A page of the image, as its entry and its physical page. */
  lemma PageHere(w: World, pt: nat, img: seq<UserPage>, i: nat)
    requires User(w, pt, img) && i < |img|
    ensures pt in w.mem.roots
    ensures var e := Lookup(w.mem, pt, i);
            && e.v && e.ppn in w.bytes && img[i] == UserPage(w.bytes[e.ppn], Perm(e.r, e.w, e.x, e.u))
            && e.ppn in w.owner && w.owner[e.ppn] == PageSlot(pt, i) && IsLeaf(e)
  {
    UserPageOwner(w, pt, |img|, true, true, i);
    hide Entry, Space, Ok;
    assert Image(w, pt, |img|)[i] == PageOf(w, pt, i);
  }

  lemma EntryHere(w: World, pt: nat, vpn: nat, q: nat)
    requires Ok(w) && pt in w.mem.roots && vpn < MAXVPN
    requires q in w.mem.tables && Holds(w.mem, Parent(PageSlot(pt, vpn)), q)
    ensures w.mem.tables[q][vpn % 512] == Lookup(w.mem, pt, vpn)
  {
    hide AddrOf, Entry, Ok;
    WrittenSame(w, PageSlot(pt, vpn), q, ZERO);
  }

  lemma UserFull(w: World, pt: nat, img: seq<UserPage>)
    requires User(w, pt, img)
    ensures pt in w.mem.roots && forall i :: 0 <= i < |img| ==> Lookup(w.mem, pt, i).v
  {
    SpaceFull(w.mem, pt, |img|, true, true);
  }

  /** With a page out, the next page of the space is unmapped and below the trapframe. */
  lemma NextFree(w: World, pt: nat, img: seq<UserPage>, a: nat)
    requires User(w, pt, img) && a in w.held && a in w.bytes
    ensures pt in w.mem.roots && |img| + 1 < TRAPFRAME && !Lookup(w.mem, pt, |img|).v && HeldRun(w, a, 1)
  {
    SpaceFits(w, pt, |img|, true, true);
    SpaceAt(w.mem, pt, |img|, true, true, |img|);
  }

  lemma MappedNothing(m: Mem, n: Mem, pt: nat, lo: nat, ppn: nat, perm: Perm)
    requires Mapped(m, n, pt, lo, 0, ppn, perm)
    ensures KeepsPages(m, n)
  {
    hide Entry, Vpn;
  }

  lemma SpaceIn(w: World, pt: nat, n: nat, tr: bool, tf: bool)
    requires Space(w.mem, pt, n, tr, tf)
    ensures pt in w.mem.roots && n <= TRAPFRAME
  {
  }

  lemma ReleaseAfter(w: World, v: World, u: World, pt: nat)
    requires Apart(w, v, pt) && v.held == w.held && v.mem.roots == w.mem.roots && Released(v, u, pt)
    ensures Released(w, u, pt)
  {
    hide Ok, Apart;
    ApartTrans(w, v, u, pt);
  }

  lemma RestoredSelf(w: World)
    requires Ok(w)
    ensures Restored(w, w)
  {
  }

  /** The two pages at the top are unmapped as long as the space does not have them. */
  lemma TopEmpty(m: Mem, pt: nat, n: nat, tr: bool)
    requires Space(m, pt, n, tr, false)
    ensures pt in m.roots && !Lookup(m, pt, TRAPFRAME).v && (!tr ==> !Lookup(m, pt, TRAMPOLINE).v)
  {
    SpaceAt(m, pt, n, tr, false, TRAPFRAME);
    SpaceAt(m, pt, n, tr, false, TRAMPOLINE);
  }

  /** Mapping k (0 or 1) of the two pages at the top. */
  lemma SpaceTop(m: Mem, n: Mem, pt: nat, vpn: nat, k: nat, ppn: nat, perm: Perm)
    requires (vpn == TRAMPOLINE && Space(m, pt, 0, false, false)) || (vpn == TRAPFRAME && Space(m, pt, 0, true, false))
    requires Mapped(m, n, pt, vpn, k, ppn, perm) && k <= 1 && !perm.u
    ensures Space(n, pt, 0, vpn == TRAPFRAME || k == 1, vpn == TRAPFRAME && k == 1)
  {
    hide Entry, Vpn;
  }

  lemma SpaceTopGone(m: Mem, n: Mem, pt: nat, k: nat, vpn: nat, tr: bool, tf: bool)
    requires Space(m, pt, k, tr, tf) && (vpn == TRAMPOLINE || vpn == TRAPFRAME) && Unmapped(m, n, pt, vpn, 1)
    ensures Space(n, pt, k, tr && vpn != TRAMPOLINE, tf && vpn != TRAPFRAME)
  {
    hide Entry, Vpn;
  }

  lemma GoneAgain(w: World, v: World, u: World, pt: nat)
    requires Ok(w) && Apart(w, v, pt) && v.held == w.held && pt !in w.mem.roots && Released(v, u, pt)
    ensures Restored(w, u)
  {
    hide Ok, Apart;
    ApartTrans(w, v, u, pt);
    CameAndWent(w, u, pt);
  }

  lemma SpaceFull(m: Mem, pt: nat, n: nat, tr: bool, tf: bool)
    requires Space(m, pt, n, tr, tf)
    ensures forall i :: 0 <= i < n ==> Lookup(m, pt, i).v
  {
    hide Entry, Lookup;
    forall i | 0 <= i < n ensures Lookup(m, pt, i).v { SpaceAt(m, pt, n, tr, tf, i); }
  }

  lemma LeafHasNoPlace(m: Mem, s: Slot, i: nat)
    requires NoLeaves(m, s) && !s.Page? && ValidSlot(m, Child(s, i)) && Child(s, i).Page?
    ensures !Entry(m, Child(s, i)).v
  {
    AboveChild(s, i, Child(s, i));
    hide Entry;
  }


  lemma LeafHere(w: World, pt: nat, vpn: nat, q: nat)
    requires Ok(w) && pt in w.mem.roots && vpn < MAXVPN && Lookup(w.mem, pt, vpn).v
    requires q == 0 ==> !Lookup(w.mem, pt, vpn).v
    requires q != 0 ==> q in w.mem.tables && Holds(w.mem, Parent(PageSlot(pt, vpn)), q)
    ensures q != 0 && w.mem.tables[q][vpn % 512] == Lookup(w.mem, pt, vpn) && IsLeaf(w.mem.tables[q][vpn % 512])
    ensures w.mem.tables[q][vpn % 512].ppn != 0
  {
    hide AddrOf, Entry, Owned, Conserved, FramesOk;
    WrittenSame(w, PageSlot(pt, vpn), q, ZERO);
  }

  lemma UnmapStep(w: World, pt: nat, vpn: nat, q: nat)
    requires Ok(w) && pt in w.mem.roots && vpn < MAXVPN && q in w.mem.tables && w.mem.tables[q][vpn % 512].v
    requires Holds(w.mem, Parent(PageSlot(pt, vpn)), q)
    ensures var v := Cleared(w, PageSlot(pt, vpn), q);
            Ok(v) && Apart(w, v, pt) && Shrinks(w, v) && Unmapped(w.mem, v.mem, pt, vpn, 1)
    ensures vpn < TRAPFRAME ==> w.mem.tables[q][vpn % 512].ppn in w.owner && w.mem.tables[q][vpn % 512].ppn !in w.held
    ensures vpn < TRAPFRAME ==> w.owner[w.mem.tables[q][vpn % 512].ppn] == PageSlot(pt, vpn)
  {
    hide OkBut, Entry, AddrOf, Apart, Unmapped;
    PageSlotVpn(pt, vpn);
    ClearedOk(w, PageSlot(pt, vpn), q);
    ClearedUnmaps(w, pt, vpn, q);
    if vpn < TRAPFRAME { NotHeld(w, w.mem.tables[q][vpn % 512].ppn); }
  }

  lemma NotHeld(w: World, a: nat)
    requires Ok(w) && a in w.owner
    ensures a !in w.held
  {
    hide Owned, KindsOk, FramesOk, ToSet, Distinct;
  }

  lemma FreedShrinks(w: World, v: World, a: nat, pt: nat)
    requires Ok(v) && Shrinks(w, v) && Apart(w, v, pt) && a in v.held
    ensures Shrinks(w, Returned(v, a)) && Apart(w, Returned(v, a), pt)
  {
    hide Entry;
    HeldPage(v, a);
    ApartBytes(v, Returned(v, a), pt);
    ApartTrans(w, v, Returned(v, a), pt);
  }

  ghost predicate UnmapSoFar(w: World, v: World, pt: nat, lo: nat, k: nat) {
    Ok(v) && Apart(w, v, pt) && Shrinks(w, v) && Unmapped(w.mem, v.mem, pt, lo, k)
  }

  lemma UnmapStart(w: World, pt: nat, lo: nat)
    requires Ok(w)
    ensures UnmapSoFar(w, w, pt, lo, 0)
  {
    hide Ok, Entry;
  }

  lemma UnmapNext(w: World, v: World, pt: nat, lo: nat, k: nat, n: nat)
    requires UnmapSoFar(w, v, pt, lo, k) && k < n && lo + n <= MAXVPN && pt in w.mem.roots
    requires forall i :: lo <= i < lo + n ==> Lookup(w.mem, pt, i).v
    ensures Ok(v) && pt in v.mem.roots && Lookup(v.mem, pt, lo + k).v
  {
    hide Ok, Apart, Shrinks, Unmapped, Lookup;
    UnmappedRoots(w.mem, v.mem, pt, lo, k);
    LookupUnmapped(w.mem, v.mem, pt, lo, k, lo + k);
  }

  lemma UnmapMore(w: World, v: World, u: World, pt: nat, lo: nat, k: nat)
    requires UnmapSoFar(w, v, pt, lo, k)
    requires Ok(u) && Apart(v, u, pt) && Shrinks(v, u) && Unmapped(v.mem, u.mem, pt, lo + k, 1)
    ensures UnmapSoFar(w, u, pt, lo, k + 1)
  {
    hide Ok, Apart, Shrinks, Unmapped;
    ApartTrans(w, v, u, pt);
    ShrinksTrans(w, v, u);
    UnmappedMore(w.mem, v.mem, u.mem, pt, lo, k);
  }

  lemma UnmapEnd(w: World, v: World, pt: nat, lo: nat, k: nat)
    requires UnmapSoFar(w, v, pt, lo, k)
    ensures Ok(v) && Apart(w, v, pt) && Shrinks(w, v) && Unmapped(w.mem, v.mem, pt, lo, k)
  {
  }

  /** mappages has mapped k pages so far. */
  ghost predicate MapSoFar(w: World, v: World, pt: nat, lo: nat, k: nat, ppn: nat, perm: Perm) {
    && Ok(v) && Apart(w, v, pt) && KeepsContents(w, v) && Mapped(w.mem, v.mem, pt, lo, k, ppn, perm)
    && v.held == w.held - if lo >= TRAPFRAME then {} else Range(ppn, ppn + k)
  }

  lemma MapStart(w: World, pt: nat, lo: nat, ppn: nat, perm: Perm)
    requires Ok(w)
    ensures MapSoFar(w, w, pt, lo, 0, ppn, perm)
  {
    hide Ok, Apart, KeepsContents, Mapped, KeepsPages;
    StartStep(w, pt);
    MappedNone(w.mem, w.mem, pt, lo, ppn, perm);
  }

  lemma MapNext(w: World, v: World, pt: nat, lo: nat, last: nat, k: nat, ppn: nat, perm: Perm)
    requires MapSoFar(w, v, pt, lo, k, ppn, perm) && lo + k <= last < MAXVPN && pt in w.mem.roots
    requires forall i :: lo <= i <= last ==> !Lookup(w.mem, pt, i).v
    requires lo >= TRAPFRAME || (last < TRAPFRAME && HeldRun(w, ppn, last - lo + 1))
    ensures Ok(v) && pt in v.mem.roots && !Lookup(v.mem, pt, lo + k).v
    ensures lo + k < TRAPFRAME ==> ppn + k in v.held && ppn + k in v.bytes
  {
    hide Ok, Apart, KeepsContents, Mapped, Lookup, HeldRun, Range;
    MappedRoots(w.mem, v.mem, pt, lo, k, ppn, perm);
    LookupMapped(w.mem, v.mem, pt, lo, k, ppn, perm, lo + k);
    if lo < TRAPFRAME { HeldNext(w, v, ppn, last - lo + 1, k); }
  }

  lemma MappedRoots(m: Mem, n: Mem, pt: nat, lo: nat, k: nat, ppn: nat, perm: Perm)
    requires Mapped(m, n, pt, lo, k, ppn, perm)
    ensures n.roots == m.roots
  {
    hide Entry;
  }

  lemma UnmappedRoots(m: Mem, n: Mem, pt: nat, lo: nat, k: nat)
    requires Unmapped(m, n, pt, lo, k)
    ensures n.roots == m.roots
  {
    hide Entry;
  }

  lemma MapFailed(w: World, v: World, u: World, pt: nat, lo: nat, k: nat, ppn: nat, perm: Perm)
    requires MapSoFar(w, v, pt, lo, k, ppn, perm)
    requires Ok(u) && Apart(v, u, pt) && KeepsContents(v, u) && KeepsPages(v.mem, u.mem) && u.held == v.held
    ensures Ok(u) && Apart(w, u, pt) && KeepsContents(w, u) && Mapped(w.mem, u.mem, pt, lo, k, ppn, perm)
    ensures u.held == w.held - if lo >= TRAPFRAME then {} else Range(ppn, ppn + k)
  {
    hide Ok, Apart, KeepsContents, Mapped, KeepsPages;
    ApartTrans(w, v, u, pt);
    ContentsTrans(w, v, u);
    MappedKeep(w.mem, v.mem, u.mem, pt, lo, k, ppn, perm);
  }

  lemma MapMore(w: World, v: World, u: World, pt: nat, lo: nat, k: nat, ppn: nat, perm: Perm)
    requires MapSoFar(w, v, pt, lo, k, ppn, perm) && (lo >= TRAPFRAME || lo + k < TRAPFRAME)
    requires Ok(u) && Apart(v, u, pt) && KeepsContents(v, u) && Mapped(v.mem, u.mem, pt, lo + k, 1, ppn + k, perm)
    requires u.held == v.held - if lo + k < TRAPFRAME then {ppn + k} else {}
    ensures MapSoFar(w, u, pt, lo, k + 1, ppn, perm)
  {
    hide Ok, Apart, KeepsContents, Mapped;
    ApartTrans(w, v, u, pt);
    ContentsTrans(w, v, u);
    MappedMore(w.mem, v.mem, u.mem, pt, lo, k, ppn, perm);
    assert ppn + (k + 1) == ppn + k + 1;
  }

  lemma MapEnd(w: World, v: World, pt: nat, lo: nat, k: nat, ppn: nat, perm: Perm)
    requires MapSoFar(w, v, pt, lo, k, ppn, perm)
    ensures Ok(v) && Apart(w, v, pt) && KeepsContents(w, v) && Mapped(w.mem, v.mem, pt, lo, k, ppn, perm)
    ensures v.held == w.held - if lo >= TRAPFRAME then {} else Range(ppn, ppn + k)
  {
  }

  /** The n pages from ppn on are out with the caller. */
  ghost predicate HeldRun(w: World, ppn: nat, n: nat) {
    forall i :: ppn <= i < ppn + n ==> i in w.held && i in w.bytes
  }

  lemma HeldNext(w: World, v: World, ppn: nat, n: nat, done: nat)
    requires HeldRun(w, ppn, n) && done < n && KeepsContents(w, v) && v.held == w.held - Range(ppn, ppn + done)
    ensures ppn + done in v.held && ppn + done in v.bytes
  {
  }


  lemma MapReady(w: World, v: World, pt: nat, vpn: nat, q: nat, ppn: nat)
    requires Ok(w) && Ok(v) && KeepsPages(w.mem, v.mem) && KeepsContents(w, v) && v.held == w.held
    requires pt in w.mem.roots && vpn < MAXVPN && !Lookup(w.mem, pt, vpn).v
    requires q in v.mem.tables && Holds(v.mem, Parent(PageSlot(pt, vpn)), q)
    requires vpn < TRAPFRAME ==> ppn in w.held && ppn in w.bytes
    ensures pt in v.mem.roots && !v.mem.tables[q][vpn % 512].v && (vpn < TRAPFRAME ==> ppn in v.bytes)
  {
    hide Ok, AddrOf, Entry;
    LookupKept(w.mem, v.mem, pt);
    WrittenSame(v, PageSlot(pt, vpn), q, ZERO);
  }

  lemma MapStep(w: World, pt: nat, vpn: nat, q: nat, ppn: nat, perm: Perm)
    requires Ok(w) && pt in w.mem.roots && vpn < MAXVPN
    requires Holds(w.mem, Parent(PageSlot(pt, vpn)), q) && q in w.mem.tables && !w.mem.tables[q][vpn % 512].v
    requires ppn != 0 && (perm.r || perm.w || perm.x) && (vpn < TRAPFRAME ==> ppn in w.held && ppn in w.bytes)
    ensures var v := Given(w, PageSlot(pt, vpn), q, LeafPte(ppn, perm));
            Ok(v) && Apart(w, v, pt) && Mapped(w.mem, v.mem, pt, vpn, 1, ppn, perm) && KeepsContents(w, v)
  {
    hide Ok, Entry, AddrOf, Mapped, Apart;
    PageSlotVpn(pt, vpn);
    GivenOk(w, PageSlot(pt, vpn), q, LeafPte(ppn, perm));
    if vpn < TRAPFRAME { HeldPage(w, ppn); }
    GivenMaps(w, pt, vpn, q, ppn, perm);
  }

  lemma MappedAfter(a: Mem, b: Mem, c: Mem, pt: nat, lo: nat, ppn: nat, perm: Perm)
    requires KeepsPages(a, b) && Mapped(b, c, pt, lo, 1, ppn, perm)
    ensures Mapped(a, c, pt, lo, 1, ppn, perm)
  {
    MappedNone(a, b, pt, lo, ppn, perm);
    MappedMore(a, b, c, pt, lo, 0, ppn, perm);
  }

  lemma StartStep(w: World, pt: nat)
    requires Ok(w)
    ensures KeepsPages(w.mem, w.mem) && Apart(w, w, pt) && KeepsContents(w, w)
  {
  }

  lemma TakenKeeps(w: World, pt: nat)
    requires Ok(w) && w.free != []
    ensures Apart(w, Taken(w), pt) && KeepsContents(w, Taken(w)) && w.free[0] !in w.owner
  {
    hide Entry;
    TakenOk(w);
    ApartBytes(w, Taken(w), pt);
  }

  lemma AttachedKeeps(w: World, s: Slot, p: nat, k: nat, a: nat)
    requires p in w.mem.tables && k < NPTE && !s.Page? && a !in w.owner
    ensures KeepsContents(w, Attached(w, s, p, k, a))
  {
  }

  lemma ChildHere(w: World, s: Slot, k: nat, p: nat)
    requires Ok(w) && (s.Root? || s.Mid?) && k < NPTE && p in w.mem.tables && Holds(w.mem, s, p)
    ensures var e := w.mem.tables[p][k];
            && (e.v ==> e.ppn != 0 && e.ppn in w.mem.tables && Holds(w.mem, Child(s, k), e.ppn))
            && (!e.v ==> Holds(w.mem, Child(s, k), 0))
  {
    ChildTable(w.mem, w.owner, s, k, p);
    hide Entry, AddrOf;
  }

  lemma NothingBelow(w: World, pt: nat, vpn: nat, level: nat)
    requires level <= 1 && Ok(w) && Holds(w.mem, NodeSlot(pt, vpn, level), 0)
    ensures pt in w.mem.roots && !Lookup(w.mem, pt, vpn).v
  {
    hide Ok;
    NodeChild(pt, vpn, 1);
    if level == 1 { MissingBelow(w.mem, NodeSlot(pt, vpn, 1), Px(1, vpn)); }
  }
}

/** How freewalk takes a page table apart (vm.c:266-282), as steps on memory values. */
module FreeTables {
  import opened Basics
  import opened PageTable
  import opened Vm

  /** Nothing is mapped below slot s. */
  ghost predicate NoLeaves(m: Mem, s: Slot) {
    forall t :: ValidSlot(m, t) && t.Page? && Above(s, t) ==> !Entry(m, t).v
  }

  /** What was below the first i children of s is gone, and nothing else. */
  ghost predicate Pruned(w: World, v: World, s: Slot, i: nat) {
    && v.pages == w.pages && v.held == w.held && v.mem.roots == w.mem.roots
    && (forall t :: ValidSlot(w.mem, t) && !t.Root? ==>
          Entry(v.mem, t) == if Under(s, i, t) then ZERO else Entry(w.mem, t))
    && (forall a :: a in v.owner <==> a in w.owner && !Under(s, i, w.owner[a]))
    && Shrinks(w, v)
  }

  /** The node s and all below it are gone, but for the entry that points to s. */
  ghost predicate Freed(w: World, v: World, s: Slot) {
    && v.pages == w.pages && v.held == w.held && v.mem.roots == w.mem.roots
    && (forall t :: ValidSlot(w.mem, t) && !t.Root? ==>
          Entry(v.mem, t) == if Above(s, t) && t != s then ZERO else Entry(w.mem, t))
    && (forall a :: a in v.owner <==> a in w.owner && !Above(s, w.owner[a]))
    && Shrinks(w, v)
  }

  lemma PruneStart(w: World, s: Slot)
    ensures Pruned(w, w, s, 0)
  {
    hide Entry, Under;
    forall t ensures !Under(s, 0, t) { UnderNone(s, t); }
  }

  lemma {:induction false} BelowEmpty(m: Mem, c: Slot, t: Slot)
    requires ValidSlot(m, c) && ValidSlot(m, t) && !c.Root? && Entry(m, c) == ZERO && Above(c, t)
    ensures !t.Root? && Entry(m, t) == ZERO && AddrOf(m, t) == 0
    decreases 3 - Level(t)
  {
    AboveLevel(c, t);
    if t != c { BelowEmpty(m, c, Parent(t)); }
  }

  /** A child that is not there is already gone. */
  lemma PruneEmpty(w: World, v: World, s: Slot, i: nat)
    requires Pruned(w, v, s, i) && Ok(v) && !s.Page? && i < NPTE && ValidSlot(w.mem, s) && ValidSlot(v.mem, Child(s, i))
    requires !Entry(v.mem, Child(s, i)).v
    ensures Pruned(w, v, s, i + 1)
  {
    hide Entry, AddrOf, Above, Under, Conserved;
    var c := Child(s, i);
    assert Entry(v.mem, c) == ZERO;
    forall t | ValidSlot(w.mem, t) && !t.Root?
      ensures Entry(v.mem, t) == if Under(s, i + 1, t) then ZERO else Entry(w.mem, t)
    {
      UnderStep(s, i, t);
      if Above(c, t) { BelowEmpty(v.mem, c, t); }
    }
    forall a | a in v.owner ensures !Under(s, i + 1, v.owner[a]) {
      UnderStep(s, i, v.owner[a]);
      if Above(c, v.owner[a]) { BelowEmpty(v.mem, c, v.owner[a]); }
    }
    forall a | a in w.owner && !Under(s, i + 1, w.owner[a]) ensures a in v.owner {
      UnderStep(s, i, w.owner[a]);
    }
  }

  /** A child that was freed and its entry cleared. */
  lemma PruneChild(w: World, v: World, u: World, x: World, s: Slot, i: nat)
    requires Pruned(w, v, s, i) && !s.Page? && ValidSlot(w.mem, s) && Freed(v, u, Child(s, i))
    requires Cut(u.mem, x.mem, Child(s, i)) && x == u.(mem := x.mem)
    ensures Pruned(w, x, s, i + 1)
  {
    hide Entry, AddrOf, Above, Under;
    var c := Child(s, i);
    forall t | ValidSlot(w.mem, t) && !t.Root?
      ensures Entry(x.mem, t) == if Under(s, i + 1, t) then ZERO else Entry(w.mem, t)
    {
      UnderStep(s, i, t);
    }
    forall a ensures a in x.owner <==> a in w.owner && !Under(s, i + 1, w.owner[a]) {
      if a in w.owner { UnderStep(s, i, w.owner[a]); }
    }
  }

  /** The child's entry, as the loop reads it. */
  lemma ChildEntry(w: World, s: Slot, p: nat, i: nat)
    requires Ok(w) && Holds(w.mem, s, p) && !s.Page? && p in w.mem.tables && i < NPTE
    ensures ValidSlot(w.mem, Child(s, i)) && Entry(w.mem, Child(s, i)) == w.mem.tables[p][i]
    ensures w.mem.tables[p][i].v && !IsLeaf(w.mem.tables[p][i]) ==>
              !s.Low? && w.mem.tables[p][i].ppn in w.mem.tables && Holds(w.mem, Child(s, i), w.mem.tables[p][i].ppn)
    ensures w.mem.tables[p][i].v && IsLeaf(w.mem.tables[p][i]) ==> Child(s, i).Page?
  {
    SetEntryHere(w.mem, w.owner, {}, s, i, ZERO);
    RootAddr(w.mem, Child(s, i));
    hide Entry, AddrOf;
    if w.mem.tables[p][i].v && !IsLeaf(w.mem.tables[p][i]) {
      SlotOwner(w.mem, w.owner, Child(s, i));
    }
  }

  /** s still holds its table, and still nothing is mapped below it. */
  lemma PruneKeeps(w: World, v: World, s: Slot, i: nat, p: nat)
    requires Pruned(w, v, s, i) && Ok(w) && Ok(v) && !s.Page? && Holds(w.mem, s, p) && p in w.mem.tables
             && NoLeaves(w.mem, s)
    ensures Holds(v.mem, s, p) && p in v.mem.tables && NoLeaves(v.mem, s)
  {
    RootAddr(w.mem, s);
    RootAddr(v.mem, s);
    NotUnderSelf(s, i);
    PruneLeaves(w, v, s, i);
    NodeTable(w, s, p);
    NodeTable(v, s, p);
    hide Entry, AddrOf, Above, Under, Owned, KindsOk, NoLeaves;
  }

  lemma NotUnderSelf(s: Slot, i: nat)
    ensures !Under(s, i, s)
  {
    UnderLevel(s, i, s);
  }

  lemma {:induction false} UnderLevel(s: Slot, i: nat, t: Slot)
    ensures Under(s, i, t) ==> Level(t) < Level(s)
    decreases 3 - Level(t)
  {
    if !t.Root? { UnderLevel(s, i, Parent(t)); }
  }

  lemma PruneLeaves(w: World, v: World, s: Slot, i: nat)
    requires Pruned(w, v, s, i) && NoLeaves(w.mem, s)
    ensures NoLeaves(v.mem, s)
  {
    hide Entry, AddrOf, Above, Under;
  }

  lemma NodeTable(w: World, s: Slot, p: nat)
    requires Ok(w) && Holds(w.mem, s, p) && !s.Page?
    ensures p != 0 ==> p in w.mem.tables && p in w.owner && w.owner[p] == s
    ensures p in w.mem.tables ==> p != 0
  {
    hide Entry, AddrOf, KindsOk;
  }

  lemma ChildLeaves(m: Mem, s: Slot, i: nat)
    requires NoLeaves(m, s) && !s.Page?
    ensures NoLeaves(m, Child(s, i))
  {
    hide Entry;
    forall t | ValidSlot(m, t) && t.Page? && Above(Child(s, i), t) ensures Above(s, t) {
      AboveChild(s, i, t);
    }
  }

  lemma {:induction false} AboveChild(s: Slot, i: nat, t: Slot)
    requires !s.Page? && Above(Child(s, i), t)
    ensures Above(s, t) && t != s
    decreases 3 - Level(t)
  {
    AboveLevel(Child(s, i), t);
    if t != Child(s, i) { AboveChild(s, i, Parent(t)); }
  }

  /** Clearing the entry of a freed child. */
  lemma ClearStep(v: World, u: World, s: Slot, p: nat, i: nat)
    requires Ok(v) && !s.Page? && i < NPTE && Holds(v.mem, s, p) && p in v.mem.tables
    requires Freed(v, u, Child(s, i)) && OkBut(u, {Child(s, i)})
    ensures p in u.mem.tables
    ensures var x := u.(mem := SetEntry(u.mem, p, i, ZERO)); Ok(x) && Cut(u.mem, x.mem, Child(s, i))
  {
    StillNode(v, u, s, p, i);
    hide Entry, AddrOf, Above, Owned, KindsOk, Cut, SetEntry;
    var c := Child(s, i);
    ClearDead(u.mem, u.owner, s, i);
    SetEntryRoots(u.mem, p, i, ZERO);
    CutOwned(u.mem, SetEntry(u.mem, p, i, ZERO), u.owner, c);
    CutKinds(u.mem, SetEntry(u.mem, p, i, ZERO), c);
    SameConserved(u, u.(mem := SetEntry(u.mem, p, i, ZERO)));
  }

  lemma StillNode(v: World, u: World, s: Slot, p: nat, i: nat)
    requires Ok(v) && !s.Page? && i < NPTE && Holds(v.mem, s, p) && p in v.mem.tables
    requires Freed(v, u, Child(s, i)) && OkBut(u, {Child(s, i)})
    ensures Holds(u.mem, s, p) && p in u.mem.tables
  {
    RootAddr(v.mem, s);
    RootAddr(u.mem, s);
    AboveLevel(Child(s, i), s);
    NodeTable(v, s, p);
    hide Entry, AddrOf, Above, KindsOk;
    assert AddrOf(u.mem, s) == p;
    assert s !in {Child(s, i)};
  }

  /** The world in which the emptied table p of slot s is out with its caller. */
  function Unhooked(w: World, p: nat): World {
    w.(mem := Detach(w.mem, p), owner := w.owner - {p}, held := w.held + {p})
  }

  lemma UnhookOk(w: World, v: World, s: Slot, p: nat)
    requires Ok(v) && !s.Page? && Holds(v.mem, s, p) && p in v.mem.tables && Pruned(w, v, s, NPTE)
    requires ValidSlot(w.mem, s)
    ensures OkBut(Unhooked(v, p), {s}) && SameSlots(v.mem, Unhooked(v, p).mem)
    ensures p in v.owner && v.owner[p] == s && p !in v.held
  {
    EmptyTable(w, v, s, p);
    hide Entry, AddrOf, Under, KindsOk, Owned;
    DetachSame(v.mem, v.owner, s);
    DetachOwner(v.mem, Detach(v.mem, p), v.owner, s, p);
    SameKinds(v.mem, Detach(v.mem, p));
    DropConserved(v, Unhooked(v, p), p);
  }

  lemma EmptyTable(w: World, v: World, s: Slot, p: nat)
    requires Ok(v) && !s.Page? && Holds(v.mem, s, p) && p in v.mem.tables && Pruned(w, v, s, NPTE)
             && ValidSlot(w.mem, s)
    ensures forall k :: 0 <= k < NPTE ==> v.mem.tables[p][k] == ZERO
  {
    forall k | 0 <= k < NPTE ensures v.mem.tables[p][k] == ZERO {
      ChildEntry(v, s, p, k);
      hide Entry, AddrOf, KindsOk, Owned;
      assert Under(s, NPTE, Child(s, k));
    }
  }

  lemma FreedAll(w: World, v: World, s: Slot, p: nat)
    requires Ok(w) && Ok(v) && !s.Page? && Pruned(w, v, s, NPTE) && ValidSlot(w.mem, s)
    requires p in v.owner && v.owner[p] == s && p !in v.held && SameSlots(v.mem, Unhooked(v, p).mem)
    ensures Freed(w, Returned(Unhooked(v, p), p), s)
  {
    hide Entry, AddrOf, Above, Under, Ok;
    var x := Returned(Unhooked(v, p), p);
    forall t | ValidSlot(w.mem, t) && !t.Root?
      ensures Entry(x.mem, t) == if Above(s, t) && t != s then ZERO else Entry(w.mem, t)
    {
      UnderAll(w.mem, s, t);
    }
    forall a ensures a in x.owner <==> a in w.owner && !Above(s, w.owner[a]) {
      if a in w.owner { OwnerValid(w, a); UnderAll(w.mem, s, w.owner[a]); AboveSelf(s); OwnerOnce(v, a, p); }
    }
  }

  lemma OwnerValid(w: World, a: nat)
    requires Ok(w) && a in w.owner
    ensures ValidSlot(w.mem, w.owner[a])
  {
  }

  /** Two pages never have the same owner. */
  lemma OwnerOnce(w: World, a: nat, b: nat)
    requires Ok(w)
    ensures a in w.owner && b in w.owner && w.owner[a] == w.owner[b] ==> a == b
  {
  }

  // ------------------------------------------------------------ whole page tables

  lemma {:induction false} AboveRoot(pt: nat, t: Slot)
    ensures Above(Root(pt), t) <==> t.pt == pt
    decreases 3 - Level(t)
  {
    if !t.Root? { AboveRoot(pt, Parent(t)); }
  }

  /** Page table pt is gone with all it owned; the rest is as before. */
  ghost predicate Released(w: World, v: World, pt: nat) {
    && Ok(v) && Apart(w, v, pt) && v.held == w.held && v.mem.roots == w.mem.roots - {pt}
    && forall a :: a in v.owner ==> v.owner[a].pt != pt
  }

  lemma ReleaseRoot(w: World, v: World, pt: nat)
    requires Ok(w) && OkBut(v, {Root(pt)}) && Freed(w, v, Root(pt))
    ensures Released(w, v.(mem := v.mem.(roots := v.mem.roots - {pt})), pt)
  {
    hide Entry, AddrOf, Above, Owned, KindsOk;
    RemoveRoot(v.mem, v.owner, pt);
    var x := v.(mem := v.mem.(roots := v.mem.roots - {pt}));
    SameConserved(v, x);
    FreedApart(w, v, pt);
    RootsApart(w, v, x, pt);
  }

  lemma FreedApart(w: World, v: World, pt: nat)
    requires Freed(w, v, Root(pt))
    ensures Apart(w, v, pt)
  {
    hide Entry, AddrOf, Above;
    forall t | ValidSlot(w.mem, t) && t.Page? && t.pt != pt ensures Entry(v.mem, t) == Entry(w.mem, t) {
      AboveRoot(pt, t);
    }
    forall a | a in w.owner && w.owner[a].pt != pt ensures a in v.owner {
      AboveRoot(pt, w.owner[a]);
    }
  }

  lemma RootsApart(w: World, v: World, x: World, pt: nat)
    requires Apart(w, v, pt) && x == v.(mem := x.mem) && x.mem.roots == v.mem.roots - {pt}
    requires forall t :: ValidSlot(x.mem, t) && !t.Root? ==> Entry(x.mem, t) == Entry(v.mem, t)
    ensures Apart(w, x, pt)
  {
    hide Entry, AddrOf;
  }

  lemma NoLeavesIn(m: Mem, pt: nat)
    requires Space(m, pt, 0, false, false)
    ensures NoLeaves(m, Root(pt))
  {
    hide Entry, Above;
    forall t | ValidSlot(m, t) && t.Page? && Above(Root(pt), t) ensures !Entry(m, t).v {
      AboveRoot(pt, t);
    }
  }

  /** Memory is as before, but for the order of the free list and the contents of
      pages that are not in use: the same pages are free, and each of the others has
      the owner and the contents it had. */
  ghost predicate Restored(w: World, v: World) {
    && Ok(v) && v.pages == w.pages && v.mem.roots == w.mem.roots && v.owner == w.owner && v.held == w.held
    && ToSet(v.free) == ToSet(w.free) && KeepsPages(w.mem, v.mem)
    && forall a :: a in w.owner && a in w.bytes ==> a in v.bytes && v.bytes[a] == w.bytes[a]
  }

  /** A page table that came and went leaves every page where it was. */
  lemma CameAndWent(w: World, v: World, pt: nat)
    requires Ok(w) && Ok(v) && Apart(w, v, pt) && v.held == w.held
    requires pt !in w.mem.roots && pt !in v.mem.roots
    ensures Restored(w, v)
  {
    NoneOwned(w, pt);
    NoneOwned(v, pt);
    hide Entry, AddrOf, Owned, KindsOk;
    assert v.owner == w.owner;
    SameFree(w, v);
  }

  lemma NoneOwned(w: World, pt: nat)
    requires Ok(w) && pt !in w.mem.roots
    ensures forall a :: a in w.owner ==> w.owner[a].pt != pt
  {
  }

  /** The free pages are those that are neither owned nor held. */
  lemma SameFree(w: World, v: World)
    requires Conserved(w) && Conserved(v) && v.pages == w.pages && v.owner == w.owner && v.held == w.held
    ensures ToSet(v.free) == ToSet(w.free)
  {
    hide ToSet, Distinct;
  }

  // ------------------------------------------------------------ a new page table

  function Created(w: World, a: nat): World {
    w.(mem := NewRoot(w.mem, a), owner := w.owner[a := Root(a)], held := w.held - {a})
  }

  lemma CreatedOk(w: World, a: nat)
    requires Ok(w) && a in w.held
    ensures var v := Created(w, a); Ok(v) && Apart(w, v, a) && Space(v.mem, a, 0, false, false)
    ensures a !in w.mem.roots
  {
    hide Entry, AddrOf, Owned, KindsOk;
    ReturnedOk(w, a, {});
    NewRootOwned(w.mem, w.owner, a);
    GiveConserved(w, Created(w, a), a, Root(a));
  }
}

/** Physical pages and user address spaces: kalloc.c, the page-table operations
    of vm.c, and the address-space part of proc.c and exec.c. Addresses are page
    numbers; the contents of pages used as tables are kept as entries. */
module Vm {
  import opened Basics
  import opened PageTable

  type Frame = f: seq<Byte> | |f| == PGSIZE witness seq(PGSIZE, _ => 0)

  function Filled(b: Byte): Frame {
    seq(PGSIZE, _ => b)
  }

  /** The page numbers from lo below hi. */
  function Range(lo: nat, hi: nat): (r: set<nat>)
    requires lo <= hi
    ensures |r| == hi - lo && forall x :: x in r <==> lo <= x < hi
  {
    if lo == hi then {} else Range(lo, hi - 1) + {hi - 1}
  }

  datatype Perm = Perm(r: bool, w: bool, x: bool, u: bool)

  function LeafPte(ppn: nat, perm: Perm): Pte {
    Pte(ppn, true, perm.r, perm.w, perm.x, perm.u)
  }

  /** The whole of memory: the allocatable pages, the free list, the page tables,
      the contents of user pages, the owner of each owned page, and the pages out
      with a caller of kalloc (trapframes, pages on their way into or out of a slot). */
  datatype World = World(pages: set<nat>, free: seq<nat>, mem: Mem, bytes: map<nat, Frame>,
                         owner: map<nat, Slot>, held: set<nat>)

  /** The three sets share out the pages. */
  ghost predicate Partition(pages: set<nat>, free: set<nat>, owned: set<nat>, held: set<nat>) {
    && (forall a :: a in pages <==> a in free || a in owned || a in held)
    && (forall a :: a in free ==> a !in owned && a !in held)
    && (forall a :: a in owned ==> a !in held)
  }

  /** Every allocatable page is free, owned by one slot, or held; never two of these. */
  ghost predicate Conserved(w: World) {
    Distinct(w.free) && Partition(w.pages, ToSet(w.free), w.owner.Keys, w.held)
  }

  /** Mapped user pages have contents. */
  ghost predicate FramesOk(owner: map<nat, Slot>, bytes: map<nat, Frame>) {
    forall a :: a in owner && owner[a].Page? ==> a in bytes
  }

  /** Consistent memory, up to dead slots whose page went back to the free list. */
  ghost predicate OkBut(w: World, dead: set<Slot>) {
    && 0 !in w.pages && 0 !in w.mem.roots && |w.pages| < TRAPFRAME
    && Conserved(w) && Owned(w.mem, w.owner, dead) && KindsOk(w.mem) && FramesOk(w.owner, w.bytes)
  }

  ghost predicate Ok(w: World) {
    OkBut(w, {})
  }

  /** Everything outside page table pt is as before: the other page tables with
      all their page entries, the pages they own, and the contents of those pages. */
  ghost predicate Apart(w: World, v: World, pt: nat) {
    && v.pages == w.pages
    && (forall r :: r != pt ==> (r in v.mem.roots <==> r in w.mem.roots))
    && (forall t :: ValidSlot(w.mem, t) && ValidSlot(v.mem, t) && t.Page? && t.pt != pt ==>
         Entry(v.mem, t) == Entry(w.mem, t))
    && (forall a :: a in w.owner && w.owner[a].pt != pt ==> a in v.owner && v.owner[a] == w.owner[a])
    && (forall a :: a in v.owner && v.owner[a].pt != pt ==> a in w.owner && w.owner[a] == v.owner[a])
    && (forall a :: a in w.owner && w.owner[a].pt != pt && a in w.bytes ==> a in v.bytes && v.bytes[a] == w.bytes[a])
  }

  /** Whatever is still owned has the owner and the contents it had. */
  ghost predicate Shrinks(w: World, v: World) {
    && (forall a :: a in v.owner ==> a in w.owner && w.owner[a] == v.owner[a])
    && (forall a :: a in v.owner && a in w.bytes ==> a in v.bytes && v.bytes[a] == w.bytes[a])
  }

  lemma ShrinksTrans(u: World, v: World, w: World)
    requires Shrinks(u, v) && Shrinks(v, w)
    ensures Shrinks(u, w)
  {
  }

  /** Pages in use keep their contents, and owned ones their owners. */
  ghost predicate KeepsContents(w: World, v: World) {
    && (forall a :: a in w.owner ==> a in v.owner && v.owner[a] == w.owner[a])
    && (forall a :: a in w.held ==> a in v.owner || a in v.held)
    && (forall a :: (a in w.owner || a in w.held) && a in w.bytes ==> a in v.bytes && v.bytes[a] == w.bytes[a])
  }

  lemma ContentsTrans(u: World, v: World, w: World)
    requires KeepsContents(u, v) && KeepsContents(v, w)
    ensures KeepsContents(u, w)
  {
  }

  lemma ApartTrans(u: World, v: World, w: World, pt: nat)
    requires Apart(u, v, pt) && Apart(v, w, pt)
    ensures Apart(u, w, pt)
  {
    hide Entry;
  }

  /** Nothing of pt or any other page table changes but the contents of unowned pages. */
  lemma ApartBytes(w: World, v: World, pt: nat)
    requires v.pages == w.pages && v.mem == w.mem && v.owner == w.owner
    requires forall a :: a in w.owner && a in w.bytes ==> a in v.bytes && v.bytes[a] == w.bytes[a]
    ensures Apart(w, v, pt)
  {
    hide Entry;
  }

  lemma ApartPages(w: World, v: World, pt: nat)
    requires v.pages == w.pages && v.bytes == w.bytes && v.mem.roots == w.mem.roots
    requires forall t :: ValidSlot(w.mem, t) && t.Page? && t.pt != pt ==> Entry(v.mem, t) == Entry(w.mem, t)
    requires forall a :: a in w.owner && w.owner[a].pt != pt ==> a in v.owner && v.owner[a] == w.owner[a]
    requires forall a :: a in v.owner && v.owner[a].pt != pt ==> a in w.owner && w.owner[a] == v.owner[a]
    ensures Apart(w, v, pt)
  {
    hide Entry;
  }

  // ------------------------------------------------------------ kalloc.c

  /** The list freerange (kalloc.c:33-40) builds by kfree of each page in turn. */
  method Freerange(lo: nat, hi: nat) returns (f: seq<nat>)
    requires lo <= hi
    ensures Distinct(f) && (forall x :: x in f <==> x in Range(lo, hi))
  {
    hide Distinct, Range;
    f := [];
    var p := lo;
    EmptyRange(lo);
    while p < hi
      invariant lo <= p <= hi && Distinct(f)
      invariant forall x :: x in f <==> x in Range(lo, p)
    {
      PushRange(f, lo, p);
      f := [p] + f;
      p := p + 1;
    }
  }

  lemma PushRange(f: seq<nat>, lo: nat, p: nat)
    requires lo <= p && Distinct(f) && forall x :: x in f <==> x in Range(lo, p)
    ensures Distinct([p] + f) && forall x :: x in [p] + f <==> x in Range(lo, p + 1)
  {
    hide Distinct;
    PushDistinct(f, p);
    forall x ensures x in [p] + f <==> x in Range(lo, p + 1) { assert x in [p] + f <==> x == p || x in f; }
  }

  lemma EmptyRange(lo: nat)
    ensures Distinct([]) && Range(lo, lo) == {}
  {
  }

  lemma PushDistinct(f: seq<nat>, p: nat)
    requires Distinct(f) && p !in ToSet(f)
    ensures Distinct([p] + f) && ToSet([p] + f) == ToSet(f) + {p}
  {
  }

  lemma AllFree(pages: set<nat>, free: seq<nat>)
    requires Distinct(free) && (forall x :: x in free <==> x in pages) && 0 !in pages && |pages| < TRAPFRAME
    ensures Ok(World(pages, free, Mem(map[], {}), map[], map[], {})) && ToSet(free) == pages
  {
  }

  /** The world after kalloc: the page is held and filled with junk (kalloc.c:68-82). */
  function Taken(w: World): World
    requires w.free != []
  {
    w.(free := w.free[1..], held := w.held + {w.free[0]}, bytes := w.bytes[w.free[0] := Filled(5)])
  }

  lemma TakenOk(w: World)
    requires Ok(w) && w.free != []
    ensures Ok(Taken(w)) && w.free[0] in w.pages && w.free[0] != 0
    ensures w.free[0] !in w.owner && w.free[0] !in w.held
    ensures ToSet(w.free) == ToSet(Taken(w).free) + {w.free[0]}
  {
    hide Owned, KindsOk, Distinct, ToSet;
    PopDistinct(w.free);
  }

  lemma PopDistinct(f: seq<nat>)
    requires Distinct(f) && f != []
    ensures Distinct(f[1..]) && ToSet(f) == ToSet(f[1..]) + {f[0]} && f[0] !in ToSet(f[1..])
  {
    assert f == [f[0]] + f[1..];
    forall i, j | 0 <= i < j < |f[1..]| ensures f[1..][i] != f[1..][j] {
      assert f[i + 1] != f[j + 1];
    }
  }

  /** The world after kfree of a held page (kalloc.c:46-63). */
  function Returned(w: World, a: nat): World {
    w.(free := [a] + w.free, held := w.held - {a}, bytes := w.bytes[a := Filled(1)])
  }

  lemma ReturnedOk(w: World, a: nat, dead: set<Slot>)
    requires OkBut(w, dead) && a in w.held
    ensures OkBut(Returned(w, a), dead) && a in w.pages && a !in w.owner && a != 0
    ensures ToSet(Returned(w, a).free) == ToSet(w.free) + {a}
  {
    hide Owned, KindsOk, Distinct, ToSet;
    PushDistinct(w.free, a);
  }

  lemma HeldPage(w: World, a: nat)
    requires Ok(w) && a in w.held
    ensures a in w.pages && a !in w.owner && a != 0 && a !in ToSet(w.free)
  {
    hide Owned, KindsOk, FramesOk, ToSet, Distinct;
  }

  lemma OkIsOkBut(w: World)
    ensures Ok(w) <==> OkBut(w, {})
  {
  }

  // ------------------------------------------------------------ inner nodes

  /** No page entry of any page table changes. */
  ghost predicate KeepsPages(m: Mem, n: Mem) {
    && n.roots == m.roots
    && forall t :: ValidSlot(m, t) && t.Page? ==> Entry(n, t) == Entry(m, t)
  }

  function Attached(w: World, s: Slot, p: nat, k: nat, a: nat): World
    requires p in w.mem.tables && k < NPTE && !s.Page?
  {
    w.(mem := AddNode(w.mem, p, k, a), owner := w.owner[a := Child(s, k)], held := w.held - {a})
  }

  lemma AttachedOk(w: World, s: Slot, p: nat, k: nat, a: nat)
    requires Ok(w) && (s.Root? || s.Mid?) && k < NPTE && Holds(w.mem, s, p) && p in w.mem.tables && a in w.held
    requires !w.mem.tables[p][k].v
    ensures var v := Attached(w, s, p, k, a);
            Ok(v) && KeepsPages(w.mem, v.mem) && Apart(w, v, s.pt) && Holds(v.mem, Child(s, k), a)
  {
    hide Owned, KindsOk, Conserved, AddrOf, Entry, KeepsPages, SameExcept;
    ReturnedOk(w, a, {});
    ChildTable(w.mem, w.owner, s, k, p);
    AddNodeSame(w.mem, w.owner, s, k, a);
    AddNodeOwned(w.mem, w.owner, s, k, a);
    GiveConserved(w, Attached(w, s, p, k, a), a, Child(s, k));
    SameExceptPages(w.mem, AddNode(w.mem, p, k, a), Child(s, k));
    ApartNode(w, Attached(w, s, p, k, a), a, Child(s, k));
  }

  lemma ApartNode(w: World, v: World, a: nat, c: Slot)
    requires v.pages == w.pages && v.bytes == w.bytes && v.owner == w.owner[a := c] && a !in w.owner
    requires KeepsPages(w.mem, v.mem)
    ensures Apart(w, v, c.pt)
  {
    hide Entry;
  }

  /** A held page goes into a slot. */
  lemma GiveConserved(w: World, v: World, a: nat, c: Slot)
    requires Conserved(w) && a in w.held
    requires v.pages == w.pages && v.free == w.free && v.owner == w.owner[a := c] && v.held == w.held - {a}
    ensures Conserved(v)
  {
    assert v.owner.Keys == w.owner.Keys + {a};
  }

  lemma SameExceptPages(m: Mem, n: Mem, c: Slot)
    requires SameExcept(m, n, c) && !c.Page?
    ensures KeepsPages(m, n)
  {
    hide Entry, AddrOf;
  }

  /** A valid entry above level 0 points to a table. */
  lemma ChildTable(m: Mem, owner: map<nat, Slot>, s: Slot, k: nat, p: nat)
    requires Owned(m, owner, {}) && KindsOk(m) && (s.Root? || s.Mid?) && k < NPTE && Holds(m, s, p) && p in m.tables
    ensures ValidSlot(m, Child(s, k)) && Entry(m, Child(s, k)) == m.tables[p][k]
    ensures m.tables[p][k].v ==> m.tables[p][k].ppn in m.tables && Holds(m, Child(s, k), m.tables[p][k].ppn)
    ensures !m.tables[p][k].v ==> Holds(m, Child(s, k), 0)
  {
    SetEntryHere(m, owner, {}, s, k, ZERO);
    EntryAddr(m, Child(s, k));
    hide AddrOf, Entry;
  }

  lemma EntryAddr(m: Mem, s: Slot)
    requires ValidSlot(m, s) && !s.Root?
    ensures AddrOf(m, s) == if Entry(m, s).v then Entry(m, s).ppn else 0
  {
  }

  lemma RootTable(w: World, pt: nat)
    requires Ok(w) && pt in w.mem.roots
    ensures Holds(w.mem, Root(pt), pt) && pt in w.mem.tables && pt != 0
  {
    assert ValidSlot(w.mem, Root(pt)) && AddrOf(w.mem, Root(pt)) == pt;
  }

  lemma MissingBelow(m: Mem, s: Slot, k: nat)
    requires Holds(m, s, 0) && s.Mid? && k < NPTE
    ensures Holds(m, Child(s, k), 0)
  {
  }

  lemma PagesTrans(a: Mem, b: Mem, c: Mem)
    requires KeepsPages(a, b) && KeepsPages(b, c)
    ensures KeepsPages(a, c)
  {
    hide Entry;
  }

  // ------------------------------------------------------------ page entries

  /** The page-table entry of a virtual page. */
  ghost function Lookup(m: Mem, pt: nat, vpn: nat): Pte
    requires pt in m.roots
  {
    Entry(m, PageSlot(pt, vpn))
  }

  /** n maps pages lo .. lo+k-1 of pt to consecutive physical pages, and is otherwise m. */
  ghost predicate Mapped(m: Mem, n: Mem, pt: nat, lo: nat, k: nat, ppn: nat, perm: Perm) {
    && n.roots == m.roots
    && forall t :: ValidSlot(m, t) && t.Page? ==>
         Entry(n, t) == if t.pt == pt && lo <= Vpn(t) < lo + k then LeafPte(ppn + (Vpn(t) - lo), perm) else Entry(m, t)
  }

  /** n maps none of the pages lo .. lo+k-1 of pt, and is otherwise m. */
  ghost predicate Unmapped(m: Mem, n: Mem, pt: nat, lo: nat, k: nat) {
    && n.roots == m.roots
    && forall t :: ValidSlot(m, t) && t.Page? ==>
         Entry(n, t) == if t.pt == pt && lo <= Vpn(t) < lo + k then ZERO else Entry(m, t)
  }

  /** Write the entry of page slot t, whose level-0 table is q. */
  function Written(w: World, t: Slot, q: nat, e: Pte): World
    requires q in w.mem.tables && t.Page? && t.k < NPTE
  {
    w.(mem := SetEntry(w.mem, q, t.k, e))
  }

  lemma WrittenSame(w: World, t: Slot, q: nat, e: Pte)
    requires Ok(w) && t.Page? && ValidSlot(w.mem, t) && Holds(w.mem, Parent(t), q) && q in w.mem.tables
    ensures var v := Written(w, t, q, e);
            && SameExcept(w.mem, v.mem, t) && ValidSlot(v.mem, t) && Entry(v.mem, t) == e
            && Entry(w.mem, t) == w.mem.tables[q][t.k] && v.mem.tables.Keys == w.mem.tables.Keys
            && AddrOf(v.mem, t) == if e.v then e.ppn else 0
  {
    hide Owned, KindsOk, Conserved;
    SetPageSame(w.mem, w.owner, Parent(t), t.k, e);
    SetEntryHere(w.mem, w.owner, {}, Parent(t), t.k, e);
    EntryAddr(Written(w, t, q, e).mem, t);
  }

  /** Map a held page into a user slot that was empty. */
  function Given(w: World, t: Slot, q: nat, e: Pte): World
    requires q in w.mem.tables && t.Page? && t.k < NPTE
  {
    if Owning(t) then Written(w, t, q, e).(owner := w.owner[e.ppn := t], held := w.held - {e.ppn})
    else Written(w, t, q, e)
  }

  lemma GivenOk(w: World, t: Slot, q: nat, e: Pte)
    requires Ok(w) && t.Page? && ValidSlot(w.mem, t) && Holds(w.mem, Parent(t), q) && q in w.mem.tables
    requires !w.mem.tables[q][t.k].v && IsLeaf(e) && e.ppn != 0
    requires Owning(t) ==> e.ppn in w.held && e.ppn in w.bytes
    ensures Ok(Given(w, t, q, e))
  {
    hide Owned, KindsOk, Conserved, Entry, AddrOf;
    WrittenSame(w, t, q, e);
    var v := Written(w, t, q, e);
    EntryAddr(w.mem, t);
    NewKinds(w.mem, v.mem, t);
    if Owning(t) {
      ReturnedOk(w, e.ppn, {});
      NewOwner(w.mem, v.mem, w.owner, t, e.ppn);
      GiveConserved(w, Given(w, t, q, e), e.ppn, t);
    } else {
      KeepOwner(w.mem, v.mem, w.owner, t);
      SameConserved(w, v);
    }
  }

  lemma SameConserved(w: World, v: World)
    requires Conserved(w) && v.pages == w.pages && v.free == w.free && v.owner == w.owner && v.held == w.held
    ensures Conserved(v)
  {
  }

  /** Clear a mapped slot; a user page is then held. */
  function Cleared(w: World, t: Slot, q: nat): World
    requires q in w.mem.tables && t.Page? && t.k < NPTE
  {
    var a := w.mem.tables[q][t.k].ppn;
    if Owning(t) then Written(w, t, q, ZERO).(owner := w.owner - {a}, held := w.held + {a})
    else Written(w, t, q, ZERO)
  }

  lemma ClearedOk(w: World, t: Slot, q: nat)
    requires Ok(w) && t.Page? && ValidSlot(w.mem, t) && Holds(w.mem, Parent(t), q) && q in w.mem.tables
    requires w.mem.tables[q][t.k].v
    ensures Ok(Cleared(w, t, q))
    ensures Owning(t) ==> w.mem.tables[q][t.k].ppn in w.owner && w.owner[w.mem.tables[q][t.k].ppn] == t
  {
    hide Owned, KindsOk, Conserved, Entry, AddrOf;
    WrittenSame(w, t, q, ZERO);
    var v := Written(w, t, q, ZERO);
    EntryAddr(w.mem, t);
    NewKinds(w.mem, v.mem, t);
    var a := w.mem.tables[q][t.k].ppn;
    PageNonzero(w.mem, t);
    if Owning(t) {
      SlotOwner(w.mem, w.owner, t);
      DropOwner(w.mem, v.mem, w.owner, t);
      DropConserved(w, Cleared(w, t, q), a);
    } else {
      KeepOwner(w.mem, v.mem, w.owner, t);
      SameConserved(w, v);
    }
  }

  lemma PageNonzero(m: Mem, t: Slot)
    requires KindsOk(m) && ValidSlot(m, t) && !t.Root? && Entry(m, t).v
    ensures Entry(m, t).ppn != 0
  {
  }

  lemma SlotOwner(m: Mem, owner: map<nat, Slot>, t: Slot)
    requires Owned(m, owner, {}) && ValidSlot(m, t) && Owning(t) && AddrOf(m, t) != 0
    ensures AddrOf(m, t) in owner && owner[AddrOf(m, t)] == t
  {
  }

  lemma DropConserved(w: World, v: World, a: nat)
    requires Conserved(w) && a in w.owner
    requires v.pages == w.pages && v.free == w.free && v.owner == w.owner - {a} && v.held == w.held + {a}
    ensures Conserved(v)
  {
    assert v.owner.Keys == w.owner.Keys - {a};
  }

  lemma GivenMaps(w: World, pt: nat, vpn: nat, q: nat, ppn: nat, perm: Perm)
    requires Ok(w) && pt in w.mem.roots && vpn < MAXVPN
    requires Holds(w.mem, Parent(PageSlot(pt, vpn)), q) && q in w.mem.tables
    requires vpn < TRAPFRAME ==> ppn !in w.owner
    ensures var v := Given(w, PageSlot(pt, vpn), q, LeafPte(ppn, perm));
            Mapped(w.mem, v.mem, pt, vpn, 1, ppn, perm) && Apart(w, v, pt)
  {
    hide Ok, Entry, AddrOf;
    var t := PageSlot(pt, vpn);
    PageSlotVpn(pt, vpn);
    var v := Given(w, t, q, LeafPte(ppn, perm));
    WrittenSame(w, t, q, LeafPte(ppn, perm));
    OnlyPage(w.mem, v.mem, pt, vpn);
    ApartPages(w, v, pt);
  }

  /** A change of one page slot, told by page numbers. */
  lemma OnlyPage(m: Mem, n: Mem, pt: nat, vpn: nat)
    requires vpn < MAXVPN && SameExcept(m, n, PageSlot(pt, vpn))
    ensures forall t :: ValidSlot(m, t) && t.Page? && !(t.pt == pt && Vpn(t) == vpn) ==> Entry(n, t) == Entry(m, t)
    ensures forall t :: ValidSlot(m, t) && t.Page? && t.pt == pt && Vpn(t) == vpn ==> t == PageSlot(pt, vpn)
  {
    hide Entry, AddrOf, Vpn;
    PageSlotVpn(pt, vpn);
    forall t | ValidSlot(m, t) && t.Page? && t.pt == pt && Vpn(t) == vpn ensures t == PageSlot(pt, vpn) {
      VpnInjective(t, PageSlot(pt, vpn));
    }
  }

  lemma ClearedUnmaps(w: World, pt: nat, vpn: nat, q: nat)
    requires Ok(w) && pt in w.mem.roots && vpn < MAXVPN
    requires Holds(w.mem, Parent(PageSlot(pt, vpn)), q) && q in w.mem.tables && w.mem.tables[q][PageSlot(pt, vpn).k].v
    ensures var v := Cleared(w, PageSlot(pt, vpn), q);
            Unmapped(w.mem, v.mem, pt, vpn, 1) && Apart(w, v, pt)
  {
    hide Ok, Entry, AddrOf;
    var t := PageSlot(pt, vpn);
    PageSlotVpn(pt, vpn);
    var v := Cleared(w, t, q);
    WrittenSame(w, t, q, ZERO);
    OnlyPage(w.mem, v.mem, pt, vpn);
    ClearedOk(w, t, q);
    ApartPages(w, v, pt);
  }

  lemma MappedNone(m: Mem, n: Mem, pt: nat, lo: nat, ppn: nat, perm: Perm)
    requires KeepsPages(m, n)
    ensures Mapped(m, n, pt, lo, 0, ppn, perm)
  {
    hide Entry;
  }

  lemma MappedKeep(a: Mem, b: Mem, c: Mem, pt: nat, lo: nat, k: nat, ppn: nat, perm: Perm)
    requires Mapped(a, b, pt, lo, k, ppn, perm) && KeepsPages(b, c)
    ensures Mapped(a, c, pt, lo, k, ppn, perm)
  {
    hide Entry;
  }

  lemma MappedMore(a: Mem, b: Mem, c: Mem, pt: nat, lo: nat, k: nat, ppn: nat, perm: Perm)
    requires Mapped(a, b, pt, lo, k, ppn, perm) && Mapped(b, c, pt, lo + k, 1, ppn + k, perm)
    ensures Mapped(a, c, pt, lo, k + 1, ppn, perm)
  {
    hide Entry, Vpn;
  }

  lemma UnmappedMore(a: Mem, b: Mem, c: Mem, pt: nat, lo: nat, k: nat)
    requires Unmapped(a, b, pt, lo, k) && Unmapped(b, c, pt, lo + k, 1)
    ensures Unmapped(a, c, pt, lo, k + 1)
  {
    hide Entry, Vpn;
  }

  // ------------------------------------------------------------ address spaces

  predicate InSpace(vpn: nat, n: nat, tr: bool, tf: bool) {
    vpn < n || (tr && vpn == TRAMPOLINE) || (tf && vpn == TRAPFRAME)
  }

  /** Page table pt maps exactly the n lowest pages and, as told by tr and tf, the
      trampoline and the trapframe, which user code cannot use. */
  ghost predicate Space(m: Mem, pt: nat, n: nat, tr: bool, tf: bool) {
    && pt in m.roots && n <= TRAPFRAME
    && (forall t :: ValidSlot(m, t) && t.Page? && t.pt == pt ==> (Entry(m, t).v <==> InSpace(Vpn(t), n, tr, tf)))
    && (forall t :: ValidSlot(m, t) && t.Page? && t.pt == pt && Vpn(t) >= TRAPFRAME ==> !Entry(m, t).u)
  }

  lemma SpaceAt(m: Mem, pt: nat, n: nat, tr: bool, tf: bool, vpn: nat)
    requires Space(m, pt, n, tr, tf) && vpn < MAXVPN
    ensures Lookup(m, pt, vpn).v <==> InSpace(vpn, n, tr, tf)
    ensures vpn >= TRAPFRAME ==> !Lookup(m, pt, vpn).u
  {
    hide Entry;
    PageSlotVpn(pt, vpn);
  }

  /** The user pages of a space are n different pages of memory. */
  lemma {:induction false} LeavesDistinct(w: World, pt: nat, n: nat, tr: bool, tf: bool, k: nat) returns (s: set<nat>)
    requires Ok(w) && Space(w.mem, pt, n, tr, tf) && k <= n
    ensures |s| == k && s <= w.owner.Keys
    ensures forall a :: a in s ==> w.owner[a].Page? && w.owner[a].pt == pt && Vpn(w.owner[a]) < k
  {
    hide Entry, AddrOf, KindsOk, Conserved;
    if k == 0 {
      s := {};
    } else {
      s := LeavesDistinct(w, pt, n, tr, tf, k - 1);
      var t := PageSlot(pt, k - 1);
      PageSlotVpn(pt, k - 1);
      SpaceAt(w.mem, pt, n, tr, tf, k - 1);
      EntryAddr(w.mem, t);
      PageNonzero(w.mem, t);
      SlotOwner(w.mem, w.owner, t);
      s := s + {AddrOf(w.mem, t)};
    }
  }

  /** A space never outgrows memory, so it stays clear of the trapframe page. */
  lemma SpaceFits(w: World, pt: nat, n: nat, tr: bool, tf: bool)
    requires Ok(w) && Space(w.mem, pt, n, tr, tf)
    ensures n <= |w.pages| && n < TRAPFRAME && (w.held != {} ==> n + 1 < TRAPFRAME)
  {
    hide Owned, KindsOk, Space, ToSet, Distinct;
    var s := LeavesDistinct(w, pt, n, tr, tf, n);
    SubsetSize(s, w.pages);
    if w.held != {} {
      var a :| a in w.held;
      SubsetSize(s + {a}, w.pages);
    }
  }

  lemma SpaceMapped(m: Mem, n: Mem, pt: nat, k: nat, tr: bool, tf: bool, ppn: nat, perm: Perm)
    requires Space(m, pt, k, tr, tf) && Mapped(m, n, pt, k, 1, ppn, perm) && k < TRAPFRAME
    ensures Space(n, pt, k + 1, tr, tf)
  {
    hide Entry, Vpn;
  }

  lemma SpaceUnmapped(m: Mem, n: Mem, pt: nat, lo: nat, k: nat, tr: bool, tf: bool)
    requires Space(m, pt, lo + k, tr, tf) && Unmapped(m, n, pt, lo, k)
    ensures Space(n, pt, lo, tr, tf)
  {
    hide Entry, Vpn;
  }

  lemma SpaceKept(m: Mem, n: Mem, pt: nat, k: nat, tr: bool, tf: bool)
    requires Space(m, pt, k, tr, tf) && KeepsPages(m, n)
    ensures Space(n, pt, k, tr, tf)
  {
    hide Entry, Vpn;
  }

  lemma SpaceApart(w: World, v: World, pt: nat, other: nat, k: nat, tr: bool, tf: bool)
    requires Space(w.mem, other, k, tr, tf) && Apart(w, v, pt) && other != pt
    ensures Space(v.mem, other, k, tr, tf)
  {
    hide Entry, Vpn;
  }

  // ------------------------------------------------------------ contents

  /** A user page as the process sees it. */
  datatype UserPage = UserPage(data: Frame, perm: Perm)

  ghost function PageOf(w: World, pt: nat, vpn: nat): UserPage
    requires pt in w.mem.roots
  {
    var e := Lookup(w.mem, pt, vpn);
    UserPage(if e.ppn in w.bytes then w.bytes[e.ppn] else Filled(0), Perm(e.r, e.w, e.x, e.u))
  }

  /** User memory as a flat sequence of pages. */
  ghost function Image(w: World, pt: nat, n: nat): (r: seq<UserPage>)
    requires pt in w.mem.roots
    ensures |r| == n
  {
    seq(n, i requires 0 <= i < n => PageOf(w, pt, i))
  }

  /** A mapped user page has an owner: its own slot. */
  lemma UserPageOwner(w: World, pt: nat, n: nat, tr: bool, tf: bool, vpn: nat)
    requires Ok(w) && Space(w.mem, pt, n, tr, tf) && vpn < n
    ensures var a := Lookup(w.mem, pt, vpn).ppn;
            a != 0 && a in w.owner && w.owner[a] == PageSlot(pt, vpn) && a in w.bytes && IsLeaf(Lookup(w.mem, pt, vpn))
  {
    hide Entry, AddrOf, Conserved;
    var t := PageSlot(pt, vpn);
    PageSlotVpn(pt, vpn);
    SpaceAt(w.mem, pt, n, tr, tf, vpn);
    EntryAddr(w.mem, t);
    SlotOwner(w.mem, w.owner, t);
  }

  /** Same entries and same contents of owned pages: same image. */
  lemma ImageKept(w: World, v: World, pt: nat, n: nat, k: nat, tr: bool, tf: bool)
    requires Ok(w) && Space(w.mem, pt, n, tr, tf) && k <= n && pt in v.mem.roots
    requires forall i :: 0 <= i < k ==> Lookup(v.mem, pt, i) == Lookup(w.mem, pt, i)
    requires forall a :: a in w.owner && w.owner[a].pt == pt && w.owner[a].Page? && a in w.bytes ==>
               a in v.bytes && v.bytes[a] == w.bytes[a]
    ensures Image(v, pt, k) == Image(w, pt, k)
  {
    assert pt in w.mem.roots;
    hide Ok, Space, Lookup;
    forall i | 0 <= i < k ensures PageOf(v, pt, i) == PageOf(w, pt, i) {
      UserPageOwner(w, pt, n, tr, tf, i);
    }
  }

  lemma LookupKept(m: Mem, n: Mem, pt: nat)
    requires KeepsPages(m, n) && pt in m.roots
    ensures forall i :: Lookup(n, pt, i) == Lookup(m, pt, i)
  {
    hide Entry;
  }

  lemma LookupApart(w: World, v: World, pt: nat, other: nat)
    requires Apart(w, v, pt) && other != pt && other in w.mem.roots
    ensures other in v.mem.roots && forall i :: Lookup(v.mem, other, i) == Lookup(w.mem, other, i)
  {
    hide Entry;
  }

  lemma LookupMapped(m: Mem, n: Mem, pt: nat, lo: nat, k: nat, ppn: nat, perm: Perm, i: nat)
    requires Mapped(m, n, pt, lo, k, ppn, perm) && pt in m.roots && i < MAXVPN
    ensures Lookup(n, pt, i) == if lo <= i < lo + k then LeafPte(ppn + (i - lo), perm) else Lookup(m, pt, i)
  {
    hide Entry;
    PageSlotVpn(pt, i);
  }

  lemma LookupUnmapped(m: Mem, n: Mem, pt: nat, lo: nat, k: nat, i: nat)
    requires Unmapped(m, n, pt, lo, k) && pt in m.roots && i < MAXVPN
    ensures Lookup(n, pt, i) == if lo <= i < lo + k then ZERO else Lookup(m, pt, i)
  {
    hide Entry;
    PageSlotVpn(pt, i);
  }

  /** Other processes see the same memory as before. */
  lemma ImageApart(w: World, v: World, pt: nat, other: nat, n: nat, tr: bool, tf: bool)
    requires Ok(w) && Space(w.mem, other, n, tr, tf) && Apart(w, v, pt) && other != pt
    ensures other in v.mem.roots && Image(v, other, n) == Image(w, other, n)
  {
    LookupApart(w, v, pt, other);
    hide Ok, Space, Lookup;
    ImageKept(w, v, other, n, n, tr, tf);
  }
}

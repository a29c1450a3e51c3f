/** Three-level page tables in physical memory, as plain values: what each entry
    slot holds, who owns each physical page, and how single updates of a table
    change both (vm.c:68-187; section 4.4 of the RISC-V Privileged Architecture,
    version 20211203). */
module PageTable {

  const PGSIZE: nat := 4096
  /** Entries per table, and page numbers below MAXVA. */
  const NPTE: nat := 512
  const MAXVPN: nat := 0x400_0000
  const TRAMPOLINE: nat := MAXVPN - 1
  const TRAPFRAME: nat := MAXVPN - 2

  /** A page-table entry: physical page number and the V, R, W, X, U flags. */
  datatype Pte = Pte(ppn: nat, v: bool, r: bool, w: bool, x: bool, u: bool)

  const ZERO: Pte := Pte(0, false, false, false, false, false)

  predicate IsLeaf(e: Pte) {
    e.v && (e.r || e.w || e.x)
  }

  type Table = t: seq<Pte> | |t| == NPTE witness seq(NPTE, _ => ZERO)

  function ZeroTable(): Table {
    seq(NPTE, _ => ZERO)
  }

  /** The places of a page table: its root page, the two levels of inner nodes,
      and the mapped pages. */
  datatype Slot =
    | Root(pt: nat)
    | Mid(pt: nat, i: nat)
    | Low(pt: nat, i: nat, j: nat)
    | Page(pt: nat, i: nat, j: nat, k: nat)

  /** Memory as the page-table code sees it: the tables by physical page number,
      and the root pages of the page tables in existence. */
  datatype Mem = Mem(tables: map<nat, Table>, roots: set<nat>)

  predicate ValidSlot(m: Mem, s: Slot) {
    && s.pt in m.roots
    && (s.Root? || s.i < NPTE) && (s.Root? || s.Mid? || s.j < NPTE) && (s.Page? ==> s.k < NPTE)
  }

  function Level(s: Slot): nat {
    match s case Root(_) => 3 case Mid(_, _) => 2 case Low(_, _, _) => 1 case Page(_, _, _, _) => 0
  }

  function Parent(s: Slot): Slot
    requires !s.Root?
  {
    match s case Mid(pt, _) => Root(pt) case Low(pt, i, _) => Mid(pt, i) case Page(pt, i, j, _) => Low(pt, i, j)
  }

  function Index(s: Slot): nat
    requires !s.Root?
  {
    match s case Mid(_, i) => i case Low(_, _, j) => j case Page(_, _, _, k) => k
  }

  /** The entry a slot stands for; ZERO below a missing table. */
  function Entry(m: Mem, s: Slot): Pte
    requires ValidSlot(m, s) && !s.Root?
    decreases 3 - Level(s), 0
  {
    var p := AddrOf(m, Parent(s));
    if p != 0 && p in m.tables then m.tables[p][Index(s)] else ZERO
  }

  /** The physical page in a slot, or 0. */
  function AddrOf(m: Mem, s: Slot): nat
    requires ValidSlot(m, s)
    decreases 3 - Level(s), 1
  {
    if s.Root? then s.pt else if Entry(m, s).v then Entry(m, s).ppn else 0
  }

  /** The slot holds page a (0: nothing). */
  predicate Holds(m: Mem, s: Slot, a: nat) {
    ValidSlot(m, s) && AddrOf(m, s) == a
  }

  function Vpn(s: Slot): nat
    requires s.Page?
  {
    s.i * 0x4_0000 + s.j * 0x200 + s.k
  }

  /** The page slot of a virtual page number: the PX macro at levels 2, 1 and 0. */
  function PageSlot(pt: nat, vpn: nat): Slot {
    Page(pt, vpn / 0x4_0000 % 512, vpn / 0x200 % 512, vpn % 512)
  }

  lemma PageSlotVpn(pt: nat, vpn: nat)
    requires vpn < 0x800_0000
    ensures Vpn(PageSlot(pt, vpn)) == vpn
  {
    assert vpn / 0x4_0000 == vpn / 0x200 / 0x200;
  }

  lemma VpnInjective(s: Slot, t: Slot)
    requires s.Page? && t.Page? && s.pt == t.pt && s.i < NPTE && t.i < NPTE
    requires s.j < NPTE && t.j < NPTE && s.k < NPTE && t.k < NPTE
    ensures Vpn(s) == Vpn(t) ==> s == t
  {
  }

  // ------------------------------------------------------------ ownership

  /** Inner nodes own their page, and user pages theirs; the trampoline and the
      trapframe are mapped but owned elsewhere. */
  predicate Owning(s: Slot) {
    s.Page? ==> Vpn(s) < TRAPFRAME
  }

  /** Valid entries are leaves at level 0 and only there, and name a page; the
      others are zero. */
  ghost predicate KindsOk(m: Mem) {
    forall s :: ValidSlot(m, s) && !s.Root? ==> KindOk(s, Entry(m, s))
  }

  predicate KindOk(s: Slot, e: Pte) {
    if e.v then e.ppn != 0 && (IsLeaf(e) <==> s.Page?) else e == ZERO
  }

  /** Every page in an owning slot belongs to that slot and no other, apart from
      the slots in `dead`, whose page was already given back; and exactly the
      inner nodes are tables. */
  ghost predicate Owned(m: Mem, owner: map<nat, Slot>, dead: set<Slot>) {
    && (forall s :: ValidSlot(m, s) && Owning(s) && s !in dead && AddrOf(m, s) != 0 ==>
          AddrOf(m, s) in owner && owner[AddrOf(m, s)] == s)
    && (forall a :: a in owner ==>
          && a != 0 && ValidSlot(m, owner[a]) && Owning(owner[a]) && owner[a] !in dead && AddrOf(m, owner[a]) == a)
    && (forall a :: a in m.tables <==> a in owner && !owner[a].Page?)
    && (forall s :: s in dead && ValidSlot(m, s) ==> AddrOf(m, s) !in m.tables)
  }

  // ------------------------------------------------------------ writing one entry

  function Child(p: Slot, k: nat): Slot
    requires !p.Page?
  {
    match p case Root(pt) => Mid(pt, k) case Mid(pt, i) => Low(pt, i, k) case Low(pt, i, j) => Page(pt, i, j, k)
  }

  function SetEntry(m: Mem, p: nat, k: nat, e: Pte): Mem
    requires p in m.tables && k < NPTE
  {
    m.(tables := m.tables[p := m.tables[p][k := e]])
  }

  /** c is t or one of the inner nodes above it. */
  predicate Above(c: Slot, t: Slot)
    decreases 3 - Level(t)
  {
    c == t || (!t.Root? && Above(c, Parent(t)))
  }

  lemma {:induction false} AboveLevel(c: Slot, t: Slot)
    ensures Above(c, t) ==> Level(c) >= Level(t)
    decreases 3 - Level(t)
  {
    if !t.Root? { AboveLevel(c, Parent(t)); }
  }

  /** Writing one entry changes what a slot holds only at that entry and below it:
      no other slot has the written table as its parent. */
  lemma {:induction false} SetEntryElsewhere(m: Mem, owner: map<nat, Slot>, dead: set<Slot>, p: Slot, k: nat, e: Pte,
                                             t: Slot)
    requires Owned(m, owner, dead) && ValidSlot(m, p) && !p.Page? && k < NPTE && p !in dead
    requires AddrOf(m, p) in m.tables
    requires ValidSlot(m, t) && !Above(Child(p, k), t)
    ensures AddrOf(SetEntry(m, AddrOf(m, p), k, e), t) == AddrOf(m, t)
    ensures !t.Root? ==> Entry(SetEntry(m, AddrOf(m, p), k, e), t) == Entry(m, t)
    decreases 3 - Level(t)
  {
    if !t.Root? {
      SetEntryElsewhere(m, owner, dead, p, k, e, Parent(t));
      var a := AddrOf(m, p);
      assert AddrOf(m, p) != 0;
      if AddrOf(m, Parent(t)) == a {
        assert owner[a] == p && owner[a] == Parent(t);
      }
    }
  }

  /** The entry of a table is the slot's entry. */
  lemma SetEntryHere(m: Mem, owner: map<nat, Slot>, dead: set<Slot>, p: Slot, k: nat, e: Pte)
    requires Owned(m, owner, dead) && ValidSlot(m, p) && !p.Page? && k < NPTE && p !in dead
    requires AddrOf(m, p) in m.tables
    ensures ValidSlot(m, Child(p, k)) && Parent(Child(p, k)) == p && Index(Child(p, k)) == k
    ensures Entry(m, Child(p, k)) == m.tables[AddrOf(m, p)][k]
    ensures Entry(SetEntry(m, AddrOf(m, p), k, e), Child(p, k)) == e
  {
    AboveLevel(Child(p, k), p);
    SetEntryElsewhere(m, owner, dead, p, k, e, p);
    assert AddrOf(m, p) in owner && AddrOf(m, p) != 0;
  }

  // ------------------------------------------------------------ adding a node

  function NodePte(a: nat): Pte {
    Pte(a, true, false, false, false, false)
  }

  /** What walk does at a missing level (vm.c:91-94): a zeroed table and an entry for it. */
  function AddNode(m: Mem, p: nat, k: nat, a: nat): Mem
    requires p in m.tables && k < NPTE
  {
    var n := SetEntry(m, p, k, NodePte(a));
    n.(tables := n.tables[a := ZeroTable()])
  }

  /** Every slot but c holds in n what it held in m. */
  ghost predicate SameExcept(m: Mem, n: Mem, c: Slot) {
    && n.roots == m.roots
    && (forall t :: ValidSlot(m, t) && t != c ==> AddrOf(n, t) == AddrOf(m, t))
    && (forall t :: ValidSlot(m, t) && t != c && !t.Root? ==> Entry(n, t) == Entry(m, t))
  }

  /** A fresh table: no slot's entry changes except the one that points to it. */
  lemma {:induction false} AddNodeEntry(m: Mem, owner: map<nat, Slot>, p: Slot, k: nat, a: nat, t: Slot)
    requires Owned(m, owner, {}) && ValidSlot(m, p) && (p.Root? || p.Mid?) && k < NPTE && AddrOf(m, p) in m.tables
    requires a != 0 && a !in owner && !Entry(m, Child(p, k)).v && ValidSlot(m, t)
    ensures var n := AddNode(m, AddrOf(m, p), k, a);
            && (t == Child(p, k) ==> AddrOf(n, t) == a && Entry(n, t) == NodePte(a))
            && (t != Child(p, k) ==> AddrOf(n, t) == AddrOf(m, t))
            && (t != Child(p, k) && !t.Root? ==> Entry(n, t) == Entry(m, t))
    decreases 3 - Level(t)
  {
    if !t.Root? {
      var n := AddNode(m, AddrOf(m, p), k, a);
      var c := Child(p, k);
      var q := Parent(t);
      AddNodeEntry(m, owner, p, k, a, q);
      assert AddrOf(m, p) != 0 && owner[AddrOf(m, p)] == p;
      if q == c {
        assert AddrOf(m, c) == 0;
      } else if AddrOf(m, q) != 0 {
        assert AddrOf(m, q) in owner && owner[AddrOf(m, q)] == q;
        if q == p { SetEntryHere(m, owner, {}, p, k, NodePte(a)); }
      }
    }
  }

  lemma AddNodeSame(m: Mem, owner: map<nat, Slot>, p: Slot, k: nat, a: nat)
    requires Owned(m, owner, {})
    requires ValidSlot(m, p) && (p.Root? || p.Mid?) && k < NPTE && AddrOf(m, p) in m.tables
    requires a != 0 && a !in owner && ValidSlot(m, Child(p, k)) && !Entry(m, Child(p, k)).v
    ensures var n := AddNode(m, AddrOf(m, p), k, a);
            && SameExcept(m, n, Child(p, k)) && ValidSlot(n, Child(p, k))
            && AddrOf(n, Child(p, k)) == a && Entry(n, Child(p, k)) == NodePte(a)
            && n.tables.Keys == m.tables.Keys + {a}
  {
    hide Entry, AddrOf, Owned;
    var n := AddNode(m, AddrOf(m, p), k, a);
    forall t | ValidSlot(m, t) && t != Child(p, k)
      ensures AddrOf(n, t) == AddrOf(m, t) && (!t.Root? ==> Entry(n, t) == Entry(m, t))
    {
      AddNodeEntry(m, owner, p, k, a, t);
    }
    AddNodeEntry(m, owner, p, k, a, Child(p, k));
  }

  /** A slot that was empty takes a page: ownership grows by that slot. */
  lemma NewOwner(m: Mem, n: Mem, owner: map<nat, Slot>, c: Slot, a: nat)
    requires Owned(m, owner, {}) && SameExcept(m, n, c) && ValidSlot(m, c) && !c.Root? && Owning(c)
    requires AddrOf(m, c) == 0 && AddrOf(n, c) == a && a != 0 && a !in owner
    requires n.tables.Keys == m.tables.Keys + if c.Page? then {} else {a}
    ensures Owned(n, owner[a := c], {})
  {
    hide Entry, AddrOf;
    forall s | ValidSlot(n, s) && Owning(s) && AddrOf(n, s) != 0
      ensures AddrOf(n, s) in owner[a := c] && owner[a := c][AddrOf(n, s)] == s
    {
      if s != c { assert AddrOf(n, s) == AddrOf(m, s); }
    }
  }

  lemma NewKinds(m: Mem, n: Mem, c: Slot)
    requires KindsOk(m) && SameExcept(m, n, c) && ValidSlot(m, c) && !c.Root?
    requires KindOk(c, Entry(n, c))
    ensures KindsOk(n)
  {
    hide Entry, AddrOf;
  }

  lemma AddNodeOwned(m: Mem, owner: map<nat, Slot>, p: Slot, k: nat, a: nat)
    requires Owned(m, owner, {}) && KindsOk(m)
    requires ValidSlot(m, p) && (p.Root? || p.Mid?) && k < NPTE && AddrOf(m, p) in m.tables
    requires a != 0 && a !in owner && ValidSlot(m, Child(p, k)) && !Entry(m, Child(p, k)).v
    ensures Owned(AddNode(m, AddrOf(m, p), k, a), owner[a := Child(p, k)], {})
    ensures KindsOk(AddNode(m, AddrOf(m, p), k, a))
  {
    hide Owned, KindsOk, SameExcept;
    AddNodeSame(m, owner, p, k, a);
    var n := AddNode(m, AddrOf(m, p), k, a);
    NewOwner(m, n, owner, Child(p, k), a);
    NewKinds(m, n, Child(p, k));
  }

  // ------------------------------------------------------------ mapping a page

  lemma SetPageSame(m: Mem, owner: map<nat, Slot>, p: Slot, k: nat, e: Pte)
    requires Owned(m, owner, {}) && ValidSlot(m, p) && p.Low? && k < NPTE && AddrOf(m, p) in m.tables
    ensures var n := SetEntry(m, AddrOf(m, p), k, e);
            && ValidSlot(m, Child(p, k)) && SameExcept(m, n, Child(p, k)) && Entry(n, Child(p, k)) == e
            && n.tables.Keys == m.tables.Keys
  {
    hide Entry, AddrOf, Owned;
    var n := SetEntry(m, AddrOf(m, p), k, e);
    var c := Child(p, k);
    forall t | ValidSlot(m, t) && t != c
      ensures AddrOf(n, t) == AddrOf(m, t) && (!t.Root? ==> Entry(n, t) == Entry(m, t))
    {
      if !t.Root? { AboveLevel(c, Parent(t)); }
      SetEntryElsewhere(m, owner, {}, p, k, e, t);
    }
    SetEntryHere(m, owner, {}, p, k, e);
  }

  /** Removing a page from a slot: its owner gives it up. */
  lemma DropOwner(m: Mem, n: Mem, owner: map<nat, Slot>, c: Slot)
    requires Owned(m, owner, {}) && SameExcept(m, n, c) && ValidSlot(m, c) && c.Page? && Owning(c)
    requires AddrOf(m, c) != 0 && AddrOf(n, c) == 0 && n.tables.Keys == m.tables.Keys
    ensures Owned(n, owner - {AddrOf(m, c)}, {})
  {
    hide Entry, AddrOf;
  }

  /** Changing the flags of a page, or the page of a slot that owns none. */
  lemma KeepOwner(m: Mem, n: Mem, owner: map<nat, Slot>, c: Slot)
    requires Owned(m, owner, {}) && SameExcept(m, n, c) && ValidSlot(m, c) && c.Page?
    requires !Owning(c) || AddrOf(n, c) == AddrOf(m, c)
    requires n.tables.Keys == m.tables.Keys
    ensures Owned(n, owner, {})
  {
    hide Entry, AddrOf;
  }

  // ------------------------------------------------------------ a new page table

  function NewRoot(m: Mem, a: nat): Mem {
    Mem(m.tables[a := ZeroTable()], m.roots + {a})
  }

  lemma {:induction false} NewRootEntry(m: Mem, owner: map<nat, Slot>, a: nat, t: Slot)
    requires Owned(m, owner, {}) && a != 0 && a !in owner && ValidSlot(NewRoot(m, a), t)
    ensures t.pt == a && !t.Root? ==> Entry(NewRoot(m, a), t) == ZERO
    ensures t.pt != a ==> AddrOf(NewRoot(m, a), t) == AddrOf(m, t)
    ensures t.pt != a && !t.Root? ==> Entry(NewRoot(m, a), t) == Entry(m, t)
    decreases 3 - Level(t)
  {
    if !t.Root? {
      NewRootEntry(m, owner, a, Parent(t));
      if t.pt != a && AddrOf(m, Parent(t)) != 0 {
        assert AddrOf(m, Parent(t)) in owner;
      }
    }
  }

  /** No page table has its root in a page that no slot owns. */
  lemma RootsOwned(m: Mem, owner: map<nat, Slot>, a: nat)
    requires Owned(m, owner, {}) && 0 !in m.roots && a !in owner
    ensures a !in m.roots
  {
    if a in m.roots { assert ValidSlot(m, Root(a)) && AddrOf(m, Root(a)) == a; }
  }

  lemma NewRootOwned(m: Mem, owner: map<nat, Slot>, a: nat)
    requires Owned(m, owner, {}) && KindsOk(m) && 0 !in m.roots && a != 0 && a !in owner
    ensures Owned(NewRoot(m, a), owner[a := Root(a)], {}) && KindsOk(NewRoot(m, a)) && a !in m.roots
    ensures forall t :: ValidSlot(m, t) && !t.Root? ==> Entry(NewRoot(m, a), t) == Entry(m, t)
    ensures forall t :: ValidSlot(NewRoot(m, a), t) && !t.Root? && t.pt == a ==> Entry(NewRoot(m, a), t) == ZERO
  {
    hide Entry, AddrOf;
    var n, o := NewRoot(m, a), owner[a := Root(a)];
    RootsOwned(m, owner, a);
    forall t | ValidSlot(n, t)
      ensures t.pt == a && !t.Root? ==> Entry(n, t) == ZERO && AddrOf(n, t) == 0
      ensures t.Root? ==> AddrOf(n, t) == t.pt
      ensures t.pt != a ==> AddrOf(n, t) == AddrOf(m, t) && (!t.Root? ==> Entry(n, t) == Entry(m, t))
    {
      NewRootEntry(m, owner, a, t);
      RootAddr(n, t);
    }
  }

  lemma RootAddr(m: Mem, t: Slot)
    requires ValidSlot(m, t)
    ensures AddrOf(m, t) == if t.Root? then t.pt else if Entry(m, t).v then Entry(m, t).ppn else 0
  {
  }

  // ------------------------------------------------------------ freeing a node

  /** t lies below s through a child with index less than i. */
  predicate Under(s: Slot, i: nat, t: Slot)
    decreases 3 - Level(t)
  {
    !t.Root? && ((Parent(t) == s && Index(t) < i) || Under(s, i, Parent(t)))
  }

  lemma {:induction false} UnderStep(s: Slot, i: nat, t: Slot)
    requires !s.Page?
    ensures Under(s, i + 1, t) <==> Under(s, i, t) || Above(Child(s, i), t)
    decreases 3 - Level(t)
  {
    if !t.Root? { UnderStep(s, i, Parent(t)); }
  }

  lemma {:induction false} UnderAll(m: Mem, s: Slot, t: Slot)
    requires ValidSlot(m, t)
    ensures Under(s, NPTE, t) <==> Above(s, t) && t != s
    decreases 3 - Level(t)
  {
    if !t.Root? { UnderAll(m, s, Parent(t)); AboveLevel(s, Parent(t)); }
  }

  lemma {:induction false} UnderNone(s: Slot, t: Slot)
    ensures !Under(s, 0, t)
    decreases 3 - Level(t)
  {
    if !t.Root? { UnderNone(s, Parent(t)); }
  }

  function Detach(m: Mem, p: nat): Mem {
    m.(tables := m.tables - {p})
  }

  /** A table whose entries are all zero can go without any slot noticing. */
  lemma {:induction false} DetachEntry(m: Mem, owner: map<nat, Slot>, s: Slot, t: Slot)
    requires Owned(m, owner, {}) && ValidSlot(m, s) && !s.Page? && AddrOf(m, s) in m.tables && ValidSlot(m, t)
    requires forall k :: 0 <= k < NPTE ==> m.tables[AddrOf(m, s)][k] == ZERO
    ensures AddrOf(Detach(m, AddrOf(m, s)), t) == AddrOf(m, t)
    ensures !t.Root? ==> Entry(Detach(m, AddrOf(m, s)), t) == Entry(m, t)
    decreases 3 - Level(t)
  {
    if !t.Root? { DetachEntry(m, owner, s, Parent(t)); }
  }

  /** Every slot holds in n what it held in m. */
  ghost predicate SameSlots(m: Mem, n: Mem) {
    && n.roots == m.roots
    && (forall t :: ValidSlot(m, t) ==> AddrOf(n, t) == AddrOf(m, t))
    && (forall t :: ValidSlot(m, t) && !t.Root? ==> Entry(n, t) == Entry(m, t))
  }

  lemma DetachSame(m: Mem, owner: map<nat, Slot>, s: Slot)
    requires Owned(m, owner, {}) && ValidSlot(m, s) && !s.Page? && AddrOf(m, s) in m.tables
    requires forall k :: 0 <= k < NPTE ==> m.tables[AddrOf(m, s)][k] == ZERO
    ensures SameSlots(m, Detach(m, AddrOf(m, s)))
  {
    hide Entry, AddrOf, Owned;
    forall t | ValidSlot(m, t)
      ensures AddrOf(Detach(m, AddrOf(m, s)), t) == AddrOf(m, t)
      ensures !t.Root? ==> Entry(Detach(m, AddrOf(m, s)), t) == Entry(m, t)
    {
      DetachEntry(m, owner, s, t);
    }
  }

  /** Giving up the page of a node: its slot is dead until the entry is cleared. */
  lemma DetachOwner(m: Mem, n: Mem, owner: map<nat, Slot>, s: Slot, p: nat)
    requires Owned(m, owner, {}) && SameSlots(m, n) && ValidSlot(m, s) && !s.Page? && AddrOf(m, s) == p && p in m.tables
    requires n.tables.Keys == m.tables.Keys - {p}
    ensures p in owner && owner[p] == s && Owned(n, owner - {p}, {s})
  {
    hide Entry, AddrOf, Owning, Owned;
    OwnerOfTable(m, owner, p);
    SlotOf(m, owner, p);
    OwnerOf(m, owner, s);
    var o := owner - {p};
    forall t | ValidSlot(n, t) && Owning(t) && t !in {s} && AddrOf(n, t) != 0
      ensures AddrOf(n, t) in o && o[AddrOf(n, t)] == t
    {
      OwnerOf(m, owner, t);
    }
    forall a | a in o
      ensures a != 0 && ValidSlot(n, o[a]) && Owning(o[a]) && o[a] !in {s} && AddrOf(n, o[a]) == a
    {
      SlotOf(m, owner, a);
    }
    forall a ensures a in n.tables <==> a in o && !o[a].Page? { OwnerOfTable(m, owner, a); }
    assert Owned(n, o, {s}) by { OwnedIs(n, o, s); }
  }

  lemma OwnerOf(m: Mem, owner: map<nat, Slot>, s: Slot)
    requires Owned(m, owner, {}) && ValidSlot(m, s) && (Owning(s) || !s.Page?) && AddrOf(m, s) != 0
    ensures AddrOf(m, s) in owner && owner[AddrOf(m, s)] == s
  {
    hide AddrOf;
  }

  lemma SlotOf(m: Mem, owner: map<nat, Slot>, a: nat)
    requires Owned(m, owner, {}) && a in owner
    ensures a != 0 && ValidSlot(m, owner[a]) && Owning(owner[a]) && AddrOf(m, owner[a]) == a
  {
    hide AddrOf;
  }

  lemma OwnerOfTable(m: Mem, owner: map<nat, Slot>, a: nat)
    requires Owned(m, owner, {})
    ensures a in m.tables <==> a in owner && !owner[a].Page?
  {
    hide AddrOf;
  }

  lemma OwnedIs(m: Mem, owner: map<nat, Slot>, s: Slot)
    requires forall t :: ValidSlot(m, t) && Owning(t) && t !in {s} && AddrOf(m, t) != 0 ==>
               AddrOf(m, t) in owner && owner[AddrOf(m, t)] == t
    requires forall a :: a in owner ==>
               a != 0 && ValidSlot(m, owner[a]) && Owning(owner[a]) && owner[a] !in {s} && AddrOf(m, owner[a]) == a
    requires forall a :: a in m.tables <==> a in owner && !owner[a].Page?
    requires ValidSlot(m, s) ==> AddrOf(m, s) !in m.tables
    ensures Owned(m, owner, {s})
  {
    hide AddrOf, Owning;
  }

  lemma SameKinds(m: Mem, n: Mem)
    requires KindsOk(m) && SameSlots(m, n)
    ensures KindsOk(n)
  {
    hide Entry, AddrOf;
  }

  /** Clearing the entry of a dead node: nothing else changes, and nothing is below it. */
  lemma {:induction false} ClearDeadEntry(m: Mem, owner: map<nat, Slot>, p: Slot, k: nat, t: Slot)
    requires !p.Page? && k < NPTE && Owned(m, owner, {Child(p, k)}) && ValidSlot(m, p) && AddrOf(m, p) in m.tables
    requires ValidSlot(m, t)
    ensures var n := SetEntry(m, AddrOf(m, p), k, ZERO);
            && (!Above(Child(p, k), t) ==> AddrOf(n, t) == AddrOf(m, t) && (!t.Root? ==> Entry(n, t) == Entry(m, t)))
            && (Above(Child(p, k), t) ==> AddrOf(n, t) == 0 && (!t.Root? ==> Entry(n, t) == ZERO))
            && (Above(Child(p, k), t) && t != Child(p, k) ==> AddrOf(m, t) == 0 && Entry(m, t) == ZERO)
    decreases 3 - Level(t)
  {
    hide Owned;
    if Above(Child(p, k), t) {
      if t == Child(p, k) {
        SetEntryHere(m, owner, {Child(p, k)}, p, k, ZERO);
      } else {
        ClearDeadEntry(m, owner, p, k, Parent(t));
        if Parent(t) == Child(p, k) { DeadAddr(m, owner, Child(p, k)); }
      }
    } else {
      SetEntryElsewhere(m, owner, {Child(p, k)}, p, k, ZERO, t);
    }
  }

  lemma DeadAddr(m: Mem, owner: map<nat, Slot>, c: Slot)
    requires Owned(m, owner, {c}) && ValidSlot(m, c)
    ensures AddrOf(m, c) !in m.tables
  {
  }

  /** n is m with everything at or below c cleared. */
  ghost predicate Cut(m: Mem, n: Mem, c: Slot) {
    && n.roots == m.roots
    && (forall t :: ValidSlot(m, t) && !Above(c, t) ==> AddrOf(n, t) == AddrOf(m, t))
    && (forall t :: ValidSlot(m, t) && !Above(c, t) && !t.Root? ==> Entry(n, t) == Entry(m, t))
    && (forall t :: ValidSlot(m, t) && Above(c, t) ==> AddrOf(n, t) == 0)
    && (forall t :: ValidSlot(m, t) && Above(c, t) && !t.Root? ==> Entry(n, t) == ZERO)
  }

  lemma ClearDead(m: Mem, owner: map<nat, Slot>, p: Slot, k: nat)
    requires !p.Page? && k < NPTE && Owned(m, owner, {Child(p, k)}) && KindsOk(m) && ValidSlot(m, p)
    requires AddrOf(m, p) in m.tables
    ensures Cut(m, SetEntry(m, AddrOf(m, p), k, ZERO), Child(p, k))
    ensures forall t :: ValidSlot(m, t) && Above(Child(p, k), t) && t != Child(p, k) ==> AddrOf(m, t) == 0
  {
    hide Entry, AddrOf, Owned, Above, KindsOk, SetEntry;
    var n := SetEntry(m, AddrOf(m, p), k, ZERO);
    assert n.roots == m.roots by { SetEntryRoots(m, AddrOf(m, p), k, ZERO); }
    forall t | ValidSlot(m, t)
      ensures !Above(Child(p, k), t) ==> AddrOf(n, t) == AddrOf(m, t) && (!t.Root? ==> Entry(n, t) == Entry(m, t))
      ensures Above(Child(p, k), t) ==> AddrOf(n, t) == 0 && (!t.Root? ==> Entry(n, t) == ZERO)
      ensures Above(Child(p, k), t) && t != Child(p, k) ==> AddrOf(m, t) == 0
    {
      ClearDeadEntry(m, owner, p, k, t);
    }
  }

  lemma SetEntryRoots(m: Mem, p: nat, k: nat, e: Pte)
    requires p in m.tables && k < NPTE
    ensures SetEntry(m, p, k, e).roots == m.roots && SetEntry(m, p, k, e).tables.Keys == m.tables.Keys
  {
  }

  lemma CutOwned(m: Mem, n: Mem, owner: map<nat, Slot>, c: Slot)
    requires Owned(m, owner, {c}) && Cut(m, n, c) && n.tables.Keys == m.tables.Keys
    requires forall t :: ValidSlot(m, t) && Above(c, t) && t != c ==> AddrOf(m, t) == 0
    ensures Owned(n, owner, {})
  {
    hide Entry, AddrOf, Above, Owning;
    forall t | ValidSlot(n, t) && Owning(t) && AddrOf(n, t) != 0
      ensures AddrOf(n, t) in owner && owner[AddrOf(n, t)] == t
    {
      assert !Above(c, t) && t != c by { AboveSelf(c); }
    }
    forall a | a in owner
      ensures a != 0 && ValidSlot(n, owner[a]) && Owning(owner[a]) && AddrOf(n, owner[a]) == a
    {
      assert AddrOf(m, owner[a]) == a && owner[a] != c;
      assert !Above(c, owner[a]);
    }
  }

  lemma AboveSelf(c: Slot)
    ensures Above(c, c)
  {
  }

  lemma CutKinds(m: Mem, n: Mem, c: Slot)
    requires KindsOk(m) && Cut(m, n, c)
    ensures KindsOk(n)
  {
    hide Entry, AddrOf, Above;
  }

  /** A page table whose root was given up is gone. */
  lemma {:induction false} RootGone(m: Mem, owner: map<nat, Slot>, pt: nat, t: Slot)
    requires Owned(m, owner, {Root(pt)}) && ValidSlot(m, t) && t.pt == pt && !t.Root?
    ensures AddrOf(m, t) == 0 && Entry(m, t) == ZERO
    decreases 3 - Level(t)
  {
    if Parent(t).Root? { DeadAddr(m, owner, Root(pt)); } else { RootGone(m, owner, pt, Parent(t)); }
  }

  lemma {:induction false} RootsOnly(m: Mem, roots: set<nat>, t: Slot)
    requires ValidSlot(m, t) && t.pt in roots
    ensures AddrOf(m.(roots := roots), t) == AddrOf(m, t)
    ensures !t.Root? ==> Entry(m.(roots := roots), t) == Entry(m, t)
    decreases 3 - Level(t)
  {
    if !t.Root? { RootsOnly(m, roots, Parent(t)); }
  }

  lemma RemoveRoot(m: Mem, owner: map<nat, Slot>, pt: nat)
    requires Owned(m, owner, {Root(pt)}) && KindsOk(m)
    ensures var n := m.(roots := m.roots - {pt});
            && Owned(n, owner, {}) && KindsOk(n)
            && (forall t :: ValidSlot(n, t) && !t.Root? ==> Entry(n, t) == Entry(m, t))
    ensures forall a :: a in owner ==> owner[a].pt != pt
  {
    hide Entry, AddrOf;
    var n := m.(roots := m.roots - {pt});
    forall t | ValidSlot(n, t)
      ensures AddrOf(n, t) == AddrOf(m, t) && (!t.Root? ==> Entry(n, t) == Entry(m, t))
    {
      RootsOnly(m, n.roots, t);
    }
    forall a | a in owner ensures owner[a].pt != pt {
      if owner[a].pt == pt && !owner[a].Root? { RootGone(m, owner, pt, owner[a]); }
    }
  }
}

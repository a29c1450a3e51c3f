/** What a process sees of memory: a flat sequence of pages, whatever the physical
    pages behind them. Each lemma says how one step on memory changes that view. */
module UserImage {
  import opened Basics
  import opened PageTable
  import opened Vm

  /** Page table pt belongs to a process that sees the user pages img. */
  ghost predicate User(w: World, pt: nat, img: seq<UserPage>) {
    Ok(w) && Space(w.mem, pt, |img|, true, true) && Image(w, pt, |img|) == img
  }

  /** A process sees nothing of what happens in another page table. */
  lemma UserApart(w: World, v: World, pt: nat, other: nat, img: seq<UserPage>)
    requires User(w, other, img) && Apart(w, v, pt) && other != pt && Ok(v)
    ensures User(v, other, img)
  {
    hide Ok, Space, Apart;
    SpaceApart(w, v, pt, other, |img|, true, true);
    ImageApart(w, v, pt, other, |img|, true, true);
  }

  /** Changes to inner nodes and to pages not in use go unnoticed. */
  lemma UserKept(w: World, v: World, pt: nat, img: seq<UserPage>)
    requires User(w, pt, img) && Ok(v) && KeepsPages(w.mem, v.mem) && KeepsContents(w, v)
    ensures User(v, pt, img)
  {
    hide Ok, Space, KeepsPages;
    SpaceKept(w.mem, v.mem, pt, |img|, true, true);
    assert pt in w.mem.roots && pt in v.mem.roots by { SpaceRoot(w.mem, pt, |img|); SpaceRoot(v.mem, pt, |img|); }
    LookupKept(w.mem, v.mem, pt);
    ImageKept(w, v, pt, |img|, |img|, true, true);
  }

  lemma SpaceRoot(m: Mem, pt: nat, n: nat)
    requires Space(m, pt, n, true, true)
    ensures pt in m.roots && n <= TRAPFRAME
  {
  }

  lemma UserTaken(w: World, pt: nat, img: seq<UserPage>)
    requires User(w, pt, img) && w.free != []
    ensures User(Taken(w), pt, img) && Apart(w, Taken(w), pt)
  {
    TakenOk(w);
    OnlyBytes(w, Taken(w), pt);
    hide Ok, Space, KeepsPages;
    UserKept(w, Taken(w), pt, img);
  }

  lemma OnlyBytes(w: World, v: World, pt: nat)
    requires v.pages == w.pages && v.mem == w.mem && v.owner == w.owner && w.held <= v.held
    requires forall a :: (a in w.owner || a in w.held) && a in w.bytes ==> a in v.bytes && v.bytes[a] == w.bytes[a]
    ensures Apart(w, v, pt) && KeepsPages(w.mem, v.mem) && KeepsContents(w, v)
  {
    hide Entry;
  }

  /** Filling a page that is out with its caller. */
  function Fill(w: World, a: nat, f: Frame): World {
    w.(bytes := w.bytes[a := f])
  }

  lemma UserFill(w: World, pt: nat, img: seq<UserPage>, a: nat, f: Frame)
    requires User(w, pt, img) && a in w.held
    ensures User(Fill(w, a, f), pt, img) && Apart(w, Fill(w, a, f), pt) && Ok(Fill(w, a, f))
  {
    HeldPage(w, a);
    FillOk(w, a, f);
    var v := Fill(w, a, f);
    hide Ok;
    ApartBytes(w, v, pt);
    ImageOwned(w, v, pt, img);
  }

  lemma FillOk(w: World, a: nat, f: Frame)
    requires Ok(w)
    ensures Ok(Fill(w, a, f))
  {
    hide Owned, KindsOk;
    SameConserved(w, Fill(w, a, f));
  }

  /** Same tables and same contents of owned pages. */
  lemma ImageOwned(w: World, v: World, pt: nat, img: seq<UserPage>)
    requires User(w, pt, img) && Ok(v) && v.mem == w.mem && v.owner == w.owner
    requires forall a :: a in w.owner && a in w.bytes ==> a in v.bytes && v.bytes[a] == w.bytes[a]
    ensures User(v, pt, img)
  {
    SpaceRoot(w.mem, pt, |img|);
    hide Ok, Space;
    ImageKept(w, v, pt, |img|, |img|, true, true);
  }

  lemma UserReturned(w: World, pt: nat, img: seq<UserPage>, a: nat)
    requires User(w, pt, img) && a in w.held
    ensures User(Returned(w, a), pt, img) && Apart(w, Returned(w, a), pt)
  {
    HeldPage(w, a);
    ReturnedOk(w, a, {});
    ApartBytes(w, Returned(w, a), pt);
    hide OkBut, Space;
    ImageOwned(w, Returned(w, a), pt, img);
  }

  /** Mapping the next page. */
  lemma UserMapped(w: World, v: World, pt: nat, img: seq<UserPage>, a: nat, perm: Perm)
    requires User(w, pt, img) && Ok(v) && KeepsContents(w, v) && a in w.held && a in w.bytes && |img| < TRAPFRAME
    requires Mapped(w.mem, v.mem, pt, |img|, 1, a, perm)
    ensures User(v, pt, img + [UserPage(w.bytes[a], perm)])
  {
    SpaceRoot(w.mem, pt, |img|);
    hide Ok, Space, Mapped, Lookup, Image, PageOf, KeepsContents;
    var n := |img|;
    SpaceMapped(w.mem, v.mem, pt, n, true, true, a, perm);
    SpaceRoot(v.mem, pt, n + 1);
    OldPages(w, v, pt, n, a, perm);
    ImageNext(v, pt, n);
    NewPage(w, v, pt, n, a, perm);
  }

  lemma OldPages(w: World, v: World, pt: nat, n: nat, a: nat, perm: Perm)
    requires Ok(w) && Space(w.mem, pt, n, true, true) && KeepsContents(w, v) && pt in w.mem.roots && pt in v.mem.roots
    requires Mapped(w.mem, v.mem, pt, n, 1, a, perm)
    ensures Image(v, pt, n) == Image(w, pt, n)
  {
    SpaceRoot(w.mem, pt, n);
    hide Ok, Space, Mapped, Lookup, Image, PageOf;
    forall i | 0 <= i < n ensures Lookup(v.mem, pt, i) == Lookup(w.mem, pt, i) {
      LookupMapped(w.mem, v.mem, pt, n, 1, a, perm, i);
    }
    ImageKept(w, v, pt, n, n, true, true);
  }

  lemma NewPage(w: World, v: World, pt: nat, n: nat, a: nat, perm: Perm)
    requires KeepsContents(w, v) && pt in w.mem.roots && pt in v.mem.roots && n < TRAPFRAME && a in w.held
             && a in w.bytes
    requires Mapped(w.mem, v.mem, pt, n, 1, a, perm)
    ensures PageOf(v, pt, n) == UserPage(w.bytes[a], perm)
  {
    hide Mapped, Lookup;
    LookupMapped(w.mem, v.mem, pt, n, 1, a, perm, n);
  }

  lemma ImageNext(w: World, pt: nat, n: nat)
    requires pt in w.mem.roots
    ensures Image(w, pt, n + 1) == Image(w, pt, n) + [PageOf(w, pt, n)]
  {
  }

  /** Unmapping the pages from n on. */
  lemma UserUnmapped(w: World, v: World, pt: nat, img: seq<UserPage>, n: nat)
    requires User(w, pt, img) && Ok(v) && Shrinks(w, v) && n <= |img|
    requires Unmapped(w.mem, v.mem, pt, n, |img| - n)
    ensures User(v, pt, img[..n])
  {
    SpaceRoot(w.mem, pt, |img|);
    hide Ok, Space, Unmapped, Lookup;
    SpaceUnmapped(w.mem, v.mem, pt, n, |img| - n, true, true);
    SpaceRoot(v.mem, pt, n);
    forall i | 0 <= i < n ensures PageOf(v, pt, i) == img[i] {
      LookupUnmapped(w.mem, v.mem, pt, n, |img| - n, i);
      UserPageOwner(w, pt, |img|, true, true, i);
      UserPageOwner(v, pt, n, true, true, i);
      assert PageOf(w, pt, i) == Image(w, pt, |img|)[i];
    }
    assert Image(v, pt, n) == img[..n];
  }

  // ------------------------------------------------------------ user bytes

  /** User code may use address va. */
  predicate Reach(img: seq<UserPage>, va: nat) {
    va / PGSIZE < |img| && img[va / PGSIZE].perm.u
  }

  function ByteAt(img: seq<UserPage>, va: nat): Byte
    requires va / PGSIZE < |img|
  {
    img[va / PGSIZE].data[va % PGSIZE]
  }

  /** Page a is behind user page vpn of pt. */
  ghost predicate Backs(w: World, pt: nat, vpn: nat, a: nat) {
    pt in w.mem.roots && Lookup(w.mem, pt, vpn).v && Lookup(w.mem, pt, vpn).ppn == a
  }

  /** now is img with the first k bytes of src stored at va, all at reachable addresses. */
  ghost predicate Stored(img: seq<UserPage>, now: seq<UserPage>, va: nat, src: seq<Byte>, k: nat) {
    && k <= |src| && |now| == |img|
    && (forall i :: 0 <= i < |img| ==> now[i].perm == img[i].perm)
    && (forall x: nat :: va <= x < va + k ==> Reach(img, x))
    && (forall x: nat :: x / PGSIZE < |img| ==> ByteAt(now, x) == if va <= x < va + k then src[x - va]
         else ByteAt(img, x))
  }

  /** dst is what user code sees from va on, all at reachable addresses. */
  ghost predicate Fetched(img: seq<UserPage>, va: nat, dst: seq<Byte>) {
    forall x: nat :: va <= x < va + |dst| ==> Reach(img, x) && dst[x - va] == ByteAt(img, x)
  }

  /** copyin gives back what copyout stored. */
  lemma CopyRoundTrip(img: seq<UserPage>, now: seq<UserPage>, va: nat, src: seq<Byte>, dst: seq<Byte>)
    requires Stored(img, now, va, src, |src|) && Fetched(now, va, dst) && |dst| == |src|
    ensures dst == src
  {
    forall i | 0 <= i < |dst| ensures dst[i] == src[i] {
      assert Reach(now, va + i);
    }
  }

  function Patch(f: Frame, off: nat, part: seq<Byte>): (r: Frame)
    requires off + |part| <= PGSIZE
    ensures forall i :: 0 <= i < PGSIZE ==> r[i] == if off <= i < off + |part| then part[i - off] else f[i]
  {
    f[..off] + part + f[off + |part|..]
  }

  function Put(img: seq<UserPage>, p: nat, f: Frame): seq<UserPage>
    requires p < |img|
  {
    img[p := img[p].(data := f)]
  }

  lemma StoredNone(img: seq<UserPage>, va: nat, src: seq<Byte>)
    ensures Stored(img, img, va, src, 0)
  {
  }

  lemma FetchedNone(img: seq<UserPage>, va: nat)
    ensures Fetched(img, va, [])
  {
  }

  lemma ReachStored(img: seq<UserPage>, now: seq<UserPage>, va: nat, src: seq<Byte>, k: nat, x: nat)
    requires Stored(img, now, va, src, k)
    ensures Reach(now, x) <==> Reach(img, x)
  {
  }

  lemma ReachPage(img: seq<UserPage>, va: nat)
    requires Reach(img, va)
    ensures va / PGSIZE < |img|
  {
  }

  lemma InPage(va: nat, n: nat, x: nat)
    requires n <= PGSIZE - va % PGSIZE
    ensures va <= x < va + n ==> x / PGSIZE == va / PGSIZE && x % PGSIZE == va % PGSIZE + (x - va)
    ensures x / PGSIZE == va / PGSIZE && va % PGSIZE <= x % PGSIZE < va % PGSIZE + n ==> va <= x < va + n
  {
  }

  lemma StoredMore(img: seq<UserPage>, now: seq<UserPage>, va: nat, src: seq<Byte>, k: nat, n: nat)
    requires Stored(img, now, va, src, k) && k + n <= |src| && Reach(img, va + k) && n <= PGSIZE - (va + k) % PGSIZE
    ensures (va + k) / PGSIZE < |now|
    ensures var p := (va + k) / PGSIZE;
            Stored(img, Put(now, p, Patch(now[p].data, (va + k) % PGSIZE, src[k..k + n])), va, src, k + n)
  {
    hide Patch, ByteAt;
    var p, off := (va + k) / PGSIZE, (va + k) % PGSIZE;
    var f := Patch(now[p].data, off, src[k..k + n]);
    var after := Put(now, p, f);
    forall x: nat | va <= x < va + (k + n) ensures Reach(img, x) {
      InPage(va + k, n, x);
    }
    forall x: nat | x / PGSIZE < |img|
      ensures ByteAt(after, x) == if va <= x < va + (k + n) then src[x - va] else ByteAt(img, x)
    {
      InPage(va + k, n, x);
      PutByte(now, va + k, src[k..k + n], x);
      assert ByteAt(now, x) == if va <= x < va + k then src[x - va] else ByteAt(img, x);
    }
  }

  lemma PutByte(img: seq<UserPage>, va: nat, part: seq<Byte>, x: nat)
    requires va / PGSIZE < |img| && x / PGSIZE < |img| && |part| <= PGSIZE - va % PGSIZE
    ensures ByteAt(Put(img, va / PGSIZE, Patch(img[va / PGSIZE].data, va % PGSIZE, part)), x) ==
              if va <= x < va + |part| then part[x - va] else ByteAt(img, x)
  {
    InPage(va, |part|, x);
    var f := Patch(img[va / PGSIZE].data, va % PGSIZE, part);
    hide Patch;
    assert f[x % PGSIZE] == if va % PGSIZE <= x % PGSIZE < va % PGSIZE + |part| then part[x % PGSIZE - va % PGSIZE]
                            else img[va / PGSIZE].data[x % PGSIZE];
  }

  lemma FetchedMore(img: seq<UserPage>, va: nat, dst: seq<Byte>, n: nat)
    requires Fetched(img, va, dst) && Reach(img, va + |dst|) && n <= PGSIZE - (va + |dst|) % PGSIZE
    ensures (va + |dst|) / PGSIZE < |img|
    ensures Fetched(img, va, dst + img[(va + |dst|) / PGSIZE].data[(va + |dst|) % PGSIZE..(va + |dst|) % PGSIZE + n])
  {
    var x := va + |dst|;
    var more := img[x / PGSIZE].data[x % PGSIZE..x % PGSIZE + n];
    forall y: nat | va <= y < va + |dst + more| ensures Reach(img, y) && (dst + more)[y - va] == ByteAt(img, y) {
      InPage(x, n, y);
    }
  }

  /** A store to the physical page behind one user page changes that page and no other. */
  lemma UserWrite(w: World, pt: nat, img: seq<UserPage>, p: nat, a: nat, f: Frame)
    requires User(w, pt, img) && p < |img| && Backs(w, pt, p, a)
    ensures User(Fill(w, a, f), pt, Put(img, p, f)) && Apart(w, Fill(w, a, f), pt) && Ok(Fill(w, a, f))
  {
    var v := Fill(w, a, f);
    FillOk(w, a, f);
    UserPageOwner(w, pt, |img|, true, true, p);
    WriteApart(w, pt, a, f);
    hide Ok, Space, Lookup;
    forall i | 0 <= i < |img| ensures PageOf(v, pt, i) == Put(img, p, f)[i] {
      UserPageOwner(w, pt, |img|, true, true, i);
      if i != p { SlotsDiffer(w, pt, |img|, i, p); }
      assert Image(w, pt, |img|)[i] == PageOf(w, pt, i);
    }
    assert Image(v, pt, |img|) == Put(img, p, f);
  }

  lemma SlotsDiffer(w: World, pt: nat, n: nat, i: nat, p: nat)
    requires Space(w.mem, pt, n, true, true) && i < n && p < n && i != p
    ensures PageSlot(pt, i) != PageSlot(pt, p)
  {
    PageSlotVpn(pt, i);
    PageSlotVpn(pt, p);
  }

  lemma WriteApart(w: World, pt: nat, a: nat, f: Frame)
    requires a in w.owner && w.owner[a].pt == pt
    ensures Apart(w, Fill(w, a, f), pt)
  {
    hide Entry;
  }

  /** User access to a page, read off its entry. */
  lemma UserReach(w: World, pt: nat, img: seq<UserPage>, vpn: nat)
    requires User(w, pt, img) && vpn < MAXVPN && pt in w.mem.roots && Lookup(w.mem, pt, vpn).v
    ensures Lookup(w.mem, pt, vpn).u <==> vpn < |img| && img[vpn].perm.u
    ensures var a := Lookup(w.mem, pt, vpn).ppn;
            vpn < |img| ==> a != 0 && Backs(w, pt, vpn, a) && a in w.bytes && w.bytes[a] == img[vpn].data
  {
    SpaceAt(w.mem, pt, |img|, true, true, vpn);
    if vpn < |img| {
      UserPageOwner(w, pt, |img|, true, true, vpn);
      assert Image(w, pt, |img|)[vpn] == PageOf(w, pt, vpn);
    }
  }

  /** Dropping the user flag of one page. */
  lemma ClearU(w: World, pt: nat, img: seq<UserPage>, p: nat, q: nat)
    requires User(w, pt, img) && p < |img| && q in w.mem.tables && Holds(w.mem, Parent(PageSlot(pt, p)), q)
    ensures var e := w.mem.tables[q][p % 512].(u := false);
            var v := Written(w, PageSlot(pt, p), q, e);
            Ok(v) && Apart(w, v, pt) && User(v, pt, img[p := img[p].(perm := img[p].perm.(u := false))])
  {
    SpaceRoot(w.mem, pt, |img|);
    var e := w.mem.tables[q][p % 512].(u := false);
    var v := Written(w, PageSlot(pt, p), q, e);
    UserPageOwner(w, pt, |img|, true, true, p);
    WrittenSame(w, PageSlot(pt, p), q, e);
    WrittenOk(w, pt, p, q, e);
    WrittenSpace(w.mem, v.mem, pt, |img|, p, e);
    hide Ok, Space, Entry, AddrOf, SameExcept;
    var next := img[p := img[p].(perm := img[p].perm.(u := false))];
    forall i | 0 <= i < |img| ensures PageOf(v, pt, i) == next[i] {
      LookupWritten(w.mem, v.mem, pt, p, i);
      assert Image(w, pt, |img|)[i] == PageOf(w, pt, i);
    }
    assert Image(v, pt, |img|) == next;
  }

  lemma LookupWritten(m: Mem, n: Mem, pt: nat, p: nat, i: nat)
    requires pt in m.roots && SameExcept(m, n, PageSlot(pt, p)) && i < TRAPFRAME && p < TRAPFRAME
    ensures i != p ==> Lookup(n, pt, i) == Lookup(m, pt, i)
  {
    hide Entry, AddrOf;
    PageSlotVpn(pt, i);
    PageSlotVpn(pt, p);
  }

  lemma WrittenSpace(m: Mem, n: Mem, pt: nat, k: nat, p: nat, e: Pte)
    requires Space(m, pt, k, true, true) && p < k && SameExcept(m, n, PageSlot(pt, p)) && ValidSlot(n, PageSlot(pt, p))
    requires Entry(n, PageSlot(pt, p)) == e && e.v
    ensures Space(n, pt, k, true, true)
  {
    hide AddrOf, Entry;
    OnlyPage(m, n, pt, p);
    PageSlotVpn(pt, p);
    hide Vpn;
  }

  /** Changing the flags of a mapped page. */
  lemma WrittenOk(w: World, pt: nat, p: nat, q: nat, e: Pte)
    requires Ok(w) && pt in w.mem.roots && p < TRAPFRAME && q in w.mem.tables
             && Holds(w.mem, Parent(PageSlot(pt, p)), q)
    requires IsLeaf(Lookup(w.mem, pt, p)) && IsLeaf(e) && e.ppn == Lookup(w.mem, pt, p).ppn
    ensures Ok(Written(w, PageSlot(pt, p), q, e)) && Apart(w, Written(w, PageSlot(pt, p), q, e), pt)
  {
    hide Owned, KindsOk, Conserved, Entry, AddrOf;
    var t := PageSlot(pt, p);
    WrittenSame(w, t, q, e);
    var v := Written(w, t, q, e);
    PageNonzero(w.mem, t);
    EntryAddr(w.mem, t);
    NewKinds(w.mem, v.mem, t);
    KeepOwner(w.mem, v.mem, w.owner, t);
    SameConserved(w, v);
    ApartPages(w, v, pt);
  }
}

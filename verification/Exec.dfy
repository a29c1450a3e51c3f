/** exec (exec.c): a whole address space is built beside the old one, then takes its
    place or is undone. */
module Exec {
  import opened Basics
  import opened PageTable
  import opened Vm
  import opened FreeTables
  import opened UserImage
  import opened UserMemory
  import opened Process
  import opened ExecImage

  /** loadseg (exec.c:135-154): copies file data into mapped pages, one page at a time. */
  method Loadseg(mem: Memory, pt: nat, va: nat, data: seq<Byte>, sz: nat, ghost img: seq<UserPage>)
    returns (ok: bool, ghost now: seq<UserPage>)
    requires User(mem.W(), pt, img) && AllOpen(img) && va % PGSIZE == 0 && sz < TWO32 - PGSIZE
    requires PagesOf(va + sz) <= |img|
    modifies mem`free, mem`tables, mem`bytes, mem`owner, mem`held
    ensures Ok(mem.W()) && Apart(old(mem.W()), mem.W(), pt) && mem.held == old(mem.held) && mem.roots == old(mem.roots)
    ensures User(mem.W(), pt, now) && |now| == |img| && mem.free == old(mem.free)
    ensures ok <==> sz <= |data|
    ensures ok ==> now == StoreAt(img, va, data[..sz])
  {
    hide Ok, Apart, Entry, User, Stored, Reach, Backs, AllOpen, PagesOf, StoreAt, Patch, Put;
    ghost var w := mem.W();
    UserOk(w, pt, img);
    StartStep(w, pt);
    var all := if sz <= |data| then data[..sz] else data;
    now := img;
    StoredNone(img, va, all);
    var i := 0;
    while i < sz
      invariant i % PGSIZE == 0 && (i <= |all| || (sz <= i && |all| == sz))
      invariant User(mem.W(), pt, now) && Stored(img, now, va, all, if i <= |all| then i else |all|) && |now| == |img|
      invariant Ok(mem.W()) && Apart(w, mem.W(), pt) && mem.held == w.held && mem.roots == w.mem.roots
                && mem.free == w.free
    {
      ghost var v := mem.W();
      LoadPage(va, i, sz, |img|);
      OpenReach(img, va + i);
      ReachStored(img, now, va, all, i, va + i);
      ReachPage(now, va + i);
      var pa := mem.Walkaddr(pt, va + i, now);
      var n := if sz - i < PGSIZE then sz - i else PGSIZE;
      var got := if |all| - i < n then |all| - i else n;
      var f: Frame := Patch(mem.bytes[pa], 0, all[i..i + got]);
      UserWrite(v, pt, now, (va + i) / PGSIZE, pa, f);
      mem.bytes := mem.bytes[pa := f];
      assert mem.W() == Fill(v, pa, f);
      ApartTrans(w, v, mem.W(), pt);
      StoredMore(img, now, va, all, i, got);
      PutLength(now, (va + i) / PGSIZE, f);
      now := Put(now, (va + i) / PGSIZE, f);
      if got != n { return false, now; }
      i := i + PGSIZE;
    }
    if sz == 0 { assert data[..0] == []; }
    StoredIs(img, now, va, all);
    ok := true;
  }

  lemma LoadPage(va: nat, i: nat, sz: nat, n: nat)
    requires va % PGSIZE == 0 && i % PGSIZE == 0 && i < sz && PagesOf(va + sz) <= n
    ensures (va + i) % PGSIZE == 0 && (va + i) / PGSIZE < n
  {
  }

  lemma PutLength(img: seq<UserPage>, p: nat, f: Frame)
    requires p < |img|
    ensures |Put(img, p, f)| == |img|
  {
  }

  /** Building does not disturb what is outside page table pt. */
  ghost predicate Built(w: World, v: World, pt: nat, img: seq<UserPage>) {
    Ok(v) && Apart(w, v, pt) && v.held == w.held && v.mem.roots == w.mem.roots && User(v, pt, img)
  }

  lemma BuiltMore(w: World, v: World, u: World, pt: nat, img: seq<UserPage>, now: seq<UserPage>)
    requires Built(w, v, pt, img) && Ok(u) && Apart(v, u, pt) && u.held == v.held && u.mem.roots == v.mem.roots
             && User(u, pt, now)
    ensures Built(w, u, pt, now)
  {
    hide Ok, Apart, User;
    ApartTrans(w, v, u, pt);
  }

  /** One program header to load (exec.c:47-58); sz is the size so far. */
  method LoadSegment(mem: Memory, pt: nat, ph: Segment, sz: nat, ghost was: seq<UserPage>, ghost w: World)
    returns (ok: bool, newsz: nat, ghost now: seq<UserPage>)
    requires Built(w, mem.W(), pt, was) && |was| == PagesOf(sz) && AllOpen(was)
    requires ph.load && Fields64(ph) && |mem.pages| <= 0x8000
    modifies mem`free, mem`tables, mem`bytes, mem`owner, mem`held
    ensures Built(w, mem.W(), pt, now) && |now| == PagesOf(newsz)
    ensures ok ==> !Bad(ph, sz) && now == LoadOne(was, ph) && AllOpen(now)
    ensures ok ==> newsz == if ph.vaddr + ph.memsz >= sz then ph.vaddr + ph.memsz else sz
    ensures ok ==> |mem.free| + 3 * |now| >= |old(mem.free)| + 3 * |was|
    ensures !ok ==> Bad(ph, sz) || |old(mem.free)| + 3 * |was| < 3 * PagesOf(ph.vaddr + ph.memsz)
  {
    hide Ok, Apart, Entry, User, PagesOf, AllOpen, LoadOne, Built, Grown, Bad, ZeroGrown, SegmentSpace;
    BadIs(ph, sz);
    newsz, now := sz, was;
    if ph.memsz < ph.filesz { return false, newsz, now; }
    if (ph.vaddr + ph.memsz) % TWO64 < ph.vaddr { return false, newsz, now; }
    ghost var v := mem.W();
    BuiltUser(w, v, pt, was);
    var sz1 := mem.Uvmalloc(pt, sz, ph.vaddr + ph.memsz, was);
    if sz1 == 0 {
      NoGrowth(was, sz, ph.vaddr + ph.memsz, mem.W(), pt);
      BuiltMore(w, v, mem.W(), pt, was, was);
      return false, newsz, now;
    }
    now := SegmentSpace(was, ph);
    Rounding(sz, ph.vaddr + ph.memsz);
    SegmentGrown(was, sz, sz1, ph, mem.W(), pt);
    BuiltMore(w, v, mem.W(), pt, was, now);
    newsz := sz1;
    if ph.vaddr % PGSIZE != 0 { return false, newsz, now; }
    BuiltUser(w, mem.W(), pt, now);
    SegmentFits(mem.W(), pt, now, ph);
    SpaceOpen(was, ph);
    ghost var u, room := mem.W(), now;
    ok, now := Loadseg(mem, pt, ph.vaddr, ph.data, ph.filesz % TWO32, room);
    BuiltMore(w, u, mem.W(), pt, room, now);
    if ok { LoadedOne(was, room, now, ph); }
  }

  /** The loop over program headers (exec.c:42-59); None is a header that cannot be read. */
  method LoadSegments(mem: Memory, pt: nat, segs: seq<Option<Segment>>)
    returns (ok: bool, sz: nat, ghost now: seq<UserPage>)
    requires User(mem.W(), pt, []) && |mem.pages| <= 0x8000
    requires forall i :: 0 <= i < |segs| && segs[i].Some? ==> Fields64(segs[i].value)
    modifies mem`free, mem`tables, mem`bytes, mem`owner, mem`held
    ensures Built(old(mem.W()), mem.W(), pt, now) && |now| == PagesOf(sz)
    ensures ok ==> (forall i :: 0 <= i < |segs| ==> segs[i].Some?) && now == LoadAll(Headers(segs)) && AllOpen(now)
    ensures ok ==> Accepted(Headers(segs)) && sz == SizeAfter(Headers(segs))
    ensures ok ==> |mem.free| + 3 * |now| >= |old(mem.free)|
    ensures !ok ==> exists i :: 0 <= i < |segs| && Stops(segs, i, |old(mem.free)|)
  {
    hide Ok, Apart, Entry, User, PagesOf, AllOpen, LoadOne, LoadAll, Headers, Built, Grown, SizeAfter, Accepted, Stops,
         Bad;
    ghost var w := mem.W();
    StartBuild(w, pt);
    sz, now := 0, [];
    EmptyLoad();
    var i := 0;
    while i < |segs|
      invariant i <= |segs| && Built(w, mem.W(), pt, now) && |now| == PagesOf(sz)
      invariant (forall j :: 0 <= j < i ==> segs[j].Some?) && now == LoadAll(Headers(segs[..i])) && AllOpen(now)
      invariant |mem.free| + 3 * |now| >= |w.free|
      invariant Accepted(Headers(segs[..i])) && sz == SizeAfter(Headers(segs[..i]))
    {
      StopsAt(segs, i, sz, |w.free|);
      if segs[i].None? { return false, sz, now; }
      var ph := segs[i].value;
      NextHeader(segs, i);
      if ph.load {
        ok, sz, now := LoadSegment(mem, pt, ph, sz, now, w);
        if !ok { return false, sz, now; }
      } else {
        BadIs(ph, sz);
        SkippedOne(now, ph);
      }
      i := i + 1;
    }
    assert segs[..i] == segs;
    ok := true;
  }

  /** Header i makes the load fail: unreadable, refused, or too big for the free pages. */
  predicate Stops(segs: seq<Option<Segment>>, i: nat, free: nat)
    requires i < |segs|
  {
    && (forall j :: 0 <= j < i ==> segs[j].Some?)
    && (segs[i].None? || Bad(segs[i].value, SizeAfter(Headers(segs[..i])))
        || (segs[i].value.load && free < 3 * PagesOf(segs[i].value.vaddr + segs[i].value.memsz)))
  }

  lemma StopsAt(segs: seq<Option<Segment>>, i: nat, sz: nat, free: nat)
    requires i < |segs| && (forall j :: 0 <= j < i ==> segs[j].Some?) && sz == SizeAfter(Headers(segs[..i]))
    ensures segs[i].None? || Bad(segs[i].value, sz)
            || (segs[i].value.load && free < 3 * PagesOf(segs[i].value.vaddr + segs[i].value.memsz)) ==>
              Stops(segs, i, free)
  {
  }

  /** The tests of the loop, one by one. */
  lemma BadIs(s: Segment, sz: nat)
    requires Fields64(s)
    ensures Bad(s, sz) <==>
              s.load && (s.memsz < s.filesz || (s.vaddr + s.memsz) % TWO64 < s.vaddr || s.vaddr % PGSIZE != 0
                  || |s.data| < s.filesz || (s.vaddr + s.memsz == 0 && sz == 0))
  {
  }

  /** ELF header fields are 64-bit. */
  predicate Fields64(s: Segment) {
    s.vaddr < TWO64 && s.memsz < TWO64 && s.filesz < TWO64
  }

  function Headers(segs: seq<Option<Segment>>): (r: seq<Segment>)
    requires forall i :: 0 <= i < |segs| ==> segs[i].Some?
    ensures |r| == |segs|
  {
    seq(|segs|, i requires 0 <= i < |segs| => segs[i].value)
  }

  /** The room made for a segment. */
  function SegmentSpace(img: seq<UserPage>, s: Segment): seq<UserPage> {
    if PagesOf(s.vaddr + s.memsz) >= |img| then Grown(img, PagesOf(s.vaddr + s.memsz)) else img
  }

  lemma StartBuild(w: World, pt: nat)
    requires User(w, pt, [])
    ensures Built(w, w, pt, [])
  {
    UserOk(w, pt, []);
    StartStep(w, pt);
  }

  lemma BuiltUser(w: World, v: World, pt: nat, img: seq<UserPage>)
    requires Built(w, v, pt, img)
    ensures User(v, pt, img) && Ok(v)
  {
  }

  lemma EmptyLoad()
    ensures LoadAll(Headers([])) == [] && AllOpen([]) && PagesOf(0) == 0
    ensures Accepted(Headers([])) && SizeAfter(Headers([])) == 0
  {
  }

  lemma NextHeader(segs: seq<Option<Segment>>, i: nat)
    requires i < |segs| && forall j :: 0 <= j <= i ==> segs[j].Some?
    ensures LoadAll(Headers(segs[..i + 1])) == LoadOne(LoadAll(Headers(segs[..i])), segs[i].value)
    ensures var s, sz := segs[i].value, SizeAfter(Headers(segs[..i]));
            SizeAfter(Headers(segs[..i + 1])) == if s.load && s.vaddr + s.memsz >= sz then s.vaddr + s.memsz else sz
    ensures Accepted(Headers(segs[..i])) && !Bad(segs[i].value, SizeAfter(Headers(segs[..i]))) ==>
              Accepted(Headers(segs[..i + 1]))
  {
    hide Bad;
    var h := Headers(segs[..i + 1]);
    assert h[..|h| - 1] == Headers(segs[..i]);
    if Accepted(Headers(segs[..i])) && !Bad(segs[i].value, SizeAfter(Headers(segs[..i]))) { AcceptedMore(h); }
  }

  lemma NoGrowth(img: seq<UserPage>, sz: nat, newsz: nat, w: World, pt: nat)
    requires |img| == PagesOf(sz) && (newsz < sz ==> sz == 0)
    requires newsz >= sz ==> (newsz == 0 && User(w, pt, Grown(img, PagesOf(newsz)))) || User(w, pt, img)
    ensures User(w, pt, img)
  {
    hide User;
    if newsz == 0 { assert Grown(img, PagesOf(newsz)) == img; }
  }

  lemma SegmentGrown(img: seq<UserPage>, sz: nat, sz1: nat, s: Segment, w: World, pt: nat)
    requires |img| == PagesOf(sz) && sz1 != 0
    requires s.vaddr + s.memsz < sz ==> sz1 == sz && User(w, pt, img)
    requires s.vaddr + s.memsz >= sz ==>
               PagesOf(s.vaddr + s.memsz) >= |img| && sz1 == s.vaddr + s.memsz
                   && User(w, pt, Grown(img, PagesOf(s.vaddr + s.memsz)))
    ensures User(w, pt, SegmentSpace(img, s)) && |SegmentSpace(img, s)| == PagesOf(sz1)
    ensures PagesOf(s.vaddr + s.memsz) <= |SegmentSpace(img, s)|
  {
    hide User;
    Rounding(s.vaddr + s.memsz, sz);
    assert Grown(img, |img|) == img;
  }

  lemma SegmentFits(w: World, pt: nat, img: seq<UserPage>, s: Segment)
    requires User(w, pt, img) && |w.pages| <= 0x8000 && PagesOf(s.vaddr + s.memsz) <= |img| && s.filesz <= s.memsz
    ensures s.filesz % TWO32 == s.filesz < TWO32 - PGSIZE && PagesOf(s.vaddr + s.filesz) <= |img|
  {
    SpaceFits(w, pt, |img|, true, true);
  }

  lemma SpaceOpen(img: seq<UserPage>, s: Segment)
    requires AllOpen(img)
    ensures AllOpen(SegmentSpace(img, s))
  {
  }

  lemma LoadedOne(img: seq<UserPage>, room: seq<UserPage>, now: seq<UserPage>, s: Segment)
    requires AllOpen(img) && s.load && room == SegmentSpace(img, s) && s.filesz <= |s.data|
    requires now == StoreAt(room, s.vaddr, s.data[..s.filesz])
    ensures now == LoadOne(img, s) && AllOpen(now)
  {
    LoadOneOpen(img, s);
  }

  lemma SkippedOne(img: seq<UserPage>, s: Segment)
    requires AllOpen(img) && !s.load
    ensures img == LoadOne(img, s) && AllOpen(img)
  {
  }

  /** Pushing the argument strings and the argv array (exec.c:79-98). The stack top is
      the end of memory; the page below the stack page is closed to user code. */
  method PushArgs(mem: Memory, pt: nat, args: seq<seq<Byte>>, ghost img: seq<UserPage>, sz: nat)
    returns (ok: bool, sp: nat, ghost ustack: seq<nat>, ghost now: seq<UserPage>)
    requires User(mem.W(), pt, WithStack(img)) && sz == (|img| + 2) * PGSIZE
    requires |args| < MAXARG && forall i :: 0 <= i < |args| ==> |args[i]| < PGSIZE
    modifies mem`free, mem`tables, mem`bytes, mem`owner, mem`held
    ensures Built(old(mem.W()), mem.W(), pt, now) && BelowSame(WithStack(img), now)
    ensures ok <==> FinalSp(sz, args) >= sz - PGSIZE
    ensures ok ==> |ustack| == |args| && ArgsAt(now, args, ustack, sp) && Fetched(now, sp, Pointers(ustack))
    ensures ok ==> sp == FinalSp(sz, args) && ArgvAt(now, sp, args) && sp % 16 == 0
  {
    hide Ok, Apart, User, Built, Stored, Fetched, ArgsAt, BelowSame, WithStack, Pointers, Reach, ArgvAt;
    ghost var w := mem.W();
    BuiltSelf(w, pt, WithStack(img));
    var stackbase := sz - PGSIZE;
    sp, now, ustack := sz, WithStack(img), [];
    var us: seq<nat> := [];
    NoArgs(now, args, sp);
    var argc := 0;
    while argc < |args|
      invariant argc <= |args| && |us| == argc && us == ustack && stackbase <= sp <= sz && sp == SpAfter(sz, args, argc)
      invariant Built(w, mem.W(), pt, now) && BelowSame(WithStack(img), now) && ArgsAt(now, args, ustack, sp)
    {
      var s := Aligned(sp - (|args[argc]| + 1));
      if s < stackbase {
        SpGoesDown(sz, args, argc + 1, |args|);
        return false, sp, ustack, now;
      }
      ghost var was := now;
      now := PushBytes(mem, pt, s, args[argc] + [0], img, was, w);
      Pushed(img, was, now, args, us, sp, s);
      sp, us, ustack := s, us + [s], ustack + [s];
      argc := argc + 1;
    }
    var s := Aligned(sp - (argc + 1) * 8);
    if s < stackbase { return false, sp, ustack, now; }
    ghost var was := now;
    now := PushBytes(mem, pt, s, Pointers(us), img, was, w);
    PushKeeps(was, now, args, ustack, sp, s, Pointers(us));
    StoredFetched(was, now, s, Pointers(us));
    BuiltUser(w, mem.W(), pt, now);
    UserOk(mem.W(), pt, now);
    ArgvIs(now, args, ustack, s);
    sp, ok := s, true;
  }

  /** A copyout to the stack page, which cannot fail. */
  method PushBytes(mem: Memory, pt: nat, s: nat, src: seq<Byte>, ghost img: seq<UserPage>, ghost was: seq<UserPage>,
                   ghost w: World)
    returns (ghost now: seq<UserPage>)
    requires Built(w, mem.W(), pt, was) && BelowSame(WithStack(img), was)
    requires (|img| + 1) * PGSIZE <= s && s + |src| <= (|img| + 2) * PGSIZE
    modifies mem`free, mem`tables, mem`bytes, mem`owner, mem`held
    ensures Built(w, mem.W(), pt, now) && Stored(was, now, s, src, |src|) && BelowSame(WithStack(img), now)
  {
    hide Ok, Apart, User, Built, Stored, BelowSame, WithStack, Reach;
    ghost var v := mem.W();
    BuiltUser(w, v, pt, was);
    var copied;
    ghost var k;
    copied, k, now := mem.Copyout(pt, s, src, was);
    BuiltMore(w, v, mem.W(), pt, was, now);
    if !copied {
      StackOpen(img, was, s + k);
      assert false;
    }
    StackStored(img, was, now, s, src);
  }

  lemma BuiltSelf(w: World, pt: nat, img: seq<UserPage>)
    requires User(w, pt, img)
    ensures Built(w, w, pt, img)
  {
    UserOk(w, pt, img);
    StartStep(w, pt);
  }

  lemma NoArgs(img: seq<UserPage>, args: seq<seq<Byte>>, sp: nat)
    ensures ArgsAt(img, args, [], sp) && BelowSame(img, img)
  {
  }

  lemma StackOpen(img: seq<UserPage>, now: seq<UserPage>, x: nat)
    requires BelowSame(WithStack(img), now) && (|img| + 1) * PGSIZE <= x < (|img| + 2) * PGSIZE
    ensures Reach(now, x)
  {
    StackReach(img, now, x);
  }

  lemma StackStored(img: seq<UserPage>, was: seq<UserPage>, now: seq<UserPage>, va: nat, src: seq<Byte>)
    requires BelowSame(WithStack(img), was) && Stored(was, now, va, src, |src|) && (|img| + 1) * PGSIZE <= va
    ensures BelowSame(WithStack(img), now)
  {
    hide Stored;
    assert |was| == |img| + 2;
    StoredTop(was, now, va, src);
    BelowTrans(WithStack(img), was, now);
  }

  /** One more argument: it is in place, and so are those before it. */
  lemma Pushed(img: seq<UserPage>, was: seq<UserPage>, now: seq<UserPage>, args: seq<seq<Byte>>, us: seq<nat>,
               sp: nat, s: nat)
    requires BelowSame(WithStack(img), was) && ArgsAt(was, args, us, sp) && |us| < |args|
    requires Stored(was, now, s, args[|us|] + [0], |args[|us|]| + 1) && s + |args[|us|]| + 1 <= sp
             && (|img| + 1) * PGSIZE <= s
    ensures BelowSame(WithStack(img), now) && ArgsAt(now, args, us + [s], s)
  {
    hide Stored, Fetched, WithStack, BelowSame;
    var src := args[|us|] + [0];
    StackStored(img, was, now, s, src);
    PushKeeps(was, now, args, us, sp, s, src);
    StoredFetched(was, now, s, src);
  }

  /** Readable and acceptable headers, enough free pages, and arguments that fit on the stack. */
  ghost predicate Executable(headerOk: bool, segs: seq<Option<Segment>>, args: seq<seq<Byte>>, free: nat) {
    && headerOk && (forall i :: 0 <= i < |segs| ==> segs[i].Some?) && Accepted(Headers(segs))
    && free >= 5 + 3 * |LoadAll(Headers(segs))| + 6
    && FinalSp((|LoadAll(Headers(segs))| + 2) * PGSIZE, args) >= (|LoadAll(Headers(segs))| + 1) * PGSIZE
  }

  /** Then no header stops the load. */
  lemma NoneStops(segs: seq<Option<Segment>>, free: nat, i: nat)
    requires (forall j :: 0 <= j < |segs| ==> segs[j].Some?) && Accepted(Headers(segs)) && i < |segs|
    requires free >= 3 * |LoadAll(Headers(segs))|
    ensures !Stops(segs, i, free)
  {
    hide PagesOf, LoadAll, Bad, SizeAfter;
    assert Headers(segs)[..i] == Headers(segs[..i]);
    assert !Bad(Headers(segs)[i], SizeAfter(Headers(segs)[..i]));
    if segs[i].value.load { LoadCovers(Headers(segs), i); }
  }

  /** The new address space (exec.c:41-98), in page table pt. */
  method BuildImage(mem: Memory, pt: nat, segs: seq<Option<Segment>>, args: seq<seq<Byte>>)
    returns (ok: bool, sz: nat, sp: nat, ghost ustack: seq<nat>, ghost now: seq<UserPage>)
    requires User(mem.W(), pt, []) && |mem.pages| <= 0x8000
    requires forall i :: 0 <= i < |segs| && segs[i].Some? ==> Fields64(segs[i].value)
    requires |args| < MAXARG && forall i :: 0 <= i < |args| ==> |args[i]| < PGSIZE
    modifies mem`free, mem`tables, mem`bytes, mem`owner, mem`held
    ensures Built(old(mem.W()), mem.W(), pt, now) && |now| == PagesOf(sz)
    ensures ok ==> (forall i :: 0 <= i < |segs| ==> segs[i].Some?) && Accepted(Headers(segs))
    ensures ok ==> BelowSame(WithStack(LoadAll(Headers(segs))), now) && sz == (|LoadAll(Headers(segs))| + 2) * PGSIZE
    ensures ok ==> Program(now, Headers(segs), PagesOf(SizeAfter(Headers(segs))))
    ensures ok ==> ArgsAt(now, args, ustack, sp) && |ustack| == |args| && Fetched(now, sp, Pointers(ustack))
    ensures ok ==> sp == FinalSp(sz, args) && ArgvAt(now, sp, args) && sp % 16 == 0
    ensures !ok ==> || (exists i :: 0 <= i < |segs| && Stops(segs, i, |old(mem.free)|))
                    || ((forall i :: 0 <= i < |segs| ==> segs[i].Some?) && NoRoom(segs, args, |old(mem.free)|))
  {
    hide Ok, Apart, User, Built, Stored, Fetched, ArgsAt, BelowSame, WithStack, Pointers, LoadAll, Headers, AllOpen,
         Grown, Accepted, SizeAfter, Stops, ArgvAt, Program, PagesOf, FinalSp;
    ghost var v := mem.W();
    ghost var loaded;
    sp, ustack := 0, [];
    ok, sz, loaded := LoadSegments(mem, pt, segs);
    now := loaded;
    if !ok { return; }
    ghost var x := mem.W();
    BuiltUser(v, x, pt, loaded);
    ok, sz, now := AddStack(mem, pt, sz, loaded);
    BuiltTrans(v, x, mem.W(), pt, loaded, now);
    if !ok { return; }
    x := mem.W();
    BuiltUser(v, x, pt, now);
    ok, sp, ustack, now := PushArgs(mem, pt, args, loaded, sz);
    BuiltTrans(v, x, mem.W(), pt, WithStack(loaded), now);
    SameLength(WithStack(loaded), now);
    if ok { ProgramIs(Headers(segs), now); }
  }

  /** Too few pages for the stack, or too small a stack page for the arguments. */
  ghost predicate NoRoom(segs: seq<Option<Segment>>, args: seq<seq<Byte>>, free: nat)
    requires forall i :: 0 <= i < |segs| ==> segs[i].Some?
  {
    var n := |LoadAll(Headers(segs))|;
    free < 3 * n + 6 || FinalSp((n + 2) * PGSIZE, args) < (n + 1) * PGSIZE
  }

  /** exec (exec.c:12-129): on failure every page is back where it was and the process
      is as before; on success the process has the new image with its arguments on the
      stack, and every page of the old one has gone back. */
  method ReplaceImage(mem: Memory, p: Proc, trampoline: nat, headerOk: bool, segs: seq<Option<Segment>>,
                      args: seq<seq<Byte>>, ghost img: seq<UserPage>)
    returns (r: int, sp: nat, ghost ustack: seq<nat>, ghost now: seq<UserPage>)
    requires p.Sees(mem.W(), img) && trampoline != 0 && p.trapframe != 0 && |mem.pages| <= 0x8000
    requires forall i :: 0 <= i < |segs| && segs[i].Some? ==> Fields64(segs[i].value)
    requires |args| < MAXARG && forall i :: 0 <= i < |args| ==> |args[i]| < PGSIZE
    modifies p`pt, p`sz, mem`free, mem`tables, mem`bytes, mem`roots, mem`owner, mem`held
    ensures r == -1 || r == |args|
    ensures r == -1 ==>
              Restored(old(mem.W()), mem.W()) && p.pt == old(p.pt) && p.sz == old(p.sz) && p.Sees(mem.W(), img)
    ensures r >= 0 ==> headerOk && (forall i :: 0 <= i < |segs| ==> segs[i].Some?) && Accepted(Headers(segs))
    ensures r >= 0 ==> p.Sees(mem.W(), now) && p.sz == (|LoadAll(Headers(segs))| + 2) * PGSIZE
    ensures r >= 0 ==> BelowSame(WithStack(LoadAll(Headers(segs))), now)
    ensures r >= 0 ==> ArgsAt(now, args, ustack, sp) && |ustack| == |args| && Fetched(now, sp, Pointers(ustack))
    ensures r >= 0 ==> sp == FinalSp(p.sz, args) && ArgvAt(now, sp, args) && sp % 16 == 0
    ensures r >= 0 ==> Program(now, Headers(segs), PagesOf(SizeAfter(Headers(segs))))
    ensures Executable(headerOk, segs, args, |old(mem.free)|) ==> r >= 0
    ensures r >= 0 ==> Replaced(old(mem.W()), mem.W(), old(p.pt), p.pt)
  {
    hide Ok, Apart, User, Space, Lookup, Restored, Released, Built, Stored, Fetched, ArgsAt, BelowSame, WithStack,
         Pointers, LoadAll, Headers, AllOpen, Grown, Replaced, Accepted, SizeAfter, Stops, ArgvAt,
         Program, PagesOf;
    ghost var w := mem.W();
    r, sp, ustack, now := -1, 0, [], [];
    UserOk(w, p.pt, img);
    if !headerOk {
      RestoredSelf(w);
      return;
    }
    var npt := mem.ProcPagetable(trampoline, p.trapframe);
    if npt.None? {
      UserRestored(w, mem.W(), p.pt, img);
      RestoredOk(w, mem.W(), 0);
      return;
    }
    var pt := npt.value;
    ghost var v := mem.W();
    EmptySpace(v, pt);
    var ok, sz;
    ok, sz, sp, ustack, now := BuildImage(mem, pt, segs, args);
    if !ok && Executable(headerOk, segs, args, |w.free|) {
      LoadsIfExecutable(headerOk, segs, args, |w.free|, |v.free|);
    }
    var oldsz := p.sz;
    if !ok {
      Undo(mem, pt, sz, now, w, v);
      UserRestored(w, mem.W(), p.pt, img);
      RestoredOk(w, mem.W(), 0);
      return;
    }
    ghost var u := mem.W();
    Committing(w, v, u, p.pt, pt, img, now);
    var oldpt := p.pt;
    p.pt, p.sz := pt, sz;
    mem.ProcFreepagetable(oldpt, oldsz);
    Committed(w, u, mem.W(), oldpt, pt, now);
    r := |args|;
  }

  lemma LoadsIfExecutable(headerOk: bool, segs: seq<Option<Segment>>, args: seq<seq<Byte>>, was: nat, free: nat)
    requires Executable(headerOk, segs, args, was) && free + 5 >= was
    ensures !exists i :: 0 <= i < |segs| && Stops(segs, i, free)
    ensures !NoRoom(segs, args, free)
  {
    hide Stops, LoadAll, Bad, Accepted;
    forall i | 0 <= i < |segs| ensures !Stops(segs, i, free) { NoneStops(segs, free, i); }
  }

  /** The stack pages (exec.c:69-74). */
  method AddStack(mem: Memory, pt: nat, sz0: nat, ghost img: seq<UserPage>)
    returns (ok: bool, sz: nat, ghost now: seq<UserPage>)
    requires User(mem.W(), pt, img) && |img| == PagesOf(sz0)
    modifies mem`free, mem`tables, mem`bytes, mem`owner, mem`held
    ensures Built(old(mem.W()), mem.W(), pt, now) && |now| == PagesOf(sz)
    ensures ok ==> sz == (|img| + 2) * PGSIZE && now == WithStack(img)
    ensures !ok ==> |old(mem.free)| < 6
  {
    hide Ok, Apart, User, Built, PagesOf;
    ghost var w := mem.W();
    BuiltSelf(w, pt, img);
    now := img;
    sz := PagesOf(sz0) * PGSIZE;
    Rounding(sz, sz + 2 * PGSIZE);
    Rounding(sz + 2 * PGSIZE, 0);
    Rounding(sz0, 0);
    var sz1 := mem.Uvmalloc(pt, sz, sz + 2 * PGSIZE, img);
    if sz1 == 0 {
      BuiltMore(w, w, mem.W(), pt, img, img);
      return false, sz, now;
    }
    ghost var v := mem.W();
    now := Grown(img, |img| + 2);
    BuiltMore(w, w, v, pt, img, now);
    sz := sz1;
    mem.Uvmclear(pt, sz - 2 * PGSIZE, now);
    BuiltMore(w, v, mem.W(), pt, now, WithStack(img));
    now := WithStack(img);
    ok := true;
  }

  lemma SameLength(img: seq<UserPage>, now: seq<UserPage>)
    requires BelowSame(img, now)
    ensures |now| == |img|
  {
  }

  lemma BuiltTrans(w: World, v: World, u: World, pt: nat, img: seq<UserPage>, now: seq<UserPage>)
    requires Built(w, v, pt, img) && Built(v, u, pt, now)
    ensures Built(w, u, pt, now)
  {
    hide Ok, Apart, User;
    ApartTrans(w, v, u, pt);
  }

  /** The bad exit of exec (exec.c:122-128). */
  method Undo(mem: Memory, pt: nat, sz: nat, ghost now: seq<UserPage>, ghost w: World, ghost v: World)
    requires Ok(w) && Apart(w, v, pt) && v.held == w.held && pt !in w.mem.roots
    requires Built(v, mem.W(), pt, now) && |now| == PagesOf(sz)
    modifies mem`free, mem`tables, mem`bytes, mem`roots, mem`owner, mem`held
    ensures Restored(w, mem.W())
  {
    hide Ok, Apart, User, Space, Restored, Released;
    ghost var u := mem.W();
    ApartTrans(w, v, u, pt);
    UserOk(u, pt, now);
    mem.ProcFreepagetable(pt, sz);
    GoneAgain(w, u, mem.W(), pt);
  }

  /** Just before the switch both images are there. */
  lemma Committing(w: World, v: World, u: World, oldpt: nat, pt: nat, img: seq<UserPage>, now: seq<UserPage>)
    requires User(w, oldpt, img) && Apart(w, v, pt) && v.held == w.held && pt !in w.mem.roots
    requires v.mem.roots == w.mem.roots + {pt} && Built(v, u, pt, now)
    ensures Ok(u) && Space(u.mem, oldpt, |img|, true, true) && User(u, pt, now) && u.held == w.held && oldpt != pt
    ensures Apart(w, u, pt) && u.mem.roots == w.mem.roots + {pt}
  {
    UserOk(w, oldpt, img);
    hide Ok, Apart, User;
    ApartTrans(w, v, u, pt);
    UserApart(w, u, pt, oldpt, img);
    UserOk(u, oldpt, img);
  }

  /** Page table pt has taken the place of oldpt, which is gone with all it owned;
      what belongs to neither is as before. */
  ghost predicate Replaced(w: World, v: World, oldpt: nat, pt: nat) {
    && Ok(v) && v.pages == w.pages && v.held == w.held && v.mem.roots == w.mem.roots - {oldpt} + {pt}
    && (forall a :: a in v.owner ==> v.owner[a].pt != oldpt)
    && (forall t :: ValidSlot(w.mem, t) && t.Page? && t.pt != oldpt ==>
          ValidSlot(v.mem, t) && Entry(v.mem, t) == Entry(w.mem, t))
    && (forall a :: a in w.owner && w.owner[a].pt != oldpt ==> a in v.owner && v.owner[a] == w.owner[a])
    && (forall a :: a in v.owner && v.owner[a].pt != pt ==> a in w.owner && w.owner[a] == v.owner[a])
    && (forall a :: a in w.owner && w.owner[a].pt != oldpt && a in w.bytes ==> a in v.bytes && v.bytes[a] == w.bytes[a])
  }

  lemma Committed(w: World, u: World, x: World, oldpt: nat, pt: nat, now: seq<UserPage>)
    requires Ok(w) && Apart(w, u, pt) && u.held == w.held && pt !in w.mem.roots && u.mem.roots == w.mem.roots + {pt}
    requires User(u, pt, now) && oldpt != pt && Released(u, x, oldpt)
    ensures User(x, pt, now) && x.held == w.held && Replaced(w, x, oldpt, pt)
  {
    NoneOwned(w, pt);
    hide Ok, Entry;
    UserApart(u, x, oldpt, pt, now);
  }
}

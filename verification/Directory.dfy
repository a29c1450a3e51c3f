/** The directory system calls on the inode table in place (sysfile.c:119-284,
    fs.c:529-583); each is one of the steps of Links. */
module Directory {
  import opened Basics
  import opened Links
  import opened DirNames

  /** Entry k is the first with that name. */
  ghost predicate FirstMatch(es: seq<Entry>, name: Name, k: nat) {
    k < |es| && Matches(es[k], name) && forall j :: 0 <= j < k ==> !Matches(es[j], name)
  }

  /** The name is that of a directory with entries. */
  ghost predicate Occupied(t: seq<Inode>, d: nat, name: Name, k: nat) {
    && d < |t| && FirstMatch(t[d].entries, name, k)
    && t[d].entries[k].inum < |t| && t[t[d].entries[k].inum].kind == Dir && !EmptyDir(t[t[d].entries[k].inum])
  }

  /** What create answers for a name that is there: the inode if a file was asked for and it is
      a file or a device, else nothing. */
  ghost predicate Existing(t: seq<Inode>, d: nat, name: Name, kind: Kind, r: Option<nat>, k: nat) {
    && d < |t| && FirstMatch(t[d].entries, name, k) && t[d].entries[k].inum < |t|
    && var x := t[d].entries[k].inum;
       r == if kind == File && (t[x].kind == File || t[x].kind == Device) then Some(x) else None
  }

  /** No inode from 1 up to n is free. */
  ghost predicate NoFree(t: seq<Inode>, n: nat) {
    n <= |t| && forall y: nat :: 0 < y < n ==> t[y].kind != Free
  }

  /** The first place in a directory with no entry, or its end. */
  ghost predicate FirstEmpty(es: seq<Entry>, k: nat) {
    k <= |es| && (k < |es| ==> es[k].inum == 0) && forall j :: 0 <= j < k ==> es[j].inum != 0
  }

  /** Entries in a directory of the maximum size: MAXFILE * BSIZE / sizeof(struct dirent). */
  const MAXENTRIES: nat := 17152

  /** A directory of the maximum size without an empty entry: writei refuses one more. */
  ghost predicate Crowded(es: seq<Entry>) {
    |es| >= MAXENTRIES && forall j :: 0 <= j < MAXENTRIES ==> es[j].inum != 0
  }

  /** A file or device, and a new name in an existing directory. */
  ghost predicate Linkable(t: seq<Inode>, x: nat, dp: Option<nat>, name: Name) {
    x < |t| && t[x].kind != Dir && dp.Some? && dp.value < |t| && NoMatch(t[dp.value].entries, name)
  }

  class FileTree {
    var t: seq<Inode>

    /** dirlookup (fs.c:529-553): the first entry with that name. */
    method Dirlookup(d: nat, name: Name) returns (r: Option<nat>)
      requires d < |t| && t[d].kind == Dir
      ensures if r.Some? then FirstMatch(t[d].entries, name, r.value) else NoMatch(t[d].entries, name)
    {
      var off := 0;
      while off < |t[d].entries|
        invariant off <= |t[d].entries| && forall j :: 0 <= j < off ==> !Matches(t[d].entries[j], name)
      {
        if t[d].entries[off].inum != 0 && t[d].entries[off].name == name { return Some(off); }
        off := off + 1;
      }
      r := None;
    }

    /** dirlink (fs.c:556-583): into the first empty entry, unless the name is taken; it
        panics when the directory is full. */
    method Dirlink(d: nat, name: Name, inum: nat) returns (ok: bool, panics: bool, ghost k: nat)
      requires d < |t| && t[d].kind == Dir
      modifies this
      ensures panics <==> NoMatch(old(t)[d].entries, name) && Crowded(old(t)[d].entries)
      ensures ok <==> NoMatch(old(t)[d].entries, name) && !panics
      ensures !ok ==> t == old(t)
      ensures ok ==> FirstEmpty(old(t)[d].entries, k) && t == PutEntry(old(t), d, k, Entry(inum, name))
    {
      k, panics := 0, false;
      var found := Dirlookup(d, name);
      if found.Some? { return false, false, 0; }
      var off := 0;
      while off < |t[d].entries| && t[d].entries[off].inum != 0
        invariant off <= |t[d].entries| && t == old(t) && forall j :: 0 <= j < off ==> t[d].entries[j].inum != 0
      {
        off := off + 1;
      }
      k := off;
      var es := t[d].entries;
      if off >= MAXENTRIES { return false, true, k; }
      t := t[d := t[d].(entries := if off < |es| then es[off := Entry(inum, name)] else es + [Entry(inum, name)])];
      ok := true;
    }

    /** isdirempty (sysfile.c:169-182). */
    method Isdirempty(x: nat) returns (r: bool)
      requires x < |t|
      ensures r <==> EmptyDir(t[x])
    {
      var off := 2;
      while off < |t[x].entries|
        invariant 2 <= off && forall j :: 2 <= j < off && j < |t[x].entries| ==> t[x].entries[j].inum == 0
      {
        if t[x].entries[off].inum != 0 { return false; }
        off := off + 1;
      }
      r := true;
    }

    /** ialloc (fs.c:195-215): the lowest free inode; None is the panic "no inodes". */
    method Ialloc(kind: Kind) returns (r: Option<nat>)
      requires t != []
      modifies this
      ensures r.None? ==> t == old(t) && NoFree(t, |t|)
      ensures r.Some? ==> 0 < r.value < |old(t)| && old(t)[r.value].kind == Free && NoFree(old(t), r.value)
      ensures r.Some? ==> t == old(t)[r.value := Inode(kind, 0, [])]
    {
      var inum := 1;
      while inum < |t|
        invariant 0 < inum <= |t| && t == old(t) && NoFree(t, inum)
      {
        if t[inum].kind == Free {
          t := t[inum := Inode(kind, 0, [])];
          return Some(inum);
        }
        inum := inum + 1;
      }
      r := None;
    }

    /** sys_link (sysfile.c:119-166), from the inode and the directory that the paths name;
        when it fails the count is what it was. */
    method Link(x: nat, dp: Option<nat>, name: Name) returns (ok: bool, panics: bool, ghost call: Call)
      requires Inv(t) && 0 < x < |t| && t[x].kind != Free && (dp.Some? ==> dp.value < |t| && Linked(t[dp.value]))
      modifies this
      ensures ok <==> Linkable(old(t), x, dp, name) && !Crowded(old(t)[dp.value].entries)
      ensures panics <==> Linkable(old(t), x, dp, name) && Crowded(old(t)[dp.value].entries)
      ensures !panics ==> Inv(t) && Next(old(t), call, t) && (!ok ==> t == old(t))
      ensures ok <==> call.Link?
      ensures ok ==> call.x == x && call.d == dp.value && call.name == name
      ensures ok && AllUnique(old(t)) ==>
                AllUnique(t) && Else(old(t), t, dp.value, name, |old(t)|) && Find(t[dp.value].entries, name) == x
    {
      hide Inv, Else, Find, AllUnique, Room;
      ghost var was := t;
      call, panics := Failed, false;
      if t[x].kind == Dir { return false, false, call; }
      t := t[x := t[x].(nlink := t[x].nlink + 1)];
      if dp.Some? {
        assert t[dp.value] == was[dp.value];
        ghost var k;
        ok, panics, k := Dirlink(dp.value, name, x);
        if panics { return; }
        if ok {
          RoomFor(was, dp.value, k, name);
          call := Links.Link(x, dp.value, k, name);
          LinkInv(was, x, dp.value, k, name);
          if AllUnique(was) { CallEffect(was, call, t); }
          return;
        }
      }
      t := t[x := t[x].(nlink := t[x].nlink - 1)];
      assert t == was;
      ok := false;
    }

    /** sys_unlink (sysfile.c:184-239), from the directory and the name at its end. */
    method Unlink(d: nat, name: Name) returns (ok: bool, ghost call: Call)
      requires Inv(t) && d < |t| && Linked(t[d])
      modifies this
      ensures Inv(t) && Next(old(t), call, t) && (!ok ==> t == old(t))
      ensures ok ==> name != "." && name != ".." && (call.Unlink? || call.Rmdir?) && call.d == d
      ensures ok ==> FirstMatch(old(t)[d].entries, name, call.k) && old(t)[d].entries[call.k].inum == call.x
      ensures ok && AllUnique(old(t)) ==>
                AllUnique(t) && Else(old(t), t, d, name, |old(t)|) && Find(t[d].entries, name) == 0
      ensures !ok ==>
                name == "." || name == ".." || NoMatch(t[d].entries, name) || exists k: nat :: Occupied(t, d, name, k)
    {
      hide Inv, Names, RmdirStep, UnlinkStep, Else, Find, AllUnique;
      ghost var was := t;
      call := Failed;
      if name == "." || name == ".." { return false, call; }
      var off := Dirlookup(d, name);
      if off.None? { return false, call; }
      var x, k := t[d].entries[off.value].inum, off.value;
      Found(was, d, k, name);
      if t[x].nlink < 1 { assert false; }
      if t[x].kind == Dir {
        var empty := Isdirempty(x);
        if !empty {
          assert Occupied(t, d, name, k);
          return false, call;
        }
        RmdirInv(was, d, k, x);
        call := Rmdir(d, k, x);
        Remove(d, k, x, true);
      } else {
        UnlinkInv(was, d, k, x);
        call := Links.Unlink(d, k, x);
        Remove(d, k, x, false);
      }
      if AllUnique(was) { CallEffect(was, call, t); }
      ok := true;
    }

    /** The changes of a successful unlink (sysfile.c:218-228). */
    method Remove(d: nat, k: nat, x: nat, dir: bool)
      requires d < |t| && k < |t[d].entries| && t[d].entries[k].inum == x < |t| && (!dir ==> x != d)
      modifies this
      ensures t == if dir then RmdirStep(old(t), d, k, x) else UnlinkStep(old(t), d, k)
    {
      t := t[d := t[d].(entries := t[d].entries[k := EMPTY])];
      if dir {
        t := t[d := t[d].(nlink := t[d].nlink - 1)];
      }
      t := t[x := t[x].(nlink := t[x].nlink - 1)];
    }

    /** create (sysfile.c:241-284), from the directory and the name at its end. It panics
        exactly for a new name when no inode is free or the directory is full; its own panics
        are unreachable. */
    method Create(d: nat, name: Name, kind: Kind) returns (r: Option<nat>, panics: bool, ghost call: Call)
      requires Inv(t) && d < |t| && Linked(t[d]) && kind != Free
      modifies this
      ensures !panics ==> Inv(t) && Next(old(t), call, t)
      ensures panics <==> NoMatch(old(t)[d].entries, name) && (NoFree(old(t), |old(t)|) || Crowded(old(t)[d].entries))
      ensures call != Failed <==> NoMatch(old(t)[d].entries, name) && !panics
      ensures call == Failed && !panics ==> exists k: nat :: Existing(t, d, name, kind, r, k)
      ensures call != Failed ==> r.Some? && if kind == Dir then call.Mkdir? else call.Create? && call.kind == kind
      ensures call != Failed ==> call.d == d && call.name == name && call.x == r.value
      ensures call != Failed ==> old(t)[call.x].kind == Free && NoFree(old(t), call.x)
      ensures call != Failed && AllUnique(old(t)) ==>
                && AllUnique(t) && r.value < |t| && Else(old(t), t, d, name, r.value)
                && Find(t[d].entries, name) == r.value && t[r.value].kind == kind && t[r.value].nlink == 1
                && NewNames(t[r.value], r.value, d, kind)
    {
      hide Inv, MkdirStep, CreateStep, Else, Find, AllUnique, Room, Effect, NewNames;
      ghost var was := t;
      call := Failed;
      r, panics := None, false;
      var off := Dirlookup(d, name);
      if off.Some? {
        var x := t[d].entries[off.value].inum;
        KnownInode(was, d, off.value);
        if kind == File && (t[x].kind == File || t[x].kind == Device) { r := Some(x); }
        assert Existing(t, d, name, kind, r, off.value);
        return;
      }
      var node := NewNode(d, kind);
      if node.None? {
        panics := true;
        return;
      }
      var x := node.value;
      NotDir(was, d, x);
      ghost var k;
      var done;
      done, panics, k := Dirlink(d, name, x);
      if panics { return; }
      if !done { assert false; }
      RoomFor(was, d, k, name);
      Made(was, t, d, k, name, x, kind);
      if kind == Dir {
        call := Mkdir(d, k, name, x);
        MkdirInv(was, d, k, name, x);
      } else {
        call := Links.Create(d, k, name, x, kind);
        CreateInv(was, d, k, name, x, kind);
      }
      if AllUnique(was) {
        CallEffect(was, call, t);
        CreatedNames(was, call, t);
      }
      r := Some(x);
    }

    /** A new inode, with its dot entries if it is a directory (sysfile.c:261-276). */
    method NewNode(d: nat, kind: Kind) returns (r: Option<nat>)
      requires d < |t| && t[d].kind == Dir
      modifies this
      ensures r.None? ==> t == old(t) && NoFree(t, |t|)
      ensures r.Some? ==>
                0 < r.value < |old(t)| && old(t)[r.value].kind == Free && NoFree(old(t), r.value) && r.value != d
      ensures r.Some? ==> t == WithNode(old(t), d, r.value, kind)
    {
      r := Ialloc(kind);
      if r.None? { return; }
      var x := r.value;
      t := t[x := t[x].(nlink := 1)];
      if kind == Dir {
        t := t[d := t[d].(nlink := t[d].nlink + 1)];
        assert t[x] == Inode(Dir, 1, []);
        AddDots(x, d);
      }
    }

    method AddDots(x: nat, d: nat)
      requires 0 < x < |t| && t[x].kind == Dir && t[x].entries == []
      modifies this
      ensures t == old(t)[x := old(t)[x].(entries := [Entry(x, "."), Entry(d, "..")])]
    {
      hide Matches;
      ghost var k;
      var ok, panics;
      ok, panics, k := Dirlink(x, ".", x);
      if !ok { assert false; }
      assert t[x].entries == [Entry(x, ".")];
      OtherName(Entry(x, "."), "..");
      ok, panics, k := Dirlink(x, "..", d);
      if !ok { assert false; }
      assert t[x].entries == [Entry(x, "."), Entry(d, "..")] by { FullDir(Entry(x, "."), k); }
    }
  }

  lemma OtherName(e: Entry, name: Name)
    requires e.name != name
    ensures !Matches(e, name)
  {
  }

  lemma FullDir(e: Entry, k: nat)
    requires FirstEmpty([e], k) && e.inum != 0
    ensures k == 1
  {
  }

  /** The table with a new inode x for directory d. */
  function WithNode(t: seq<Inode>, d: nat, x: nat, kind: Kind): seq<Inode>
    requires d < |t| && x < |t|
  {
    if kind == Dir then AddLinks(t[x := NewDir(x, d)], d, 1) else t[x := Inode(kind, 1, [])]
  }

  lemma NotDir(t: seq<Inode>, d: nat, x: nat)
    requires d < |t| && x < |t| && Linked(t[d]) && t[x].kind == Free
    ensures x != d
    ensures forall kind :: WithNode(t, d, x, kind)[d].entries == t[d].entries && WithNode(t, d, x, kind)[d].kind == Dir
  {
  }

  lemma Made(t: seq<Inode>, v: seq<Inode>, d: nat, k: nat, name: Name, x: nat, kind: Kind)
    requires d < |t| && x < |t| && x != d && k <= |t[d].entries|
    requires WithNode(t, d, x, kind)[d].entries == t[d].entries
             && v == PutEntry(WithNode(t, d, x, kind), d, k, Entry(x, name))
    ensures v == if kind == Dir then MkdirStep(t, d, k, name, x) else CreateStep(t, d, k, name, x, kind)
  {
  }

  /** A name that is not there is neither "." nor "..", and goes behind them. */
  lemma RoomFor(t: seq<Inode>, d: nat, k: nat, name: Name)
    requires Inv(t) && d < |t| && Linked(t[d]) && FirstEmpty(t[d].entries, k)
    requires NoMatch(t[d].entries, name)
    ensures Room(t, d, k, name)
  {
    DirAt(t, d);
    assert t[0] == NONE;
    hide Inv;
    assert !Matches(t[d].entries[0], name) && !Matches(t[d].entries[1], name);
  }

  /** What a lookup found is an inode in use with a positive count. */
  lemma Found(t: seq<Inode>, d: nat, k: nat, name: Name)
    requires Inv(t) && d < |t| && Linked(t[d]) && k < |t[d].entries| && Matches(t[d].entries[k], name) && name != "."
             && name != ".."
    ensures var x := t[d].entries[k].inum; x < |t| && Names(t, d, k, x) && t[x].nlink >= 1 && t[x].kind != Free
  {
    hide Tree, Counts;
    DirAt(t, d);
    EntryAt(t, d, k);
    OneOrMore(t, d, k, t[d].entries[k].inum);
  }

  lemma KnownInode(t: seq<Inode>, d: nat, k: nat)
    requires Inv(t) && d < |t| && Linked(t[d]) && k < |t[d].entries| && t[d].entries[k].inum != 0
    ensures t[d].entries[k].inum < |t|
  {
    hide Tree, Counts;
    DirAt(t, d);
    if k >= 2 { EntryAt(t, d, k); }
  }
}

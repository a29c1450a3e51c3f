/** Directories and link counts (sysfile.c:119-284, fs.c:529-583): the inode table as a
    value, and how each system call changes what every inode's count should be. */
module Links {

  type Name = string

  const ROOT: nat := 1

  datatype Kind = Free | File | Dir | Device

  /** A directory entry; inum 0 is an empty one. */
  datatype Entry = Entry(inum: nat, name: Name)

  const EMPTY := Entry(0, "")

  datatype Inode = Inode(kind: Kind, nlink: int, entries: seq<Entry>)

  const NONE := Inode(Free, 0, [])

  predicate Linked(i: Inode) {
    i.kind == Dir && i.nlink > 0
  }

  predicate Matches(e: Entry, name: Name) {
    e.inum != 0 && e.name == name
  }

  ghost predicate NoMatch(es: seq<Entry>, name: Name) {
    forall j :: 0 <= j < |es| ==> !Matches(es[j], name)
  }

  // ------------------------------------------------------------ counting

  /** Does the entry count as a link to x? */
  function One(e: Entry, x: nat): nat {
    if e.inum == x && e.name != "." then 1 else 0
  }

  function CountIn(es: seq<Entry>, x: nat): nat {
    if es == [] then 0 else CountIn(es[..|es| - 1], x) + One(es[|es| - 1], x)
  }

  function LinksTo(i: Inode, x: nat): nat {
    if Linked(i) then CountIn(i.entries, x) else 0
  }

  /** The entries other than "." that name x, in linked directories below index n. */
  function Total(t: seq<Inode>, x: nat, n: nat): nat
    requires n <= |t|
  {
    if n == 0 then 0 else Total(t, x, n - 1) + LinksTo(t[n - 1], x)
  }

  function All(t: seq<Inode>, x: nat): nat {
    Total(t, x, |t|)
  }

  lemma {:induction false} CountUpdate(es: seq<Entry>, k: nat, e: Entry, x: nat)
    requires k < |es|
    ensures CountIn(es[k := e], x) == CountIn(es, x) - One(es[k], x) + One(e, x)
  {
    var n := |es| - 1;
    if k == n {
      assert es[k := e][..n] == es[..n];
    } else {
      CountUpdate(es[..n], k, e, x);
      assert es[k := e][..n] == es[..n][k := e];
    }
  }

  lemma CountAppend(es: seq<Entry>, e: Entry, x: nat)
    ensures CountIn(es + [e], x) == CountIn(es, x) + One(e, x)
  {
    assert (es + [e])[..|es|] == es;
  }

  lemma {:induction false} CountNone(es: seq<Entry>, x: nat)
    requires forall k :: 0 <= k < |es| ==> One(es[k], x) == 0
    ensures CountIn(es, x) == 0
  {
    if es != [] { CountNone(es[..|es| - 1], x); }
  }

  lemma {:induction false} CountSome(es: seq<Entry>, x: nat, k: nat)
    requires k < |es| && One(es[k], x) == 1
    ensures CountIn(es, x) >= 1
  {
    if k < |es| - 1 { CountSome(es[..|es| - 1], x, k); }
  }

  lemma {:induction false} TotalUpdate(t: seq<Inode>, d: nat, i: Inode, x: nat, n: nat)
    requires d < |t| && n <= |t|
    ensures Total(t[d := i], x, n) == Total(t, x, n) + if d < n then LinksTo(i, x) - LinksTo(t[d], x) else 0
  {
    if n > 0 { TotalUpdate(t, d, i, x, n - 1); }
  }

  lemma {:induction false} TotalNone(t: seq<Inode>, x: nat, n: nat)
    requires n <= |t| && forall d :: 0 <= d < n ==> LinksTo(t[d], x) == 0
    ensures Total(t, x, n) == 0
  {
    if n > 0 { TotalNone(t, x, n - 1); }
  }

  lemma {:induction false} TotalSome(t: seq<Inode>, x: nat, n: nat, d: nat)
    requires d < n <= |t|
    ensures Total(t, x, n) >= LinksTo(t[d], x)
  {
    if d < n - 1 { TotalSome(t, x, n - 1, d); }
  }

  // ------------------------------------------------------------ the invariant

  /** An entry at place k of linked directory d names x, and is not "." or "..". */
  predicate Names(t: seq<Inode>, d: nat, k: nat, x: nat) {
    d < |t| && Linked(t[d]) && 2 <= k < |t[d].entries| && t[d].entries[k].inum == x
  }

  /** A linked directory starts with "." and "..", and these names occur nowhere else. */
  predicate DirOk(t: seq<Inode>, d: nat, i: Inode) {
    && |i.entries| >= 2 && i.entries[0] == Entry(d, ".") && i.entries[1].name == ".."
    && i.entries[1].inum < |t| && Linked(t[i.entries[1].inum])
    && forall k :: 2 <= k < |i.entries| ==> EntryOk(t, i.entries[k])
  }

  predicate EntryOk(t: seq<Inode>, e: Entry) {
    e.inum == 0 || (e.inum < |t| && t[e.inum].kind != Free && e.name != "." && e.name != "..")
  }

  /** The parent of a linked directory other than the root names it. */
  ghost predicate ParentNames(t: seq<Inode>, c: nat) {
    c < |t| && Linked(t[c]) && c != ROOT && |t[c].entries| >= 2 ==> exists k :: Names(t, t[c].entries[1].inum, k, c)
  }

  /** A directory has one name. */
  ghost predicate OneName(t: seq<Inode>) {
    forall d: nat, k: nat, e: nat, l: nat, x: nat ::
      Names(t, d, k, x) && Names(t, e, l, x) && IsDir(t, x) ==> d == e && k == l
  }

  predicate IsDir(t: seq<Inode>, x: nat) {
    0 < x < |t| && t[x].kind == Dir
  }

  ghost predicate Tree(t: seq<Inode>) {
    && |t| > ROOT && t[0] == NONE && Linked(t[ROOT]) && |t[ROOT].entries| >= 2 && t[ROOT].entries[1].inum == ROOT
    && (forall d: nat :: d < |t| && Linked(t[d]) ==> DirOk(t, d, t[d]))
    && (forall c: nat :: c < |t| ==> ParentNames(t, c))
    && (forall d: nat, k: nat :: !Names(t, d, k, ROOT))
    && OneName(t)
  }

  /** No directory gets a name it did not have. */
  lemma FewerNames(t: seq<Inode>, v: seq<Inode>)
    requires OneName(t)
    requires forall a: nat, i: nat, y: nat :: Names(v, a, i, y) && IsDir(v, y) ==> Names(t, a, i, y) && IsDir(t, y)
    ensures OneName(v)
  {
    hide Names, IsDir;
  }

  /** Only x, which had no name, gets one. */
  lemma OneMoreName(t: seq<Inode>, v: seq<Inode>, d: nat, k: nat, x: nat)
    requires OneName(t)
    requires forall a: nat, i: nat, y: nat :: Names(v, a, i, y) && IsDir(v, y) ==>
               if y == x then a == d && i == k else Names(t, a, i, y) && IsDir(t, y)
    ensures OneName(v)
  {
    hide Names, IsDir;
  }

  /** A directory's other entries do not name it. */
  lemma NotAgain(t: seq<Inode>, d: nat, k: nat, b: nat, l: nat, x: nat)
    requires Tree(t) && Names(t, d, k, x) && IsDir(t, x) && !(b == d && l == k)
    ensures !Names(t, b, l, x)
  {
    hide Names, DirOk, ParentNames;
  }

  lemma TreeNames(t: seq<Inode>)
    requires Tree(t)
    ensures OneName(t)
  {
  }

  /** Link counts are right; a free inode has none. */
  ghost predicate Counts(t: seq<Inode>) {
    forall x: nat :: 0 < x < |t| ==> t[x].nlink == All(t, x) && (t[x].kind == Free ==> t[x] == NONE)
  }

  ghost predicate Inv(t: seq<Inode>) {
    Tree(t) && Counts(t)
  }

  /** A file system with nothing but the root, as mkfs starts it (mkfs/mkfs.c:117-128). */
  function Fresh(n: nat): seq<Inode> {
    [NONE, Inode(Dir, 1, [Entry(ROOT, "."), Entry(ROOT, "..")])] + seq(n, _ => NONE)
  }

  // ------------------------------------------------------------ small changes

  /** Entry k of d becomes e; k may be one past the end. */
  function PutEntry(t: seq<Inode>, d: nat, k: nat, e: Entry): seq<Inode>
    requires d < |t| && k <= |t[d].entries|
  {
    t[d := t[d].(entries := if k < |t[d].entries| then t[d].entries[k := e] else t[d].entries + [e])]
  }

  function AddLinks(t: seq<Inode>, x: nat, n: int): seq<Inode>
    requires x < |t|
  {
    t[x := t[x].(nlink := t[x].nlink + n)]
  }

  function OldOne(t: seq<Inode>, d: nat, k: nat, x: nat): nat
    requires d < |t|
  {
    if k < |t[d].entries| then One(t[d].entries[k], x) else 0
  }

  lemma PutCounts(t: seq<Inode>, d: nat, k: nat, e: Entry, x: nat)
    requires d < |t| && k <= |t[d].entries| && Linked(t[d])
    ensures All(PutEntry(t, d, k, e), x) == All(t, x) + One(e, x) - OldOne(t, d, k, x)
  {
    var i := PutEntry(t, d, k, e)[d];
    TotalUpdate(t, d, i, x, |t|);
    if k < |t[d].entries| { CountUpdate(t[d].entries, k, e, x); } else { CountAppend(t[d].entries, e, x); }
  }

  /** Changing a count changes no other inode's links, as long as the inode stays a linked
      directory, or is none before and after. */
  lemma AddCounts(t: seq<Inode>, x: nat, n: int, y: nat)
    requires x < |t| && (Linked(t[x]) <==> Linked(AddLinks(t, x, n)[x]))
    ensures All(AddLinks(t, x, n), y) == All(t, y)
  {
    TotalUpdate(t, x, AddLinks(t, x, n)[x], y, |t|);
  }

  /** Replacing an inode that is no linked directory. */
  lemma NewCounts(t: seq<Inode>, x: nat, i: Inode, y: nat)
    requires x < |t| && !Linked(t[x])
    ensures All(t[x := i], y) == All(t, y) + LinksTo(i, y)
  {
    TotalUpdate(t, x, i, y, |t|);
  }

  // ------------------------------------------------------------ the calls, once they succeed

  /** Where an entry with a new name can go in a linked directory. */
  ghost predicate Room(t: seq<Inode>, d: nat, k: nat, name: Name) {
    && d < |t| && Linked(t[d]) && 2 <= k <= |t[d].entries| && (k < |t[d].entries| ==> t[d].entries[k].inum == 0)
    && name != "." && name != ".." && NoMatch(t[d].entries, name)
  }

  /** sys_link (sysfile.c:141-153). */
  function LinkStep(t: seq<Inode>, x: nat, d: nat, k: nat, name: Name): seq<Inode>
    requires x < |t| && d < |t| && d != x && k <= |t[d].entries|
  {
    PutEntry(AddLinks(t, x, 1), d, k, Entry(x, name))
  }

  lemma LinkCounts(t: seq<Inode>, x: nat, d: nat, k: nat, name: Name)
    requires Inv(t) && 0 < x < |t| && t[x].kind != Dir && t[x].kind != Free && Room(t, d, k, name)
    ensures Counts(LinkStep(t, x, d, k, name))
  {
    hide Tree;
    var u := AddLinks(t, x, 1);
    var v := LinkStep(t, x, d, k, name);
    forall y: nat | 0 < y < |v| ensures v[y].nlink == All(v, y) && (v[y].kind == Free ==> v[y] == NONE) {
      AddCounts(t, x, 1, y);
      PutCounts(u, d, k, Entry(x, name), y);
    }
  }

  // ------------------------------------------------------------ the tree

  predicate Plain(t: seq<Inode>, x: nat) {
    x == 0 || (x < |t| && t[x].kind != Dir && t[x].kind != Free)
  }

  /** The same linked directories, and kinds that only go from free to in use. */
  ghost predicate SameDirs(t: seq<Inode>, v: seq<Inode>) {
    && |v| == |t|
    && forall x: nat :: x < |t| ==>
         && (Linked(v[x]) <==> Linked(t[x])) && (t[x].kind != Free ==> v[x].kind == t[x].kind)
         && (v[x].kind == Dir <==> t[x].kind == Dir)
  }

  /** The tree only looks at linked directories' entries and at kinds. */
  lemma TreeSame(t: seq<Inode>, v: seq<Inode>)
    requires Tree(t) && SameDirs(t, v) && v[0] == NONE
    requires forall x: nat :: x < |t| && Linked(t[x]) ==> v[x].entries == t[x].entries
    ensures Tree(v)
  {
    forall d: nat | d < |v| && Linked(v[d]) ensures DirOk(v, d, v[d]) {
      assert DirOk(t, d, t[d]);
    }
    forall c: nat | c < |v| ensures ParentNames(v, c) {
      assert ParentNames(t, c);
      if Linked(v[c]) && c != ROOT {
        assert DirOk(t, c, t[c]);
        var k :| Names(t, t[c].entries[1].inum, k, c);
        assert Names(v, v[c].entries[1].inum, k, c);
      }
    }
    forall d: nat, k: nat ensures !Names(v, d, k, ROOT) { assert !Names(t, d, k, ROOT); }
    assert OneName(v) by { FewerNames(t, v); }
  }

  lemma PutNames(t: seq<Inode>, d: nat, k: nat, e: Entry, b: nat, l: nat, x: nat)
    requires d < |t| && k <= |t[d].entries|
    ensures !(b == d && l == k) ==> (Names(PutEntry(t, d, k, e), b, l, x) <==> Names(t, b, l, x))
    ensures b == d && l == k ==> (Names(PutEntry(t, d, k, e), b, l, x) <==> Linked(t[d]) && k >= 2 && e.inum == x)
  {
  }

  /** Adding or removing an entry for something that is no directory. */
  lemma TreePut(t: seq<Inode>, d: nat, k: nat, e: Entry)
    requires Tree(t) && d < |t| && Linked(t[d]) && 2 <= k <= |t[d].entries| && EntryOk(t, e) && Plain(t, e.inum)
    requires k < |t[d].entries| ==> Plain(t, t[d].entries[k].inum)
    ensures Tree(PutEntry(t, d, k, e))
  {
    var v := PutEntry(t, d, k, e);
    PutRoot(t, d, k, e);
    hide Names, DirOk, ParentNames, OneName, PutEntry;
    forall b: nat | b < |v| && Linked(v[b]) ensures DirOk(v, b, v[b]) {
      PutDirOk(t, d, k, e, b);
    }
    forall c: nat | c < |v| ensures ParentNames(v, c) {
      PutParent(t, d, k, e, c);
    }
    forall b: nat, l: nat ensures !Names(v, b, l, ROOT) {
      PutNames(t, d, k, e, b, l, ROOT);
      assert !Names(t, b, l, ROOT);
    }
    PutOneName(t, d, k, e);
  }

  lemma PutRoot(t: seq<Inode>, d: nat, k: nat, e: Entry)
    requires Tree(t) && d < |t| && Linked(t[d]) && 2 <= k <= |t[d].entries|
    ensures var v := PutEntry(t, d, k, e);
            && |v| == |t| > ROOT && v[0] == NONE && Linked(v[ROOT]) && |v[ROOT].entries| >= 2
            && v[ROOT].entries[1].inum == ROOT
  {
  }

  lemma PutDirOk(t: seq<Inode>, d: nat, k: nat, e: Entry, b: nat)
    requires Tree(t) && d < |t| && Linked(t[d]) && 2 <= k <= |t[d].entries| && EntryOk(t, e)
    requires b < |t| && Linked(PutEntry(t, d, k, e)[b])
    ensures DirOk(PutEntry(t, d, k, e), b, PutEntry(t, d, k, e)[b])
  {
    var v := PutEntry(t, d, k, e);
    DirAt(t, b);
    hide Tree;
    forall l | 2 <= l < |v[b].entries| ensures EntryOk(v, v[b].entries[l]) {
      if b == d && l == k { assert EntryOk(t, e); } else { assert EntryOk(t, t[b].entries[l]); }
    }
  }

  lemma PutParent(t: seq<Inode>, d: nat, k: nat, e: Entry, c: nat)
    requires Tree(t) && d < |t| && Linked(t[d]) && 2 <= k <= |t[d].entries| && c < |t|
    requires k < |t[d].entries| ==> Plain(t, t[d].entries[k].inum)
    ensures ParentNames(PutEntry(t, d, k, e), c)
  {
    hide Tree, Names;
    var v := PutEntry(t, d, k, e);
    if Linked(v[c]) && c != ROOT {
      DirAt(t, c);
      TreeZero(t);
      var p := t[c].entries[1].inum;
      var l := NamedBy(t, c);
      PutNames(t, d, k, e, p, l, c);
      if p == d && l == k { NamesOf(t, d, k, c); }
      assert Names(v, v[c].entries[1].inum, l, c);
    }
  }

  lemma NamesOf(t: seq<Inode>, d: nat, k: nat, x: nat)
    requires Names(t, d, k, x)
    ensures d < |t| && k < |t[d].entries| && t[d].entries[k].inum == x
  {
  }

  lemma PutOneName(t: seq<Inode>, d: nat, k: nat, e: Entry)
    requires Tree(t) && d < |t| && k <= |t[d].entries| && Plain(t, e.inum)
    ensures OneName(PutEntry(t, d, k, e))
  {
    var v := PutEntry(t, d, k, e);
    TreeNames(t);
    assert |v| == |t| && forall y: nat :: y < |t| ==> v[y].kind == t[y].kind;
    hide Names, Tree, OneName;
    forall a: nat, i: nat, y: nat | Names(v, a, i, y) && IsDir(v, y) ensures Names(t, a, i, y) && IsDir(t, y) {
      PutNames(t, d, k, e, a, i, y);
    }
    FewerNames(t, v);
  }

  lemma LinkInv(t: seq<Inode>, x: nat, d: nat, k: nat, name: Name)
    requires Inv(t) && 0 < x < |t| && t[x].kind != Dir && t[x].kind != Free && Room(t, d, k, name)
    ensures Inv(LinkStep(t, x, d, k, name))
  {
    LinkCounts(t, x, d, k, name);
    hide Counts, Tree;
    var u := AddLinks(t, x, 1);
    assert Tree(u) by { TreeBump(t, x, 1); }
    TreePut(u, d, k, Entry(x, name));
  }

  lemma TreeBump(t: seq<Inode>, x: nat, n: int)
    requires Tree(t) && 0 < x < |t| && (Linked(t[x]) <==> Linked(AddLinks(t, x, n)[x]))
    ensures Tree(AddLinks(t, x, n))
  {
    hide Tree;
    assert t[0] == NONE by { TreeZero(t); }
    TreeSame(t, AddLinks(t, x, n));
  }

  lemma TreeZero(t: seq<Inode>)
    requires Tree(t)
    ensures |t| > ROOT && t[0] == NONE && Linked(t[ROOT])
  {
  }

  /** sys_unlink of a file (sysfile.c:218-228). */
  function UnlinkStep(t: seq<Inode>, d: nat, k: nat): seq<Inode>
    requires d < |t| && k < |t[d].entries| && t[d].entries[k].inum < |t| && t[d].entries[k].inum != d
  {
    AddLinks(PutEntry(t, d, k, EMPTY), t[d].entries[k].inum, -1)
  }

  lemma UnlinkInv(t: seq<Inode>, d: nat, k: nat, x: nat)
    requires Inv(t) && Names(t, d, k, x) && x != 0 && x < |t| && t[x].kind != Dir
    ensures x != d && Inv(UnlinkStep(t, d, k)) && t[x].nlink >= 1
  {
    hide Tree, Counts;
    EntryAt(t, d, k);
    OneOrMore(t, d, k, x);
    UnlinkCounts(t, d, k, x);
    TreePut(t, d, k, EMPTY);
    TreeBump(PutEntry(t, d, k, EMPTY), x, -1);
  }

  lemma UnlinkCounts(t: seq<Inode>, d: nat, k: nat, x: nat)
    requires Counts(t) && Names(t, d, k, x) && x != 0 && x < |t| && t[x].kind != Dir && EntryOk(t, t[d].entries[k])
    ensures x != d && Counts(UnlinkStep(t, d, k))
  {
    var u := PutEntry(t, d, k, EMPTY);
    var v := UnlinkStep(t, d, k);
    forall y: nat | 0 < y < |v| ensures v[y].nlink == All(v, y) && (v[y].kind == Free ==> v[y] == NONE) {
      PutCounts(t, d, k, EMPTY, y);
      AddCounts(u, x, -1, y);
    }
  }

  lemma DirAt(t: seq<Inode>, d: nat)
    requires Tree(t) && d < |t| && Linked(t[d])
    ensures DirOk(t, d, t[d])
  {
  }

  lemma EntryAt(t: seq<Inode>, d: nat, k: nat)
    requires Tree(t) && d < |t| && Linked(t[d]) && 2 <= k < |t[d].entries|
    ensures EntryOk(t, t[d].entries[k])
  {
    assert DirOk(t, d, t[d]);
  }

  /** An inode with a name has a positive count, so unlink cannot panic. */
  lemma OneOrMore(t: seq<Inode>, d: nat, k: nat, x: nat)
    requires Inv(t) && Names(t, d, k, x) && x != 0 && x < |t|
    ensures t[x].nlink >= 1
  {
    EntryAt(t, d, k);
    CountSome(t[d].entries, x, k);
    TotalSome(t, x, |t|, d);
  }

  /** create of a file or a device (sysfile.c:261-279). */
  function CreateStep(t: seq<Inode>, d: nat, k: nat, name: Name, x: nat, kind: Kind): seq<Inode>
    requires d < |t| && x < |t| && x != d && k <= |t[d].entries|
  {
    PutEntry(t[x := Inode(kind, 1, [])], d, k, Entry(x, name))
  }

  lemma CreateInv(t: seq<Inode>, d: nat, k: nat, name: Name, x: nat, kind: Kind)
    requires Inv(t) && Room(t, d, k, name) && 0 < x < |t| && t[x].kind == Free && kind != Free && kind != Dir
    ensures x != d && Inv(CreateStep(t, d, k, name, x, kind))
  {
    hide Tree, Counts;
    var u := t[x := Inode(kind, 1, [])];
    CreateCounts(t, d, k, name, x, kind);
    assert t[0] == NONE by { TreeZero(t); }
    TreeSame(t, u);
    TreePut(u, d, k, Entry(x, name));
  }

  lemma CreateCounts(t: seq<Inode>, d: nat, k: nat, name: Name, x: nat, kind: Kind)
    requires Counts(t) && Room(t, d, k, name) && 0 < x < |t| && t[x].kind == Free && kind != Free && kind != Dir
    ensures x != d && Counts(CreateStep(t, d, k, name, x, kind))
  {
    var u := t[x := Inode(kind, 1, [])];
    var v := CreateStep(t, d, k, name, x, kind);
    forall y: nat | 0 < y < |v| ensures v[y].nlink == All(v, y) && (v[y].kind == Free ==> v[y] == NONE) {
      NewCounts(t, x, u[x], y);
      PutCounts(u, d, k, Entry(x, name), y);
    }
  }

  /** The last reference to an inode without links goes: iput frees it (fs.c:332-358). */
  lemma DropInv(t: seq<Inode>, x: nat)
    requires Inv(t) && 0 < x < |t| && t[x].nlink == 0
    ensures Inv(t[x := NONE])
  {
    var v := t[x := NONE];
    forall y: nat ensures All(v, y) == All(t, y) { NewCounts(t, x, NONE, y); }
    DropTree(t, x);
    hide Tree;
  }

  lemma Unnamed(t: seq<Inode>, d: nat, k: nat, x: nat)
    requires Inv(t) && 0 < x < |t| && t[x].nlink == 0
    ensures !Names(t, d, k, x)
  {
    if Names(t, d, k, x) { OneOrMore(t, d, k, x); }
  }

  lemma DropTree(t: seq<Inode>, x: nat)
    requires Inv(t) && 0 < x < |t| && t[x].nlink == 0
    ensures Tree(t[x := NONE])
  {
    var v := t[x := NONE];
    assert x != ROOT;
    forall d: nat | d < |v| && Linked(v[d]) ensures DirOk(v, d, v[d]) {
      assert DirOk(t, d, t[d]);
      forall k | 2 <= k < |v[d].entries| ensures EntryOk(v, v[d].entries[k]) {
        Unnamed(t, d, k, x);
        assert EntryOk(t, t[d].entries[k]);
      }
    }
    forall c: nat | c < |v| ensures ParentNames(v, c) {
      assert ParentNames(t, c);
      if Linked(v[c]) && c != ROOT {
        assert DirOk(t, c, t[c]);
        var k :| Names(t, t[c].entries[1].inum, k, c);
        assert Names(v, v[c].entries[1].inum, k, c);
      }
    }
    forall d: nat, k: nat ensures !Names(v, d, k, ROOT) { assert !Names(t, d, k, ROOT); }
    assert OneName(v) by { FewerNames(t, v); }
  }

  // ------------------------------------------------------------ directories

  /** create of a directory (sysfile.c:261-279). */
  function MkdirStep(t: seq<Inode>, d: nat, k: nat, name: Name, x: nat): seq<Inode>
    requires d < |t| && x < |t| && x != d && k <= |t[d].entries|
  {
    PutEntry(AddLinks(t[x := NewDir(x, d)], d, 1), d, k, Entry(x, name))
  }

  function NewDir(x: nat, d: nat): Inode {
    Inode(Dir, 1, [Entry(x, "."), Entry(d, "..")])
  }

  lemma NewDirLinks(x: nat, d: nat, y: nat)
    ensures LinksTo(NewDir(x, d), y) == if y == d then 1 else 0
  {
    TwoEntries(Entry(x, "."), Entry(d, ".."), y);
  }

  lemma TwoEntries(a: Entry, b: Entry, y: nat)
    ensures CountIn([a, b], y) == One(a, y) + One(b, y)
  {
    assert [a, b][..1] == [a] && [a][..0] == [];
    assert CountIn([a], y) == One(a, y);
  }

  lemma MkdirCounts(t: seq<Inode>, d: nat, k: nat, name: Name, x: nat)
    requires Counts(t) && Room(t, d, k, name) && 0 < x < |t| && t[x].kind == Free
    ensures x != d && Counts(MkdirStep(t, d, k, name, x))
  {
    var u := t[x := NewDir(x, d)];
    var w := AddLinks(u, d, 1);
    var v := MkdirStep(t, d, k, name, x);
    forall y: nat | 0 < y < |v| ensures v[y].nlink == All(v, y) && (v[y].kind == Free ==> v[y] == NONE) {
      NewCounts(t, x, u[x], y);
      NewDirLinks(x, d, y);
      AddCounts(u, d, 1, y);
      PutCounts(w, d, k, Entry(x, name), y);
    }
  }

  /** What mkdir changes: the new inode, and d's entries and count. */
  lemma MkdirShape(t: seq<Inode>, d: nat, k: nat, name: Name, x: nat)
    requires Room(t, d, k, name) && x < |t| && t[x].kind == Free
    ensures x != d && |MkdirStep(t, d, k, name, x)| == |t| && MkdirStep(t, d, k, name, x)[x] == NewDir(x, d)
    ensures forall y: nat :: y < |t| && y != x && y != d ==> MkdirStep(t, d, k, name, x)[y] == t[y]
    ensures var u := MkdirStep(t, d, k, name, x)[d];
            u.kind == Dir && Linked(u) && u.entries == PutEntry(t, d, k, Entry(x, name))[d].entries
  {
  }

  /** Names after mkdir: those there were, and the new one. */
  lemma MkdirNames(t: seq<Inode>, d: nat, k: nat, name: Name, x: nat, b: nat, l: nat, y: nat)
    requires Room(t, d, k, name) && x < |t| && t[x].kind == Free && y != 0
    ensures x != d
    ensures Names(MkdirStep(t, d, k, name, x), b, l, y) <==> Names(t, b, l, y) || (b == d && l == k && y == x)
  {
  }

  lemma MkdirTree(t: seq<Inode>, d: nat, k: nat, name: Name, x: nat)
    requires Inv(t) && Room(t, d, k, name) && 0 < x < |t| && t[x].kind == Free
    ensures x != d && Tree(MkdirStep(t, d, k, name, x))
  {
    var v := MkdirStep(t, d, k, name, x);
    assert x != ROOT && v[0] == NONE && Linked(v[ROOT]) && |v[ROOT].entries| >= 2 && v[ROOT].entries[1].inum == ROOT;
    forall b: nat | b < |v| && Linked(v[b]) ensures DirOk(v, b, v[b]) {
      if b != x { MkdirDirOk(t, d, k, name, x, b); }
    }
    forall c: nat | c < |v| ensures ParentNames(v, c) {
      MkdirParent(t, d, k, name, x, c);
    }
    forall b: nat, l: nat ensures !Names(v, b, l, ROOT) {
      MkdirNames(t, d, k, name, x, b, l, ROOT);
      assert !Names(t, b, l, ROOT);
    }
    MkdirOneName(t, d, k, name, x);
  }

  lemma MkdirOneName(t: seq<Inode>, d: nat, k: nat, name: Name, x: nat)
    requires Inv(t) && Room(t, d, k, name) && 0 < x < |t| && t[x].kind == Free
    ensures x != d && OneName(MkdirStep(t, d, k, name, x))
  {
    var v := MkdirStep(t, d, k, name, x);
    assert t[x] == NONE;
    MkdirShape(t, d, k, name, x);
    TreeNames(t);
    hide Names, Tree, Counts, OneName, MkdirStep;
    forall a: nat, i: nat, y: nat | Names(v, a, i, y) && IsDir(v, y)
      ensures if y == x then a == d && i == k else Names(t, a, i, y) && IsDir(t, y)
    {
      MkdirNames(t, d, k, name, x, a, i, y);
      if y == x { Unnamed(t, a, i, x); }
    }
    OneMoreName(t, v, d, k, x);
  }

  lemma MkdirDirOk(t: seq<Inode>, d: nat, k: nat, name: Name, x: nat, b: nat)
    requires Tree(t) && Room(t, d, k, name) && 0 < x < |t| && t[x].kind == Free && b < |t| && b != x && Linked(t[b])
    ensures x != d && DirOk(MkdirStep(t, d, k, name, x), b, MkdirStep(t, d, k, name, x)[b])
  {
    hide Tree, EntryOk, MkdirStep;
    DirAt(t, b);
    MkdirShape(t, d, k, name, x);
    var v := MkdirStep(t, d, k, name, x);
    assert forall y: nat :: y < |t| && t[y].kind != Free ==> v[y].kind != Free;
    forall l | 2 <= l < |v[b].entries| ensures EntryOk(v, v[b].entries[l]) {
      if b == d && l == k { NewEntryOk(v, x, name); } else { EntryStays(t, v, t[b].entries[l]); }
    }
  }

  lemma NewEntryOk(v: seq<Inode>, x: nat, name: Name)
    requires x < |v| && v[x].kind != Free && name != "." && name != ".."
    ensures EntryOk(v, Entry(x, name))
  {
  }

  lemma EntryStays(t: seq<Inode>, v: seq<Inode>, e: Entry)
    requires EntryOk(t, e) && |v| == |t| && forall y: nat :: y < |t| && t[y].kind != Free ==> v[y].kind != Free
    ensures EntryOk(v, e)
  {
  }

  lemma MkdirParent(t: seq<Inode>, d: nat, k: nat, name: Name, x: nat, c: nat)
    requires Tree(t) && Room(t, d, k, name) && 0 < x < |t| && t[x].kind == Free && c < |t|
    ensures x != d && ParentNames(MkdirStep(t, d, k, name, x), c)
  {
    var v := MkdirStep(t, d, k, name, x);
    if c == x {
      assert v[x].entries[1].inum == d;
      MkdirNames(t, d, k, name, x, d, k, x);
    } else if Linked(v[c]) && c != ROOT {
      assert DirOk(t, c, t[c]) && ParentNames(t, c);
      var p := t[c].entries[1].inum;
      var l :| Names(t, p, l, c);
      MkdirNames(t, d, k, name, x, p, l, c);
      assert v[c].entries[1] == t[c].entries[1];
    }
  }

  lemma MkdirInv(t: seq<Inode>, d: nat, k: nat, name: Name, x: nat)
    requires Inv(t) && Room(t, d, k, name) && 0 < x < |t| && t[x].kind == Free
    ensures x != d && Inv(MkdirStep(t, d, k, name, x))
  {
    MkdirCounts(t, d, k, name, x);
    MkdirTree(t, d, k, name, x);
    hide Tree, Counts;
  }

  /** Only "." and ".." are left (sysfile.c:169-182). */
  predicate EmptyDir(i: Inode) {
    forall k :: 2 <= k < |i.entries| ==> i.entries[k].inum == 0
  }

  /** sys_unlink of a directory (sysfile.c:213-228). */
  function RmdirStep(t: seq<Inode>, d: nat, k: nat, x: nat): seq<Inode>
    requires d < |t| && k < |t[d].entries| && x < |t|
  {
    AddLinks(AddLinks(PutEntry(t, d, k, EMPTY), d, -1), x, -1)
  }

  /** What unlink relies on when it removes directory x from d. */
  predicate CanRmdir(t: seq<Inode>, d: nat, k: nat, x: nat) {
    Names(t, d, k, x) && x != 0 && x < |t| && t[x].kind == Dir && EmptyDir(t[x])
  }

  lemma RmdirLinked(t: seq<Inode>, d: nat, k: nat, x: nat)
    requires Inv(t) && CanRmdir(t, d, k, x)
    ensures Linked(t[x]) && x != ROOT && x != d && DirOk(t, x, t[x]) && t[x].entries[1].inum == d
  {
    OneOrMore(t, d, k, x);
    assert DirOk(t, x, t[x]) && !Names(t, d, k, ROOT) && ParentNames(t, x);
    var l :| Names(t, t[x].entries[1].inum, l, x);
    hide Counts;
    assert Names(t, d, k, x);
  }

  /** No linked directory has an empty one as its parent. */
  lemma EmptyNoParent(t: seq<Inode>, x: nat, c: nat)
    requires Tree(t) && x < |t| && Linked(t[x]) && x != ROOT && EmptyDir(t[x]) && c < |t| && Linked(t[c])
    ensures |t[c].entries| >= 2 && t[c].entries[1].inum != x
  {
    assert DirOk(t, c, t[c]) && ParentNames(t, c) && c != 0;
    forall l ensures !Names(t, x, l, c) {
    }
  }

  /** The only link to an empty directory is its name. */
  lemma OnlyLink(t: seq<Inode>, d: nat, k: nat, x: nat)
    requires Inv(t) && CanRmdir(t, d, k, x)
    ensures All(PutEntry(t, d, k, EMPTY), x) == 0 && t[x].nlink == 1
  {
    RmdirLinked(t, d, k, x);
    var u := PutEntry(t, d, k, EMPTY);
    forall b: nat | b < |u| ensures LinksTo(u[b], x) == 0 {
      if Linked(u[b]) {
        forall l | 0 <= l < |u[b].entries| ensures One(u[b].entries[l], x) == 0 { NotALink(t, d, k, x, b, l); }
        CountNone(u[b].entries, x);
      }
    }
    TotalNone(u, x, |u|);
    PutCounts(t, d, k, EMPTY, x);
    EntryAt(t, d, k);
  }

  lemma NotALink(t: seq<Inode>, d: nat, k: nat, x: nat, b: nat, l: nat)
    requires Inv(t) && CanRmdir(t, d, k, x) && b < |t| && Linked(t[b]) && l < |PutEntry(t, d, k, EMPTY)[b].entries|
    ensures One(PutEntry(t, d, k, EMPTY)[b].entries[l], x) == 0
  {
    hide Tree, Counts;
    RmdirLinked(t, d, k, x);
    EmptyNoParent(t, x, b);
    DirAt(t, b);
    if l >= 2 && !(b == d && l == k) { NotAgain(t, d, k, b, l, x); }
  }

  lemma {:induction false} TotalTwo(t: seq<Inode>, x: nat, n: nat, a: nat, b: nat)
    requires a < n && b < n && a != b && n <= |t|
    ensures Total(t, x, n) >= LinksTo(t[a], x) + LinksTo(t[b], x)
  {
    if a == n - 1 { TotalSome(t, x, n - 1, b); }
    else if b == n - 1 { TotalSome(t, x, n - 1, a); }
    else { TotalTwo(t, x, n - 1, a, b); }
  }

  /** The parent of a directory has another link, so it stays linked. */
  lemma ParentStays(t: seq<Inode>, d: nat, k: nat, x: nat)
    requires Inv(t) && CanRmdir(t, d, k, x)
    ensures d < |t| && t[d].nlink >= 2 && d != 0
  {
    RmdirLinked(t, d, k, x);
    assert DirOk(t, d, t[d]) && ParentNames(t, d);
    var p := t[d].entries[1].inum;
    assert d != 0;
    CountSome(t[x].entries, d, 1);
    EmptyNoParent(t, x, d);
    if d == ROOT {
      CountSome(t[d].entries, d, 1);
    } else {
      var l :| Names(t, p, l, d);
      EntryAt(t, p, l);
      CountSome(t[p].entries, d, l);
    }
    TotalTwo(t, d, |t|, p, x);
  }

  /** What an empty directory links to: its parent. */
  lemma {:induction false} EmptyDirCount(es: seq<Entry>, x: nat, d: nat, y: nat)
    requires |es| >= 2 && es[0] == Entry(x, ".") && es[1] == Entry(d, "..") && y != 0
    requires forall k :: 2 <= k < |es| ==> es[k].inum == 0
    ensures CountIn(es, y) == if y == d then 1 else 0
  {
    if |es| == 2 {
      assert es == [es[0], es[1]];
      TwoEntries(es[0], es[1], y);
    } else {
      EmptyDirCount(es[..|es| - 1], x, d, y);
    }
  }

  lemma RmdirCounts(t: seq<Inode>, d: nat, k: nat, x: nat)
    requires Inv(t) && CanRmdir(t, d, k, x)
    ensures Counts(RmdirStep(t, d, k, x))
  {
    hide Tree;
    RmdirLinked(t, d, k, x);
    ParentStays(t, d, k, x);
    var v := RmdirStep(t, d, k, x);
    forall y: nat | 0 < y < |v| ensures v[y].nlink == All(v, y) && (v[y].kind == Free ==> v[y] == NONE) {
      RmdirAll(t, d, k, x, y);
    }
  }

  /** The links to y after rmdir: one less to the parent, for "..", and to x none. */
  lemma RmdirAll(t: seq<Inode>, d: nat, k: nat, x: nat, y: nat)
    requires Inv(t) && CanRmdir(t, d, k, x) && y != 0
    ensures d < |t| && x != d && All(RmdirStep(t, d, k, x), y) == All(t, y) - (if y == x || y == d then 1 else 0)
  {
    hide Tree, Counts;
    RmdirLinked(t, d, k, x);
    ParentStays(t, d, k, x);
    OnlyLink(t, d, k, x);
    EntryAt(t, d, k);
    var u := PutEntry(t, d, k, EMPTY);
    var w := AddLinks(u, d, -1);
    var v := RmdirStep(t, d, k, x);
    PutCounts(t, d, k, EMPTY, y);
    AddCounts(u, d, -1, y);
    TotalUpdate(w, x, v[x], y, |w|);
    EmptyDirCount(t[x].entries, x, d, y);
  }

  /** What rmdir changes: d's entry and count, and x's count. */
  lemma RmdirShape(t: seq<Inode>, d: nat, k: nat, x: nat)
    requires d < |t| && k < |t[d].entries| && x < |t| && x != d
    ensures |RmdirStep(t, d, k, x)| == |t|
    ensures forall y: nat :: y < |t| && y != x && y != d ==> RmdirStep(t, d, k, x)[y] == t[y]
    ensures RmdirStep(t, d, k, x)[x] == t[x].(nlink := t[x].nlink - 1)
    ensures RmdirStep(t, d, k, x)[d] == t[d].(nlink := t[d].nlink - 1, entries := t[d].entries[k := EMPTY])
  {
  }

  lemma RmdirKinds(t: seq<Inode>, d: nat, k: nat, x: nat)
    requires d < |t| && k < |t[d].entries| && x < |t|
    ensures |RmdirStep(t, d, k, x)| == |t|
    ensures forall y: nat :: y < |t| ==> RmdirStep(t, d, k, x)[y].kind == t[y].kind
  {
  }

  /** What the invariant adds to it: the directory has one link, its parent at least two. */
  ghost predicate Removable(t: seq<Inode>, d: nat, k: nat, x: nat) {
    && d < |t| && 2 <= k < |t[d].entries| && x < |t|
    && Tree(t) && CanRmdir(t, d, k, x) && x != d && x != ROOT && Linked(t[x]) && t[x].nlink == 1
    && t[d].nlink >= 2 && d != 0
  }

  lemma RmdirReady(t: seq<Inode>, d: nat, k: nat, x: nat)
    requires Inv(t) && CanRmdir(t, d, k, x)
    ensures Removable(t, d, k, x)
  {
    hide Tree, Counts;
    RmdirLinked(t, d, k, x);
    ParentStays(t, d, k, x);
    OnlyLink(t, d, k, x);
  }

  lemma RmdirTree(t: seq<Inode>, d: nat, k: nat, x: nat)
    requires Inv(t) && CanRmdir(t, d, k, x)
    ensures Tree(RmdirStep(t, d, k, x))
  {
    RmdirReady(t, d, k, x);
    RmdirRoot(t, d, k, x);
    var v := RmdirStep(t, d, k, x);
    hide Names, Counts, Removable, DirOk, ParentNames, OneName, RmdirStep;
    forall b: nat | b < |v| && Linked(v[b]) ensures DirOk(v, b, v[b]) {
      RmdirDirOk(t, d, k, x, b);
    }
    forall c: nat | c < |v| ensures ParentNames(v, c) {
      RmdirParent(t, d, k, x, c);
    }
    forall b: nat, l: nat ensures !Names(v, b, l, ROOT) {
      RmdirNames(t, d, k, x, b, l, ROOT);
      assert !Names(t, b, l, ROOT);
    }
    RmdirOneName(t, d, k, x);
  }

  lemma RmdirRoot(t: seq<Inode>, d: nat, k: nat, x: nat)
    requires Removable(t, d, k, x)
    ensures var v := RmdirStep(t, d, k, x);
            && |v| == |t| > ROOT && v[0] == NONE && Linked(v[ROOT]) && |v[ROOT].entries| >= 2
            && v[ROOT].entries[1].inum == ROOT
  {
    assert |t| > ROOT && t[0] == NONE && Linked(t[ROOT]) && |t[ROOT].entries| >= 2 && t[ROOT].entries[1].inum == ROOT;
    hide Tree;
  }

  lemma RmdirOneName(t: seq<Inode>, d: nat, k: nat, x: nat)
    requires Removable(t, d, k, x)
    ensures OneName(RmdirStep(t, d, k, x))
  {
    hide Names, Tree, RmdirStep, OneName, EmptyDir;
    TreeNames(t);
    var v := RmdirStep(t, d, k, x);
    RmdirKinds(t, d, k, x);
    forall a: nat, i: nat, y: nat | Names(v, a, i, y) && IsDir(v, y) ensures Names(t, a, i, y) && IsDir(t, y) {
      RmdirNames(t, d, k, x, a, i, y);
    }
    FewerNames(t, v);
  }

  /** Names after rmdir: those there were, but for the one removed and those in x. */
  lemma RmdirNames(t: seq<Inode>, d: nat, k: nat, x: nat, b: nat, l: nat, y: nat)
    requires Removable(t, d, k, x) && y != 0
    ensures Names(RmdirStep(t, d, k, x), b, l, y) <==> Names(t, b, l, y) && b != x && !(b == d && l == k)
  {
    hide Tree, EmptyDir, RmdirStep;
    RmdirShape(t, d, k, x);
  }

  lemma RmdirDirOk(t: seq<Inode>, d: nat, k: nat, x: nat, b: nat)
    requires Removable(t, d, k, x) && b < |t| && Linked(RmdirStep(t, d, k, x)[b])
    ensures DirOk(RmdirStep(t, d, k, x), b, RmdirStep(t, d, k, x)[b])
  {
    hide Tree, RmdirStep;
    var v := RmdirStep(t, d, k, x);
    RmdirShape(t, d, k, x);
    EmptyNoParent(t, x, b);
    DirAt(t, b);
    forall l | 2 <= l < |v[b].entries| ensures EntryOk(v, v[b].entries[l]) {
      if !(b == d && l == k) { assert EntryOk(t, t[b].entries[l]); }
    }
  }

  lemma RmdirParent(t: seq<Inode>, d: nat, k: nat, x: nat, c: nat)
    requires Removable(t, d, k, x) && c < |t|
    ensures ParentNames(RmdirStep(t, d, k, x), c)
  {
    hide RmdirStep, Tree, DirOk, EmptyDir, Names;
    var v := RmdirStep(t, d, k, x);
    RmdirShape(t, d, k, x);
    if Linked(v[c]) && c != ROOT {
      EmptyNoParent(t, x, c);
      TreeZero(t);
      var l := NamedBy(t, c);
      var p := t[c].entries[1].inum;
      RmdirNames(t, d, k, x, p, l, c);
      OtherChild(t, d, k, x, c);
      assert v[c].entries[1] == t[c].entries[1] by { KeptDots(t, d, k); }
      assert Names(v, v[c].entries[1].inum, l, c);
    }
  }

  lemma NamedBy(t: seq<Inode>, c: nat) returns (l: nat)
    requires Tree(t) && c < |t| && Linked(t[c]) && c != ROOT && |t[c].entries| >= 2
    ensures Names(t, t[c].entries[1].inum, l, c)
  {
    assert ParentNames(t, c);
    l :| Names(t, t[c].entries[1].inum, l, c);
  }

  lemma KeptDots(t: seq<Inode>, d: nat, k: nat)
    requires d < |t| && 2 <= k < |t[d].entries|
    ensures t[d].entries[k := EMPTY][1] == t[d].entries[1]
  {
  }

  lemma OtherChild(t: seq<Inode>, d: nat, k: nat, x: nat, c: nat)
    requires Names(t, d, k, x) && c != x
    ensures !Names(t, d, k, c) && 2 <= k < |t[d].entries|
  {
  }

  lemma RmdirInv(t: seq<Inode>, d: nat, k: nat, x: nat)
    requires Inv(t) && CanRmdir(t, d, k, x)
    ensures Inv(RmdirStep(t, d, k, x))
  {
    RmdirCounts(t, d, k, x);
    RmdirTree(t, d, k, x);
    hide Tree, Counts;
  }

  // ------------------------------------------------------------ runs

  datatype Call =
    | Link(x: nat, d: nat, k: nat, name: Name)
    | Unlink(d: nat, k: nat, x: nat)
    | Rmdir(d: nat, k: nat, x: nat)
    | Create(d: nat, k: nat, name: Name, x: nat, kind: Kind)
    | Mkdir(d: nat, k: nat, name: Name, x: nat)
    | Drop(x: nat)
    | Failed

  ghost predicate Allowed(t: seq<Inode>, c: Call) {
    match c
    case Link(x, d, k, name) => 0 < x < |t| && t[x].kind != Dir && t[x].kind != Free && Room(t, d, k, name)
    case Unlink(d, k, x) => Names(t, d, k, x) && x != 0 && x < |t| && t[x].kind != Dir
    case Rmdir(d, k, x) => CanRmdir(t, d, k, x)
    case Create(d, k, name, x, kind) => Room(t, d, k, name) && 0 < x < |t| && t[x].kind == Free && kind != Free
      && kind != Dir
    case Mkdir(d, k, name, x) => Room(t, d, k, name) && 0 < x < |t| && t[x].kind == Free
    case Drop(x) => 0 < x < |t| && t[x].nlink == 0
    case Failed => true
  }

  ghost predicate Next(t: seq<Inode>, c: Call, v: seq<Inode>) {
    && Allowed(t, c)
    && match c
       case Link(x, d, k, name) => v == LinkStep(t, x, d, k, name)
       case Unlink(d, k, x) => d != x && v == UnlinkStep(t, d, k)
       case Rmdir(d, k, x) => v == RmdirStep(t, d, k, x)
       case Create(d, k, name, x, kind) => v == CreateStep(t, d, k, name, x, kind)
       case Mkdir(d, k, name, x) => v == MkdirStep(t, d, k, name, x)
       case Drop(x) => v == t[x := NONE]
       case Failed => v == t
  }

  lemma NextInv(t: seq<Inode>, c: Call, v: seq<Inode>)
    requires Inv(t) && Next(t, c, v)
    ensures Inv(v)
  {
    hide Inv;
    match c
    case Link(x, d, k, name) => LinkInv(t, x, d, k, name);
    case Unlink(d, k, x) => UnlinkInv(t, d, k, x);
    case Rmdir(d, k, x) => RmdirInv(t, d, k, x);
    case Create(d, k, name, x, kind) => CreateInv(t, d, k, name, x, kind);
    case Mkdir(d, k, name, x) => MkdirInv(t, d, k, name, x);
    case Drop(x) => DropInv(t, x);
    case Failed =>
  }

  ghost predicate Run(states: seq<seq<Inode>>, calls: seq<Call>) {
    && |states| == |calls| + 1 && Inv(states[0])
    && forall i :: 0 <= i < |calls| ==> Next(states[i], calls[i], states[i + 1])
  }

  /** In every run of create, link and unlink on linked directories, each inode's link count
      is the number of entries other than "." that name it from linked directories. */
  lemma {:induction false} LinkCountsHold(states: seq<seq<Inode>>, calls: seq<Call>, n: nat, x: nat)
    requires Run(states, calls) && n < |states| && 0 < x < |states[n]|
    ensures Inv(states[n]) && states[n][x].nlink == All(states[n], x)
  {
    RunInv(states, calls, n);
  }

  lemma {:induction false} RunInv(states: seq<seq<Inode>>, calls: seq<Call>, n: nat)
    requires Run(states, calls) && n < |states|
    ensures Inv(states[n])
  {
    hide Inv, Next;
    if n > 0 {
      RunInv(states, calls, n - 1);
      NextInv(states[n - 1], calls[n - 1], states[n]);
    }
  }

  /** The runs can start from an empty file system. */
  lemma FreshInv(n: nat)
    ensures Inv(Fresh(n))
  {
    var t := Fresh(n);
    forall x: nat | 0 < x < |t| ensures t[x].nlink == All(t, x) && (t[x].kind == Free ==> t[x] == NONE) {
      FreshTotal(n, x, |t|);
    }
    FreshTree(n);
    hide Tree;
  }

  lemma FreshTree(n: nat)
    ensures Tree(Fresh(n))
  {
    var t := Fresh(n);
    var root := Inode(Dir, 1, [Entry(ROOT, "."), Entry(ROOT, "..")]);
    assert |t| == n + 2 && t[0] == NONE && t[ROOT] == root;
    assert forall d: nat :: d < |t| ==> t[d] == NONE || (d == ROOT && t[d] == root);
    hide Fresh;
    assert forall d: nat :: d < |t| ==> (Linked(t[d]) <==> d == ROOT);
    forall d: nat, k: nat, x: nat ensures !Names(t, d, k, x) {
    }
  }

  lemma {:induction false} FreshTotal(n: nat, x: nat, m: nat)
    requires m <= n + 2 && x > 0
    ensures Total(Fresh(n), x, m) == if m >= 2 && x == ROOT then 1 else 0
  {
    if m > 0 {
      FreshTotal(n, x, m - 1);
      TwoEntries(Entry(ROOT, "."), Entry(ROOT, ".."), x);
    }
  }
}

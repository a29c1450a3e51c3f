/** Directories as maps from names to inodes: no directory has a name twice, and each call
    of Links changes one name of one directory and nothing else. */
module DirNames {
  import opened Links

  /** The inode that a lookup of the name finds (fs.c:529-553), or 0. */
  function Find(es: seq<Entry>, name: Name): nat {
    if es == [] then 0 else if Matches(es[0], name) then es[0].inum else Find(es[1..], name)
  }

  ghost predicate Unique(es: seq<Entry>) {
    forall i, j :: 0 <= i < j < |es| && es[i].inum != 0 && es[j].inum != 0 ==> es[i].name != es[j].name
  }

  ghost predicate AllUnique(t: seq<Inode>) {
    forall d :: 0 <= d < |t| ==> Unique(t[d].entries)
  }

  lemma {:induction false} FindNone(es: seq<Entry>, name: Name)
    requires NoMatch(es, name)
    ensures Find(es, name) == 0
  {
    if es != [] {
      assert !Matches(es[0], name);
      forall j | 0 <= j < |es| - 1 ensures !Matches(es[1..][j], name) { assert es[1..][j] == es[j + 1]; }
      FindNone(es[1..], name);
    }
  }

  lemma {:induction false} FindAt(es: seq<Entry>, name: Name, k: nat)
    requires Unique(es) && k < |es| && Matches(es[k], name)
    ensures Find(es, name) == es[k].inum != 0
  {
    if k > 0 {
      var rest := es[1..];
      assert rest[k - 1] == es[k] && !Matches(es[0], name);
      forall i, j | 0 <= i < j < |rest| && rest[i].inum != 0 && rest[j].inum != 0 ensures rest[i].name != rest[j].name {
        assert rest[i] == es[i + 1] && rest[j] == es[j + 1];
      }
      FindAt(rest, name, k - 1);
    }
  }

  /** Entry k becomes e; k may be one past the end. */
  function Set(es: seq<Entry>, k: nat, e: Entry): seq<Entry>
    requires k <= |es|
  {
    if k < |es| then es[k := e] else es + [e]
  }

  /** Other entries are found as before. */
  lemma FindElse(es: seq<Entry>, k: nat, e: Entry, name: Name)
    requires Unique(es) && k <= |es| && Unique(Set(es, k, e))
    requires !Matches(e, name) && (k < |es| ==> !Matches(es[k], name))
    ensures Find(Set(es, k, e), name) == Find(es, name)
  {
    var fs := Set(es, k, e);
    if j :| 0 <= j < |es| && Matches(es[j], name) {
      assert fs[j] == es[j];
      FindAt(es, name, j);
      FindAt(fs, name, j);
    } else {
      FindNone(es, name);
      FindNone(fs, name);
    }
  }

  /** A new name in an empty place. */
  lemma FindSet(es: seq<Entry>, k: nat, e: Entry, name: Name)
    requires Unique(es) && k <= |es| && (k < |es| ==> es[k].inum == 0) && e.inum != 0 && NoMatch(es, e.name)
    ensures Unique(Set(es, k, e))
    ensures Find(Set(es, k, e), name) == if name == e.name then e.inum else Find(es, name)
  {
    var fs := Set(es, k, e);
    forall i, j | 0 <= i < j < |fs| && fs[i].inum != 0 && fs[j].inum != 0 ensures fs[i].name != fs[j].name {
      if i == k { assert !Matches(es[j], e.name); }
      if j == k { assert !Matches(es[i], e.name); }
    }
    if name == e.name { FindAt(fs, name, k); } else { FindElse(es, k, e, name); }
  }

  /** A name is removed. */
  lemma FindClear(es: seq<Entry>, k: nat, name: Name)
    requires Unique(es) && k < |es| && es[k].inum != 0
    ensures Unique(Set(es, k, EMPTY))
    ensures Find(Set(es, k, EMPTY), name) == if name == es[k].name then 0 else Find(es, name)
    ensures Find(es, es[k].name) == es[k].inum
  {
    var fs := Set(es, k, EMPTY);
    FindAt(es, es[k].name, k);
    if name == es[k].name {
      forall j | 0 <= j < |fs| ensures !Matches(fs[j], name) {
        assert j < k ==> es[j].inum != 0 ==> es[j].name != name;
      }
      FindNone(fs, name);
    } else {
      FindElse(es, k, EMPTY, name);
    }
  }

  /** A new directory has its two dot entries. */
  lemma FindDots(x: nat, d: nat, name: Name)
    requires x > 0 && d > 0
    ensures Unique(NewDir(x, d).entries)
    ensures Find(NewDir(x, d).entries, name) == if name == "." then x else if name == ".." then d else 0
  {
    var es := NewDir(x, d).entries;
    assert es == [Entry(x, "."), Entry(d, "..")];
    if name == "." { FindAt(es, name, 0); } else if name == ".." { FindAt(es, name, 1); } else { FindNone(es, name); }
  }

  // ------------------------------------------------------------ calls

  /** Inodes other than x keep their kinds, and their names but for that name in d. */
  ghost predicate Else(t: seq<Inode>, v: seq<Inode>, d: nat, name: Name, x: nat) {
    && |v| == |t|
    && forall c: nat :: c < |t| && c != x ==> KeepsBut(t[c], v[c], c == d, name)
  }

  ghost predicate KeepsBut(i: Inode, j: Inode, here: bool, name: Name) {
    j.kind == i.kind && forall nm :: !(here && nm == name) ==> Find(j.entries, nm) == Find(i.entries, nm)
  }

  /** What a call does to the names and the kinds; |t| stands for no inode. */
  ghost predicate Effect(t: seq<Inode>, c: Call, v: seq<Inode>) {
    match c
    case Link(x, d, _, name) => d < |v| && Else(t, v, d, name, |t|) && Find(v[d].entries, name) == x
    case Unlink(d, k, x) => Removes(t, v, d, k, x)
    case Rmdir(d, k, x) => Removes(t, v, d, k, x)
    case Create(d, _, name, x, kind) =>
      && d < |v| && x < |v| && d != x && Else(t, v, d, name, x) && Find(v[d].entries, name) == x
      && v[x] == Inode(kind, 1, [])
    case Mkdir(d, _, name, x) =>
      && d < |v| && x < |v| && d != x && Else(t, v, d, name, x) && Find(v[d].entries, name) == x
      && v[x].kind == Dir && v[x].nlink == 1 && Find(v[x].entries, ".") == x && Find(v[x].entries, "..") == d
      && forall nm :: nm != "." && nm != ".." ==> Find(v[x].entries, nm) == 0
    case Drop(x) => x < |v| && v[x].kind == Free && forall d: nat :: d < |t| && d != x ==> d < |v| && v[d] == t[d]
    case Failed => v == t
  }

  /** One name of d is gone, which was that of x. */
  ghost predicate Removes(t: seq<Inode>, v: seq<Inode>, d: nat, k: nat, x: nat) {
    && d < |t| && d < |v| && k < |t[d].entries|
    && var name := t[d].entries[k].name;
       Else(t, v, d, name, |t|) && Find(t[d].entries, name) == x && Find(v[d].entries, name) == 0
  }

  /** A table in which only directory d has other entries, namely es with entry k set to e. */
  ghost predicate SetIn(t: seq<Inode>, v: seq<Inode>, d: nat, k: nat, e: Entry, x: nat) {
    && |v| == |t| && d < |t| && d != x && k <= |t[d].entries|
    && (forall c: nat :: c < |t| && c != x ==> v[c].kind == t[c].kind && (c != d ==> v[c].entries == t[c].entries))
    && v[d].entries == Set(t[d].entries, k, e) && (x < |t| ==> Unique(v[x].entries))
  }

  lemma SetEffect(t: seq<Inode>, v: seq<Inode>, d: nat, k: nat, e: Entry, x: nat)
    requires AllUnique(t) && SetIn(t, v, d, k, e, x) && e.inum != 0 && NoMatch(t[d].entries, e.name)
    requires k < |t[d].entries| ==> t[d].entries[k].inum == 0
    ensures |v| == |t| && AllUnique(v) && Else(t, v, d, e.name, x) && Find(v[d].entries, e.name) == e.inum
  {
    hide Find, Unique, NoMatch;
    forall nm ensures Find(v[d].entries, nm) == if nm == e.name then e.inum else Find(t[d].entries, nm) {
      FindSet(t[d].entries, k, e, nm);
    }
    FindSet(t[d].entries, k, e, e.name);
  }

  lemma ClearEffect(t: seq<Inode>, v: seq<Inode>, d: nat, k: nat, x: nat)
    requires AllUnique(t) && SetIn(t, v, d, k, EMPTY, |t|) && k < |t[d].entries| && t[d].entries[k].inum == x != 0
    ensures AllUnique(v) && Removes(t, v, d, k, x)
  {
    hide Find, Unique;
    var es := t[d].entries;
    forall nm ensures Find(v[d].entries, nm) == if nm == es[k].name then 0 else Find(es, nm) {
      FindClear(es, k, nm);
    }
    FindClear(es, k, es[k].name);
  }

  // The tables of the steps.

  lemma PutShape(t: seq<Inode>, u: seq<Inode>, d: nat, k: nat, e: Entry, x: nat)
    requires |u| == |t| && d < |t| && d != x && k <= |t[d].entries| && (x < |t| ==> Unique(u[x].entries))
    requires forall c: nat :: c < |t| && c != x ==> u[c].kind == t[c].kind && u[c].entries == t[c].entries
    ensures SetIn(t, PutEntry(u, d, k, e), d, k, e, x)
  {
  }

  lemma LinkShape(t: seq<Inode>, x: nat, d: nat, k: nat, name: Name)
    requires x < |t| && d < |t| && d != x && k <= |t[d].entries|
    ensures SetIn(t, LinkStep(t, x, d, k, name), d, k, Entry(x, name), |t|)
  {
    PutShape(t, AddLinks(t, x, 1), d, k, Entry(x, name), |t|);
  }

  lemma UnlinkShape(t: seq<Inode>, d: nat, k: nat)
    requires d < |t| && k < |t[d].entries| && t[d].entries[k].inum < |t| && t[d].entries[k].inum != d
    ensures SetIn(t, UnlinkStep(t, d, k), d, k, EMPTY, |t|)
  {
    PutShape(t, t, d, k, EMPTY, |t|);
  }

  lemma RemoveShape(t: seq<Inode>, d: nat, k: nat, x: nat)
    requires d < |t| && k < |t[d].entries| && x < |t|
    ensures SetIn(t, RmdirStep(t, d, k, x), d, k, EMPTY, |t|)
  {
    PutShape(t, t, d, k, EMPTY, |t|);
  }

  lemma CreateShape(t: seq<Inode>, d: nat, k: nat, name: Name, x: nat, kind: Kind)
    requires x < |t| && d < |t| && d != x && k <= |t[d].entries|
    ensures var v := CreateStep(t, d, k, name, x, kind);
            SetIn(t, v, d, k, Entry(x, name), x) && v[x] == Inode(kind, 1, [])
  {
    PutShape(t, t[x := Inode(kind, 1, [])], d, k, Entry(x, name), x);
  }

  lemma MkdirShape(t: seq<Inode>, d: nat, k: nat, name: Name, x: nat)
    requires 0 < x < |t| && 0 < d < |t| && d != x && k <= |t[d].entries|
    ensures var v := MkdirStep(t, d, k, name, x);
            SetIn(t, v, d, k, Entry(x, name), x) && v[x] == NewDir(x, d)
  {
    FindDots(x, d, ".");
    hide Unique;
    PutShape(t, AddLinks(t[x := NewDir(x, d)], d, 1), d, k, Entry(x, name), x);
  }

  /** Every call does just that, and keeps names unique. */
  lemma CallEffect(t: seq<Inode>, c: Call, v: seq<Inode>)
    requires Inv(t) && AllUnique(t) && Next(t, c, v)
    ensures AllUnique(v) && Effect(t, c, v)
  {
    hide Inv, Find, Unique, NoMatch, Else, Removes, SetIn, EmptyDir, LinkStep, UnlinkStep, RmdirStep, CreateStep,
         MkdirStep, NewDir;
    NotZero(t);
    match c
    case Link(x, d, k, name) =>
      LinkShape(t, x, d, k, name);
      SetEffect(t, v, d, k, Entry(x, name), |t|);
    case Unlink(d, k, x) =>
      UnlinkShape(t, d, k);
      ClearEffect(t, v, d, k, x);
    case Rmdir(d, k, x) =>
      RemoveShape(t, d, k, x);
      ClearEffect(t, v, d, k, x);
    case Create(d, k, name, x, kind) =>
      CreateShape(t, d, k, name, x, kind);
      SetEffect(t, v, d, k, Entry(x, name), x);
    case Mkdir(d, k, name, x) =>
      MkdirShape(t, d, k, name, x);
      SetEffect(t, v, d, k, Entry(x, name), x);
      NewDirEffect(v[x], x, d);
    case Drop(x) => NoEntries();
    case Failed =>
  }

  lemma NotZero(t: seq<Inode>)
    requires Inv(t)
    ensures t != [] && t[0] == NONE
  {
  }

  lemma NewDirEffect(i: Inode, x: nat, d: nat)
    requires i == NewDir(x, d) && x > 0 && d > 0
    ensures i.kind == Dir && i.nlink == 1 && Find(i.entries, ".") == x && Find(i.entries, "..") == d
    ensures forall nm :: nm != "." && nm != ".." ==> Find(i.entries, nm) == 0
  {
    hide Find, Unique;
    forall nm ensures Find(i.entries, nm) == if nm == "." then x else if nm == ".." then d else 0 {
      FindDots(x, d, nm);
    }
  }

  /** The names in a new inode. */
  ghost predicate NewNames(i: Inode, x: nat, d: nat, kind: Kind) {
    forall nm ::
      Find(i.entries, nm) == if kind == Dir && nm == "." then x else if kind == Dir && nm == ".." then d else 0
  }

  lemma CreatedNames(t: seq<Inode>, c: Call, v: seq<Inode>)
    requires Effect(t, c, v) && (c.Mkdir? || c.Create?) && (c.Create? ==> c.kind != Dir)
    ensures c.x < |v| && NewNames(v[c.x], c.x, c.d, if c.Mkdir? then Dir else c.kind)
    ensures Else(t, v, c.d, c.name, c.x) && c.d < |v| && Find(v[c.d].entries, c.name) == c.x
    ensures v[c.x].kind == (if c.Mkdir? then Dir else c.kind) && v[c.x].nlink == 1
  {
    hide Else;
    assert forall nm :: Find([], nm) == 0;
  }

  lemma NoEntries()
    ensures Unique([])
  {
  }

  /** In every run that starts with unique names: they stay unique, and each call has its
      effect. */
  lemma {:induction false} NamesHold(states: seq<seq<Inode>>, calls: seq<Call>, n: nat)
    requires Run(states, calls) && AllUnique(states[0]) && n < |states|
    ensures AllUnique(states[n]) && (n < |calls| ==> Effect(states[n], calls[n], states[n + 1]))
  {
    hide Inv, Next, Effect, AllUnique;
    if n > 0 {
      var m := n - 1;
      NamesHold(states, calls, m);
      RunInv(states, calls, m);
      assert Next(states[m], calls[m], states[m + 1]);
      CallEffect(states[m], calls[m], states[n]);
    }
    RunInv(states, calls, n);
    if n < |calls| { CallEffect(states[n], calls[n], states[n + 1]); }
  }

  lemma FreshUnique(n: nat)
    ensures AllUnique(Fresh(n))
  {
  }
}

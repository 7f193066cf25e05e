/** Directories and link counts (fs.c: dirlookup, dirlink; sysfile.c: create, link, unlink).

    The inode table has a fixed size.  A directory's entries are its slots in file order; a
    slot with inode number 0 is empty.  `depth` and `slot` are not in the kernel: how far a
    directory is below the root, and which slot of its parent names it. */
module Dirs {
  import opened Counting

  datatype Entry = Entry(name: string, inum: nat)

  /** Plain inodes are files, and devices and symbolic links, which are not. */
  datatype Kind = Free | Dir | Plain(file: bool)

  datatype Inode = Inode(kind: Kind, nlink: nat, entries: seq<Entry>)

  const ROOTINO := 1
  const EMPTY := Entry("", 0)

  // ----- Counting -----

  /** Does this entry of `d` count as a link to `i`?  "." never does, and ".." does not once
      the directory is unlinked. */
  predicate Counted(linked: bool, e: Entry, i: nat) {
    e.inum == i && i != 0 && e.name != "." && (e.name == ".." ==> linked)
  }

  /** Links to `i` among the first `k` entries. */
  function CountIn(linked: bool, es: seq<Entry>, i: nat, k: nat): nat
    requires k <= |es|
  {
    if k == 0 then 0 else CountIn(linked, es, i, k - 1) + Bit(Counted(linked, es[k - 1], i))
  }

  function CountOf(d: Inode, i: nat): nat {
    CountIn(d.nlink > 0, d.entries, i, |d.entries|)
  }

  /** Links to `i` in the first `n` inodes. */
  function Count(ns: seq<Inode>, i: nat, n: nat): nat
    requires n <= |ns|
  {
    if n == 0 then 0 else Count(ns, i, n - 1) + CountOf(ns[n - 1], i)
  }

  function Links(ns: seq<Inode>, i: nat): nat {
    Count(ns, i, |ns|)
  }

  /** Writing slot `s`, which may be the first one past the end. */
  function Put(es: seq<Entry>, s: nat, e: Entry): (r: seq<Entry>)
    requires s <= |es|
    ensures |r| >= |es| && s < |r| <= |es| + 1 && r[s] == e && forall t :: 0 <= t < |es| && t != s ==> r[t] == es[t]
  {
    if s < |es| then es[s := e] else es + [e]
  }

  lemma {:induction false} CountSame(linked: bool, es: seq<Entry>, es': seq<Entry>, i: nat, k: nat)
    requires k <= |es| && k <= |es'| && forall t :: 0 <= t < k ==> es[t] == es'[t]
    ensures CountIn(linked, es, i, k) == CountIn(linked, es', i, k)
  {
    if k > 0 {
      CountSame(linked, es, es', i, k - 1);
    }
  }

  lemma {:induction false} CountSet(linked: bool, es: seq<Entry>, s: nat, e: Entry, i: nat, k: nat)
    requires s < |es| && k <= |es|
    ensures CountIn(linked, es[s := e], i, k) + Bit(s < k && Counted(linked, es[s], i)) ==
            CountIn(linked, es, i, k) + Bit(s < k && Counted(linked, e, i))
  {
    if k > 0 {
      CountSet(linked, es, s, e, i, k - 1);
    }
  }

  /** Writing a slot changes the count by what is replaced and what is put there. */
  lemma CountPut(linked: bool, es: seq<Entry>, s: nat, e: Entry, i: nat)
    requires s <= |es|
    ensures CountIn(linked, Put(es, s, e), i, |Put(es, s, e)|) + Bit(s < |es| && Counted(linked, es[s], i))
         == CountIn(linked, es, i, |es|) + Bit(Counted(linked, e, i))
  {
    if s < |es| {
      CountSet(linked, es, s, e, i, |es|);
    } else {
      CountSame(linked, es, es + [e], i, |es|);
    }
  }

  lemma {:induction false} CountInode(ns: seq<Inode>, d: nat, nd: Inode, i: nat, n: nat)
    requires d < |ns| && n <= |ns|
    ensures Count(ns[d := nd], i, n) + (if d < n then CountOf(ns[d], i) else 0) ==
            Count(ns, i, n) + (if d < n then CountOf(nd, i) else 0)
  {
    if n > 0 {
      CountInode(ns, d, nd, i, n - 1);
    }
  }

  /** Replacing one inode. */
  lemma LinksSet(ns: seq<Inode>, d: nat, nd: Inode, i: nat)
    requires d < |ns|
    ensures Links(ns[d := nd], i) + CountOf(ns[d], i) == Links(ns, i) + CountOf(nd, i)
  {
    CountInode(ns, d, nd, i, |ns|);
  }

  lemma {:induction false} CountInPositive(linked: bool, es: seq<Entry>, i: nat, k: nat, s: nat)
    requires s < k <= |es| && Counted(linked, es[s], i)
    ensures CountIn(linked, es, i, k) > 0
  {
    if s < k - 1 {
      CountInPositive(linked, es, i, k - 1, s);
    }
  }

  lemma {:induction false} CountPositive(ns: seq<Inode>, i: nat, n: nat, d: nat, s: nat)
    requires d < n <= |ns| && s < |ns[d].entries| && Counted(ns[d].nlink > 0, ns[d].entries[s], i)
    ensures Count(ns, i, n) > 0
  {
    if d < n - 1 {
      CountPositive(ns, i, n - 1, d, s);
    } else {
      CountInPositive(ns[d].nlink > 0, ns[d].entries, i, |ns[d].entries|, s);
    }
  }

  /** Entry `s` of directory `d` counts as a link to `i`. */
  predicate LinkAt(ns: seq<Inode>, d: nat, s: nat, i: nat) {
    d < |ns| && s < |ns[d].entries| && Counted(ns[d].nlink > 0, ns[d].entries[s], i)
  }

  lemma {:induction false} CountInZero(linked: bool, es: seq<Entry>, i: nat, k: nat)
    requires k <= |es| && forall s :: 0 <= s < k ==> !Counted(linked, es[s], i)
    ensures CountIn(linked, es, i, k) == 0
  {
    if k > 0 {
      CountInZero(linked, es, i, k - 1);
    }
  }

  lemma {:induction false} CountZero(ns: seq<Inode>, i: nat, n: nat)
    requires n <= |ns| && forall d: nat, s: nat {:trigger LinkAt(ns, d, s, i)} :: d < n ==> !LinkAt(ns, d, s, i)
    ensures Count(ns, i, n) == 0
  {
    if n > 0 {
      CountZero(ns, i, n - 1);
      var es := ns[n - 1].entries;
      forall s | 0 <= s < |es| ensures !Counted(ns[n - 1].nlink > 0, es[s], i) {
        assert !LinkAt(ns, n - 1, s, i);
      }
      CountInZero(ns[n - 1].nlink > 0, es, i, |es|);
    }
  }

  // ----- The directory tree -----

  datatype Tree = Tree(ns: seq<Inode>, depth: seq<nat>, slot: seq<nat>)

  predicate Shaped(t: Tree) {
    && |t.depth| == |t.ns| && |t.slot| == |t.ns|
    && ROOTINO < |t.ns| && t.ns[ROOTINO].kind.Dir? && t.ns[ROOTINO].nlink > 0
  }

  predicate IsDir(t: Tree, d: nat) {
    d < |t.ns| && t.ns[d].kind.Dir? && |t.ns[d].entries| >= 2
  }

  predicate Live(t: Tree, d: nat) {
    IsDir(t, d) && t.ns[d].nlink > 0
  }

  /** Slot `s` of `d` names inode `i`. */
  predicate Names(t: Tree, d: nat, s: nat, i: nat) {
    IsDir(t, d) && s < |t.ns[d].entries| && t.ns[d].entries[s].inum == i && i != 0
  }

  /** Only directories have entries, and free inodes have no links. */
  predicate KindOk(t: Tree, i: nat)
    requires i < |t.ns|
  {
    && (i == 0 ==> t.ns[i].kind.Free?)
    && (!t.ns[i].kind.Dir? ==> t.ns[i].entries == [])
    && (t.ns[i].kind.Free? ==> t.ns[i].nlink == 0)
    && (t.ns[i].kind.Dir? ==>
          && IsDir(t, i) && t.ns[i].entries[0] == Entry(".", i) && t.ns[i].entries[1].name == ".."
          && 0 < t.ns[i].entries[1].inum < |t.ns| && (i != ROOTINO ==> t.ns[i].entries[1].inum != i))
  }

  /** ".." of a linked directory names its parent, which is linked, one level up, and has an
      entry for it. */
  predicate ParentOk(t: Tree, d: nat)
    requires Shaped(t) && Live(t, d)
  {
    var p := t.ns[d].entries[1].inum;
    && Live(t, p)
    && (d == ROOTINO ==> p == ROOTINO && t.depth[d] == 0)
    && (d != ROOTINO ==> t.depth[d] == t.depth[p] + 1 && t.slot[d] >= 2 && Names(t, p, t.slot[d], d))
  }

  /** An ordinary entry names an inode in the table, under a name of its own; one that names
      a directory is in that directory's parent, and the only one. */
  predicate EntryOk(t: Tree, d: nat, s: nat)
    requires Shaped(t) && IsDir(t, d) && 2 <= s < |t.ns[d].entries|
  {
    var e := t.ns[d].entries[s];
    e.inum != 0 ==>
      && t.ns[d].nlink > 0 && e.name != "." && e.name != ".." && e.inum < |t.ns|
      && (t.ns[e.inum].kind.Dir? ==>
           IsDir(t, e.inum) && e.inum != ROOTINO && t.ns[e.inum].entries[1].inum == d && t.slot[e.inum] == s)
  }

  predicate NamesDiffer(t: Tree, d: nat, a: nat, b: nat) {
    d < |t.ns| && a < b < |t.ns[d].entries| && t.ns[d].entries[a].inum != 0 && t.ns[d].entries[b].inum != 0 ==>
        t.ns[d].entries[a].name != t.ns[d].entries[b].name
  }

  predicate CountOk(t: Tree, i: nat)
    requires i < |t.ns|
  {
    i != 0 ==> t.ns[i].nlink == Links(t.ns, i)
  }

  ghost predicate Structure(t: Tree) {
    && Shaped(t)
    && (forall i: nat {:trigger KindOk(t, i)} :: i < |t.ns| ==> KindOk(t, i))
    && (forall d: nat {:trigger ParentOk(t, d)} :: Live(t, d) ==> ParentOk(t, d))
    && (forall d: nat, s: nat {:trigger EntryOk(t, d, s)} ::
          IsDir(t, d) && 2 <= s < |t.ns[d].entries| ==> EntryOk(t, d, s))
    && (forall d: nat, a: nat, b: nat {:trigger NamesDiffer(t, d, a, b)} :: NamesDiffer(t, d, a, b))
  }

  ghost predicate Inv(t: Tree) {
    Structure(t) && forall i: nat {:trigger CountOk(t, i)} :: i < |t.ns| ==> CountOk(t, i)
  }

  // ----- Operations -----

  predicate Absent(d: Inode, name: string) {
    forall s :: 0 <= s < |d.entries| && d.entries[s].inum != 0 ==> d.entries[s].name != name
  }

  /** Slot `s` can take a new entry. */
  predicate Vacant(d: Inode, s: nat) {
    s <= |d.entries| && (s < |d.entries| ==> d.entries[s].inum == 0)
  }

  /** The inode that create makes. */
  function NewInode(kind: Kind, i: nat, dp: nat): Inode {
    if kind.Dir? then Inode(Dir, 1, [Entry(".", i), Entry("..", dp)]) else Inode(kind, 1, [])
  }

  /** create: a new inode `i` under `name` in slot `s` of `dp`. */
  function Created(t: Tree, dp: nat, s: nat, name: string, i: nat, kind: Kind): Tree
    requires Shaped(t) && IsDir(t, dp) && Vacant(t.ns[dp], s) && i < |t.ns|
  {
    var p := t.ns[dp];
    var p' := Inode(Dir, p.nlink + Bit(kind.Dir?), Put(p.entries, s, Entry(name, i)));
    Tree(t.ns[i := NewInode(kind, i, dp)][dp := p'], t.depth[i := t.depth[dp] + 1], t.slot[i := s])
  }

  /** link: one more entry for `i`, which is not a directory. */
  function Linked(t: Tree, dp: nat, s: nat, name: string, i: nat): Tree
    requires IsDir(t, dp) && Vacant(t.ns[dp], s) && i < |t.ns|
  {
    var p' := t.ns[dp].(entries := Put(t.ns[dp].entries, s, Entry(name, i)));
    t.(ns := t.ns[i := t.ns[i].(nlink := t.ns[i].nlink + 1)][dp := p'])
  }

  /** unlink: slot `s` of `dp` is cleared. */
  function Unlinked(t: Tree, dp: nat, s: nat): Tree
    requires IsDir(t, dp) && s < |t.ns[dp].entries| && t.ns[dp].entries[s].inum < |t.ns|
    requires t.ns[dp].entries[s].inum != dp
    requires t.ns[t.ns[dp].entries[s].inum].nlink > 0
    requires t.ns[dp].nlink >= Bit(t.ns[t.ns[dp].entries[s].inum].kind.Dir?)
  {
    var i := t.ns[dp].entries[s].inum;
    var p' := Inode(Dir, t.ns[dp].nlink - Bit(t.ns[i].kind.Dir?), t.ns[dp].entries[s := EMPTY]);
    t.(ns := t.ns[dp := p'][i := t.ns[i].(nlink := t.ns[i].nlink - 1)])
  }

  /** The last iput of an inode without links. */
  function Freed(t: Tree, i: nat): Tree
    requires i < |t.ns|
  {
    t.(ns := t.ns[i := Inode(Free, 0, [])])
  }

  predicate EmptyDir(d: Inode) {
    forall s :: 2 <= s < |d.entries| ==> d.entries[s].inum == 0
  }

  // ----- What the operations do to the names -----

  /** `name` stands for inode `i` in directory `d`. */
  predicate NamedIn(ns: seq<Inode>, d: nat, name: string, i: nat) {
    d < |ns| && i != 0 && Entry(name, i) in ns[d].entries
  }

  /** The names after a new one in `dp`; a new directory has its dot names. */
  ghost predicate NameAdded(ns: seq<Inode>, ns': seq<Inode>, dp: nat, name: string, i: nat, newdir: bool) {
    && |ns'| == |ns|
    && forall d: nat, n: string, j: nat :: NamedIn(ns', d, n, j) <==>
         || NamedIn(ns, d, n, j) || (d == dp && n == name && j == i)
         || (newdir && d == i && ((n == "." && j == i) || (n == ".." && j == dp)))
  }

  ghost predicate NameTaken(ns: seq<Inode>, ns': seq<Inode>, dp: nat, name: string) {
    && |ns'| == |ns|
    && forall d: nat, n: string, j: nat ::
         NamedIn(ns', d, n, j) <==> NamedIn(ns, d, n, j) && !(d == dp && n == name)
  }

  /** Inode `k` as before, but for `more` links and its entries. */
  predicate OnlyLinks(n: Inode, n': Inode, more: int) {
    n'.kind == n.kind && n'.nlink == n.nlink + more
  }

  lemma PutNamed(es: seq<Entry>, s: nat, e: Entry, x: Entry)
    requires s <= |es| && (s < |es| ==> es[s].inum == 0) && x.inum != 0
    ensures x in Put(es, s, e) <==> x in es || x == e
  {
    var r := Put(es, s, e);
    if x in es {
      var u :| 0 <= u < |es| && es[u] == x;
      assert r[u] == x;
    }
    assert r[s] == e;
  }

  /** create adds one name. */
  lemma CreatedMeans(t: Tree, dp: nat, s: nat, name: string, i: nat, kind: Kind)
    requires Shaped(t) && IsDir(t, dp) && Vacant(t.ns[dp], s) && 0 < i < |t.ns| && i != dp && dp != 0
    requires t.ns[i].entries == []
    ensures var ns' := Created(t, dp, s, name, i, kind).ns;
            && NameAdded(t.ns, ns', dp, name, i, kind.Dir?) && ns'[i].kind == kind && ns'[i].nlink == 1
            && forall k :: 0 <= k < |t.ns| && k != i ==> OnlyLinks(t.ns[k], ns'[k], Bit(k == dp && kind.Dir?))
  {
    var ns' := Created(t, dp, s, name, i, kind).ns;
    forall n: string, j: nat | j != 0
      ensures NamedIn(ns', dp, n, j) <==> NamedIn(t.ns, dp, n, j) || (n == name && j == i)
    {
      PutNamed(t.ns[dp].entries, s, Entry(name, i), Entry(n, j));
    }
    assert kind.Dir? ==> ns'[i].entries[0] == Entry(".", i) && ns'[i].entries[1] == Entry("..", dp);
  }

  /** So does link. */
  lemma LinkedMeans(t: Tree, dp: nat, s: nat, name: string, i: nat)
    requires IsDir(t, dp) && Vacant(t.ns[dp], s) && 0 < i < |t.ns| && i != dp
    ensures var ns' := Linked(t, dp, s, name, i).ns;
            && NameAdded(t.ns, ns', dp, name, i, false)
            && forall k :: 0 <= k < |t.ns| ==> OnlyLinks(t.ns[k], ns'[k], Bit(k == i))
  {
    var ns' := Linked(t, dp, s, name, i).ns;
    forall n: string, j: nat | j != 0
      ensures NamedIn(ns', dp, n, j) <==> NamedIn(t.ns, dp, n, j) || (n == name && j == i)
    {
      PutNamed(t.ns[dp].entries, s, Entry(name, i), Entry(n, j));
    }
  }

  /** unlink takes one name away. */
  lemma UnlinkedMeans(t: Tree, dp: nat, s: nat, i: nat)
    requires Inv(t) && Names(t, dp, s, i) && i < |t.ns| && i != dp && t.ns[i].nlink > 0
    requires t.ns[dp].nlink >= Bit(t.ns[i].kind.Dir?)
    ensures var ns' := Unlinked(t, dp, s).ns;
            && NameTaken(t.ns, ns', dp, t.ns[dp].entries[s].name)
            && forall k :: 0 <= k < |t.ns| ==>
                 OnlyLinks(t.ns[k], ns'[k], 0 - Bit(k == i) - Bit(k == dp && t.ns[i].kind.Dir?))
  {
    var es, ns' := t.ns[dp].entries, Unlinked(t, dp, s).ns;
    forall n: string, j: nat | j != 0 ensures NamedIn(ns', dp, n, j) <==> NamedIn(t.ns, dp, n, j) && n != es[s].name {
      if NamedIn(t.ns, dp, n, j) {
        var u :| 0 <= u < |es| && es[u] == Entry(n, j);
        assert NamesDiffer(t, dp, u, s) && NamesDiffer(t, dp, s, u);
        assert ns'[dp].entries[u] == if u == s then EMPTY else es[u];
      }
      if NamedIn(ns', dp, n, j) {
        var u :| 0 <= u < |es| && ns'[dp].entries[u] == Entry(n, j);
        assert NamesDiffer(t, dp, u, s) && NamesDiffer(t, dp, s, u);
      }
    }
  }

  // ----- What the operations do to the counts -----

  lemma NewCount(kind: Kind, i: nat, dp: nat, x: nat)
    ensures CountOf(NewInode(kind, i, dp), x) == Bit(kind.Dir? && x == dp && x != 0)
  {
    if kind.Dir? {
      var es := NewInode(kind, i, dp).entries;
      assert CountIn(true, es, x, 1) == 0;
      assert CountIn(true, es, x, 2) == Bit(x == dp && x != 0);
    }
  }

  lemma CreatedLinks(t: Tree, dp: nat, s: nat, name: string, i: nat, kind: Kind, x: nat)
    requires Shaped(t) && Live(t, dp) && Vacant(t.ns[dp], s) && 0 < i < |t.ns| && i != dp && t.ns[i].entries == []
    requires name != "." && name != ".." && x != 0
    ensures Links(Created(t, dp, s, name, i, kind).ns, x) == Links(t.ns, x) + Bit(x == i) + Bit(kind.Dir? && x == dp)
  {
    var p := t.ns[dp];
    var ns1 := t.ns[i := NewInode(kind, i, dp)];
    var p' := Inode(Dir, p.nlink + Bit(kind.Dir?), Put(p.entries, s, Entry(name, i)));
    LinksSet(t.ns, i, NewInode(kind, i, dp), x);
    NewCount(kind, i, dp, x);
    LinksSet(ns1, dp, p', x);
    CountPut(true, p.entries, s, Entry(name, i), x);
  }

  lemma LinkedLinks(t: Tree, dp: nat, s: nat, name: string, i: nat, x: nat)
    requires Live(t, dp) && Vacant(t.ns[dp], s) && 0 < i < |t.ns| && t.ns[i].entries == []
    requires name != "." && name != ".." && x != 0
    ensures Links(Linked(t, dp, s, name, i).ns, x) == Links(t.ns, x) + Bit(x == i)
  {
    var p := t.ns[dp];
    var ns1 := t.ns[i := t.ns[i].(nlink := t.ns[i].nlink + 1)];
    LinksSet(t.ns, i, ns1[i], x);
    LinksSet(ns1, dp, p.(entries := Put(p.entries, s, Entry(name, i))), x);
    CountPut(true, p.entries, s, Entry(name, i), x);
  }

  /** A directory whose ".." is its only entry that counts. */
  lemma {:induction false} BareCount(linked: bool, es: seq<Entry>, x: nat, k: nat)
    requires 2 <= k <= |es| && es[0].name == "." && es[1].name == ".." && x != 0
    requires forall s :: 2 <= s < |es| ==> es[s].inum == 0
    ensures CountIn(linked, es, x, k) == Bit(linked && es[1].inum == x)
  {
    if k > 2 {
      BareCount(linked, es, x, k - 1);
    } else {
      assert CountIn(linked, es, x, 1) == 0;
    }
  }

  /** Taking away the name of a plain inode. */
  lemma UnlinkedPlain(t: Tree, dp: nat, s: nat, i: nat, x: nat)
    requires Live(t, dp) && Names(t, dp, s, i) && i < |t.ns| && t.ns[i].nlink > 0 && i != dp && x != 0
    requires t.ns[i].kind.Plain? && t.ns[i].entries == [] && t.ns[dp].entries[s].name != "."
    requires t.ns[dp].entries[s].name != ".."
    ensures Links(Unlinked(t, dp, s).ns, x) + Bit(x == i) == Links(t.ns, x)
  {
    var p, n := t.ns[dp], t.ns[i];
    var ns1 := t.ns[dp := Inode(Dir, p.nlink, p.entries[s := EMPTY])];
    LinksSet(t.ns, dp, ns1[dp], x);
    CountPut(true, p.entries, s, EMPTY, x);
    LinksSet(ns1, i, n.(nlink := n.nlink - 1), x);
  }

  /** Taking away the name of an empty directory with a single link; its ".." stops counting. */
  lemma UnlinkedDir(t: Tree, dp: nat, s: nat, i: nat, x: nat)
    requires Live(t, dp) && t.ns[dp].nlink > 1 && Names(t, dp, s, i) && IsDir(t, i) && t.ns[i].nlink == 1 && i != dp
    requires x != 0
    requires t.ns[i].entries[0].name == "." && t.ns[i].entries[1] == Entry("..", dp) && EmptyDir(t.ns[i])
    requires t.ns[dp].entries[s].name != "." && t.ns[dp].entries[s].name != ".."
    ensures Links(Unlinked(t, dp, s).ns, x) + Bit(x == i) + Bit(x == dp) == Links(t.ns, x)
  {
    var p, n := t.ns[dp], t.ns[i];
    var ns1 := t.ns[dp := Inode(Dir, p.nlink - 1, p.entries[s := EMPTY])];
    LinksSet(t.ns, dp, ns1[dp], x);
    CountPut(true, p.entries, s, EMPTY, x);
    LinksSet(ns1, i, n.(nlink := 0), x);
    BareCount(true, n.entries, x, |n.entries|);
    BareCount(false, n.entries, x, |n.entries|);
  }

  lemma FreedLinks(t: Tree, i: nat, x: nat)
    requires i < |t.ns| && x != 0 && t.ns[i].nlink == 0
    requires var es := t.ns[i].entries;
             es == [] || (IsDir(t, i) && es[0].name == "." && es[1].name == ".." && EmptyDir(t.ns[i]))
    ensures Links(Freed(t, i).ns, x) == Links(t.ns, x)
  {
    LinksSet(t.ns, i, Inode(Free, 0, []), x);
    if t.ns[i].entries != [] {
      BareCount(false, t.ns[i].entries, x, |t.ns[i].entries|);
    }
  }
}

/** The operations keep the directory tree and its link counts. */
module DirTree {
  import opened Counting
  import opened Dirs

  /** An inode without links is named by no ordinary entry and is nobody's parent. */
  lemma NotNamed(t: Tree, i: nat, d: nat, s: nat)
    requires Inv(t) && 0 < i < |t.ns| && t.ns[i].nlink == 0 && IsDir(t, d)
    ensures 2 <= s ==> !Names(t, d, s, i)
    ensures Live(t, d) ==> t.ns[d].entries[1].inum != i
  {
    assert CountOk(t, i) && KindOk(t, d);
    if 2 <= s && Names(t, d, s, i) {
      assert EntryOk(t, d, s);
      CountPositive(t.ns, i, |t.ns|, d, s);
    }
    if Live(t, d) && t.ns[d].entries[1].inum == i {
      CountPositive(t.ns, i, |t.ns|, d, 1);
    }
  }

  // ----- create -----

  predicate CanCreate(t: Tree, dp: nat, s: nat, name: string, i: nat, kind: Kind) {
    && Shaped(t) && Live(t, dp) && Vacant(t.ns[dp], s) && s >= 2 && Absent(t.ns[dp], name)
    && 0 < i < |t.ns| && t.ns[i].kind.Free? && !kind.Free?
  }

  lemma NotDots(t: Tree, dp: nat, name: string)
    requires Inv(t) && IsDir(t, dp) && Absent(t.ns[dp], name)
    ensures name != "." && name != ".."
  {
    assert KindOk(t, dp);
    assert t.ns[dp].entries[0].inum != 0;
  }

  lemma CreatedParent(t: Tree, dp: nat, s: nat, name: string, i: nat, kind: Kind, d: nat)
    requires Inv(t) && CanCreate(t, dp, s, name, i, kind) && Live(Created(t, dp, s, name, i, kind), d)
    ensures ParentOk(Created(t, dp, s, name, i, kind), d)
  {
    var t' := Created(t, dp, s, name, i, kind);
    assert KindOk(t, dp) && KindOk(t, i);
    if d != i {
      assert ParentOk(t, d);
      NotNamed(t, i, d, 0);
    }
  }

  lemma CreatedEntry(t: Tree, dp: nat, s: nat, name: string, i: nat, kind: Kind, d: nat, u: nat)
    requires Inv(t) && CanCreate(t, dp, s, name, i, kind)
    requires IsDir(Created(t, dp, s, name, i, kind), d) && 2 <= u < |Created(t, dp, s, name, i, kind).ns[d].entries|
    ensures EntryOk(Created(t, dp, s, name, i, kind), d, u)
  {
    var t' := Created(t, dp, s, name, i, kind);
    assert KindOk(t, dp) && KindOk(t, i);
    NotDots(t, dp, name);
    if !(d == dp && u == s) {
      assert EntryOk(t, d, u);
      NotNamed(t, i, d, u);
    }
  }

  lemma CreatedNames(t: Tree, dp: nat, s: nat, name: string, i: nat, kind: Kind, d: nat, a: nat, b: nat)
    requires Inv(t) && CanCreate(t, dp, s, name, i, kind)
    ensures NamesDiffer(Created(t, dp, s, name, i, kind), d, a, b)
  {
    assert KindOk(t, i) && NamesDiffer(t, d, a, b);
  }

  lemma CreatedKind(t: Tree, dp: nat, s: nat, name: string, i: nat, kind: Kind, x: nat)
    requires Inv(t) && CanCreate(t, dp, s, name, i, kind) && x < |t.ns|
    ensures KindOk(Created(t, dp, s, name, i, kind), x)
  {
    assert KindOk(t, x) && KindOk(t, dp);
  }

  /** create of a file or a directory in a linked directory. */
  lemma CreateKeeps(t: Tree, dp: nat, s: nat, name: string, i: nat, kind: Kind)
    requires Inv(t) && CanCreate(t, dp, s, name, i, kind)
    ensures Inv(Created(t, dp, s, name, i, kind))
  {
    var t' := Created(t, dp, s, name, i, kind);
    assert KindOk(t, i) && KindOk(t, dp);
    NotDots(t, dp, name);
    forall x: nat | x < |t.ns| ensures KindOk(t', x) && CountOk(t', x) {
      CreatedKind(t, dp, s, name, i, kind, x);
      assert CountOk(t, x);
      if x != 0 {
        CreatedLinks(t, dp, s, name, i, kind, x);
      }
    }
    forall d: nat | Live(t', d) ensures ParentOk(t', d) {
      CreatedParent(t, dp, s, name, i, kind, d);
    }
    forall d: nat, u: nat | IsDir(t', d) && 2 <= u < |t'.ns[d].entries| ensures EntryOk(t', d, u) {
      CreatedEntry(t, dp, s, name, i, kind, d, u);
    }
    forall d: nat, a: nat, b: nat ensures NamesDiffer(t', d, a, b) {
      CreatedNames(t, dp, s, name, i, kind, d, a, b);
    }
  }

  // ----- link -----

  predicate CanLink(t: Tree, dp: nat, s: nat, name: string, i: nat) {
    && Shaped(t) && Live(t, dp) && Vacant(t.ns[dp], s) && s >= 2 && Absent(t.ns[dp], name)
    && 0 < i < |t.ns| && t.ns[i].kind.Plain?
  }

  lemma LinkedStructure(t: Tree, dp: nat, s: nat, name: string, i: nat)
    requires Inv(t) && CanLink(t, dp, s, name, i)
    ensures Structure(Linked(t, dp, s, name, i))
  {
    var t' := Linked(t, dp, s, name, i);
    NotDots(t, dp, name);
    forall x: nat | x < |t.ns| ensures KindOk(t', x) {
      assert KindOk(t, x);
    }
    forall d: nat | Live(t', d) ensures ParentOk(t', d) {
      assert ParentOk(t, d);
    }
    forall d: nat, u: nat | IsDir(t', d) && 2 <= u < |t'.ns[d].entries| ensures EntryOk(t', d, u) {
      assert !(d == dp && u == s) ==> EntryOk(t, d, u);
    }
    forall d: nat, a: nat, b: nat ensures NamesDiffer(t', d, a, b) {
      assert NamesDiffer(t, d, a, b);
    }
  }

  /** link of a plain inode into a linked directory. */
  lemma LinkKeeps(t: Tree, dp: nat, s: nat, name: string, i: nat)
    requires Inv(t) && CanLink(t, dp, s, name, i)
    ensures Inv(Linked(t, dp, s, name, i))
  {
    var t' := Linked(t, dp, s, name, i);
    LinkedStructure(t, dp, s, name, i);
    NotDots(t, dp, name);
    assert KindOk(t, i);
    forall x: nat | x < |t.ns| ensures CountOk(t', x) {
      assert CountOk(t, x);
      if x != 0 {
        LinkedLinks(t, dp, s, name, i, x);
      }
    }
  }

  // ----- unlink -----

  /** An ordinary entry of a linked directory names a linked inode other than itself: neither
      panic of unlink can happen. */
  lemma NamedIsLinked(t: Tree, dp: nat, s: nat, i: nat)
    requires Inv(t) && Names(t, dp, s, i) && s >= 2
    ensures Live(t, dp) && i < |t.ns| && t.ns[i].nlink > 0 && !t.ns[i].kind.Free? && i != dp
  {
    assert EntryOk(t, dp, s) && CountOk(t, i);
    CountPositive(t.ns, i, |t.ns|, dp, s);
    assert KindOk(t, i) && ParentOk(t, dp);
  }

  /** An empty directory has no other link than the entry in its parent. */
  lemma OtherLinksGone(t: Tree, dp: nat, s: nat, i: nat, d: nat, u: nat)
    requires Inv(t) && Names(t, dp, s, i) && s >= 2 && i < |t.ns| && t.ns[i].kind.Dir? && EmptyDir(t.ns[i])
    requires !(d == dp && u == s)
    ensures !LinkAt(t.ns, d, u, i)
  {
    assert EntryOk(t, dp, s) && (d < |t.ns| ==> KindOk(t, d));
    assert IsDir(t, d) && 2 <= u < |t.ns[d].entries| ==> EntryOk(t, d, u);
    assert Live(t, d) ==> ParentOk(t, d);
  }

  lemma SingleLink(t: Tree, dp: nat, s: nat, i: nat)
    requires Inv(t) && Names(t, dp, s, i) && s >= 2 && i < |t.ns| && t.ns[i].kind.Dir? && EmptyDir(t.ns[i])
    ensures t.ns[i].nlink == 1
  {
    NamedIsLinked(t, dp, s, i);
    assert EntryOk(t, dp, s) && CountOk(t, i);
    var p := t.ns[dp];
    var p' := p.(entries := p.entries[s := EMPTY]);
    var ns1 := t.ns[dp := p'];
    LinksSet(t.ns, dp, p', i);
    CountPut(true, p.entries, s, EMPTY, i);
    forall d: nat, u: nat | d < |ns1| ensures !LinkAt(ns1, d, u, i) {
      if !(d == dp && u == s) {
        OtherLinksGone(t, dp, s, i, d, u);
      }
      assert LinkAt(ns1, d, u, i) ==> !(d == dp && u == s) && LinkAt(t.ns, d, u, i);
    }
    CountZero(ns1, i, |ns1|);
  }

  /** The parent of a directory has a second link. */
  lemma ParentKeepsLink(t: Tree, dp: nat, s: nat, i: nat)
    requires Inv(t) && Names(t, dp, s, i) && s >= 2 && i < |t.ns| && t.ns[i].kind.Dir? && EmptyDir(t.ns[i])
    ensures t.ns[dp].nlink > 1
  {
    NamedIsLinked(t, dp, s, i);
    SingleLink(t, dp, s, i);
    assert EntryOk(t, dp, s) && KindOk(t, i) && KindOk(t, dp) && ParentOk(t, dp) && CountOk(t, dp);
    LinksSet(t.ns, i, Inode(Free, 0, []), dp);
    BareCount(true, t.ns[i].entries, dp, |t.ns[i].entries|);
    var p := t.ns[dp].entries[1].inum;
    var u := if dp == ROOTINO then 1 else t.slot[dp];
    if dp != ROOTINO {
      assert EntryOk(t, p, u);
    }
    CountPositive(t.ns[i := Inode(Free, 0, [])], dp, |t.ns|, p, u);
  }

  predicate CanUnlink(t: Tree, dp: nat, s: nat, i: nat) {
    Shaped(t) && Names(t, dp, s, i) && s >= 2 && i < |t.ns| && (t.ns[i].kind.Dir? ==> EmptyDir(t.ns[i]))
  }

  lemma UnlinkedParent(t: Tree, dp: nat, s: nat, i: nat, d: nat)
    requires Inv(t) && CanUnlink(t, dp, s, i) && i != dp && i != ROOTINO && Live(t, dp) && t.ns[i].nlink > 0
    requires t.ns[i].kind.Dir? ==> t.ns[i].nlink == 1 && t.ns[dp].nlink > 1
    requires Live(Unlinked(t, dp, s), d)
    ensures ParentOk(Unlinked(t, dp, s), d)
  {
    assert ParentOk(t, d);
    assert EntryOk(t, dp, s);
  }

  lemma UnlinkedStructure(t: Tree, dp: nat, s: nat, i: nat)
    requires Inv(t) && CanUnlink(t, dp, s, i) && i != dp && Live(t, dp) && t.ns[i].nlink > 0
    requires t.ns[i].kind.Dir? ==> t.ns[i].nlink == 1 && t.ns[dp].nlink > 1
    requires !t.ns[i].kind.Free?
    ensures Structure(Unlinked(t, dp, s))
  {
    var t' := Unlinked(t, dp, s);
    assert EntryOk(t, dp, s);
    forall x: nat | x < |t.ns| ensures KindOk(t', x) {
      assert KindOk(t, x);
    }
    forall d: nat | Live(t', d) ensures ParentOk(t', d) {
      UnlinkedParent(t, dp, s, i, d);
    }
    forall d: nat, u: nat | IsDir(t', d) && 2 <= u < |t'.ns[d].entries| ensures EntryOk(t', d, u) {
      assert EntryOk(t, d, u);
    }
    forall d: nat, a: nat, b: nat ensures NamesDiffer(t', d, a, b) {
      assert NamesDiffer(t, d, a, b);
    }
  }

  /** unlink of a plain inode's name or of an empty directory. */
  lemma UnlinkKeeps(t: Tree, dp: nat, s: nat, i: nat)
    requires Inv(t) && CanUnlink(t, dp, s, i)
    ensures i != dp && Live(t, dp) && t.ns[i].nlink > 0
    ensures Inv(Unlinked(t, dp, s))
    ensures t.ns[i].kind.Dir? ==> Unlinked(t, dp, s).ns[i].nlink == 0
  {
    NamedIsLinked(t, dp, s, i);
    var t' := Unlinked(t, dp, s);
    assert EntryOk(t, dp, s) && KindOk(t, i);
    if t.ns[i].kind.Dir? {
      SingleLink(t, dp, s, i);
      ParentKeepsLink(t, dp, s, i);
    }
    UnlinkedStructure(t, dp, s, i);
    forall x: nat | x < |t.ns| ensures CountOk(t', x) {
      assert CountOk(t, x);
      if x != 0 {
        if t.ns[i].kind.Dir? {
          UnlinkedDir(t, dp, s, i, x);
        } else {
          UnlinkedPlain(t, dp, s, i, x);
        }
      }
    }
  }

  // ----- The last iput -----

  lemma FreeKeeps(t: Tree, i: nat)
    requires Inv(t) && 0 < i < |t.ns| && t.ns[i].nlink == 0
    ensures Inv(Freed(t, i))
  {
    var t' := Freed(t, i);
    assert KindOk(t, i);
    if IsDir(t, i) {
      forall u | 2 <= u < |t.ns[i].entries| ensures t.ns[i].entries[u].inum == 0 {
        assert EntryOk(t, i, u);
      }
    }
    forall x: nat | x < |t.ns| ensures KindOk(t', x) && CountOk(t', x) {
      assert KindOk(t, x) && CountOk(t, x);
      if x != 0 {
        FreedLinks(t, i, x);
      }
    }
    forall d: nat | Live(t', d) ensures ParentOk(t', d) {
      assert ParentOk(t, d);
      NotNamed(t, i, d, 0);
    }
    forall d: nat, u: nat | IsDir(t', d) && 2 <= u < |t'.ns[d].entries| ensures EntryOk(t', d, u) {
      assert EntryOk(t, d, u);
      NotNamed(t, i, d, u);
    }
    forall d: nat, a: nat, b: nat ensures NamesDiffer(t', d, a, b) {
      assert NamesDiffer(t, d, a, b);
    }
  }

  // ----- Adding to an unlinked directory -----

  ghost predicate AllCounts(t: Tree) {
    forall i: nat {:trigger CountOk(t, i)} :: i < |t.ns| ==> CountOk(t, i)
  }

  /** Every link count is right, and stays so when an inode without links is dropped. */
  ghost predicate SafeCounts(t: Tree) {
    AllCounts(t) && forall j: nat {:trigger Freed(t, j)} ::
                      0 < j < |t.ns| && t.ns[j].nlink == 0 ==> AllCounts(Freed(t, j))
  }

  lemma InvSafe(t: Tree)
    requires Inv(t)
    ensures SafeCounts(t)
  {
    forall j: nat | 0 < j < |t.ns| && t.ns[j].nlink == 0 ensures AllCounts(Freed(t, j)) {
      FreeKeeps(t, j);
    }
  }

  /** A new name in `dp`, linked or not. */
  predicate CanAdd(t: Tree, dp: nat, s: nat, name: string) {
    Shaped(t) && IsDir(t, dp) && Vacant(t.ns[dp], s) && s >= 2 && Absent(t.ns[dp], name)
  }

  /** mkdir in an unlinked directory brings its ".." back to life in the parent's count. */
  lemma RevivedParent(t: Tree, dp: nat, s: nat, name: string, i: nat)
    requires Inv(t) && CanAdd(t, dp, s, name) && t.ns[dp].nlink == 0 && 0 < i < |t.ns| && t.ns[i].kind.Free?
    ensures !AllCounts(Created(t, dp, s, name, i, Dir))
  {
    var p, es := t.ns[dp].entries[1].inum, t.ns[dp].entries;
    var t' := Created(t, dp, s, name, i, Dir);
    assert KindOk(t, dp) && KindOk(t, i) && CountOk(t, p);
    NotDots(t, dp, name);
    forall u | 2 <= u < |es| ensures es[u].inum == 0 {
      assert EntryOk(t, dp, u);
    }
    var ns1 := t.ns[i := NewInode(Dir, i, dp)];
    LinksSet(t.ns, i, NewInode(Dir, i, dp), p);
    NewCount(Dir, i, dp, p);
    LinksSet(ns1, dp, t'.ns[dp], p);
    CountPut(true, es, s, Entry(name, i), p);
    BareCount(false, es, p, |es|);
    BareCount(true, es, p, |es|);
    assert !CountOk(t', p);
  }

  /** A name in an unlinked directory is gone with it: when the directory is dropped, no entry
      accounts for the link that was counted. */
  lemma LostLink(t: Tree, dp: nat, i: nat, n: Inode)
    requires Inv(t) && IsDir(t, dp) && t.ns[dp].nlink == 0 && 0 < i < |t.ns| && i != dp
    requires t.ns[i].entries == [] == n.entries && n.nlink == t.ns[i].nlink + 1
    ensures !CountOk(t.(ns := t.ns[i := n][dp := Inode(Free, 0, [])]), i)
  {
    assert CountOk(t, i);
    LinksSet(t.ns, i, n, i);
    LinksSet(t.ns[i := n], dp, Inode(Free, 0, []), i);
  }

  lemma CreateUnlinked(t: Tree, dp: nat, s: nat, name: string, i: nat, kind: Kind)
    requires Inv(t) && CanAdd(t, dp, s, name) && t.ns[dp].nlink == 0 && 0 < i < |t.ns| && t.ns[i].kind.Free?
    requires kind.Plain?
    ensures !AllCounts(Freed(Created(t, dp, s, name, i, kind), dp))
  {
    assert KindOk(t, i);
    var t' := Freed(Created(t, dp, s, name, i, kind), dp);
    LostLink(t, dp, i, NewInode(kind, i, dp));
    assert t'.ns == t.ns[i := NewInode(kind, i, dp)][dp := Inode(Free, 0, [])];
    assert !CountOk(t', i);
  }

  /** create keeps the counts right, now and when unlinked inodes are dropped, exactly when the
      directory is still linked; a check of nlink before the call would see it. */
  lemma CreateKeepsIff(t: Tree, dp: nat, s: nat, name: string, i: nat, kind: Kind)
    requires Inv(t) && CanAdd(t, dp, s, name) && 0 < i < |t.ns| && t.ns[i].kind.Free? && !kind.Free?
    ensures SafeCounts(Created(t, dp, s, name, i, kind)) <==> t.ns[dp].nlink > 0
    ensures t.ns[dp].nlink > 0 ==> Inv(Created(t, dp, s, name, i, kind))
  {
    if t.ns[dp].nlink > 0 {
      CreateKeeps(t, dp, s, name, i, kind);
      InvSafe(Created(t, dp, s, name, i, kind));
    } else if kind.Dir? {
      RevivedParent(t, dp, s, name, i);
    } else {
      assert KindOk(t, i) && KindOk(t, dp);
      CreateUnlinked(t, dp, s, name, i, kind);
    }
  }

  lemma LinkUnlinked(t: Tree, dp: nat, s: nat, name: string, i: nat)
    requires Inv(t) && CanAdd(t, dp, s, name) && t.ns[dp].nlink == 0 && 0 < i < |t.ns| && t.ns[i].kind.Plain?
    ensures !AllCounts(Freed(Linked(t, dp, s, name, i), dp))
  {
    assert KindOk(t, i);
    var n := t.ns[i].(nlink := t.ns[i].nlink + 1);
    var t' := Freed(Linked(t, dp, s, name, i), dp);
    LostLink(t, dp, i, n);
    assert t'.ns == t.ns[i := n][dp := Inode(Free, 0, [])];
    assert !CountOk(t', i);
  }

  /** The same for link. */
  lemma LinkKeepsIff(t: Tree, dp: nat, s: nat, name: string, i: nat)
    requires Inv(t) && CanAdd(t, dp, s, name) && 0 < i < |t.ns| && t.ns[i].kind.Plain?
    ensures SafeCounts(Linked(t, dp, s, name, i)) <==> t.ns[dp].nlink > 0
    ensures t.ns[dp].nlink > 0 ==> Inv(Linked(t, dp, s, name, i))
  {
    if t.ns[dp].nlink > 0 {
      LinkKeeps(t, dp, s, name, i);
      InvSafe(Linked(t, dp, s, name, i));
    } else {
      assert KindOk(t, i) && KindOk(t, dp);
      LinkUnlinked(t, dp, s, name, i);
    }
  }

  // ----- Runs -----

  datatype Op =
    | Make(dp: nat, s: nat, name: string, i: nat, kind: Kind)
    | Join(dp: nat, s: nat, name: string, i: nat)
    | Remove(dp: nat, s: nat, i: nat)
    | Drop(i: nat)

  /** What the code checks before it changes anything.  That a directory does not name itself and that
      a parent has a link for each of its directories it does not check; `UnlinkKeeps` is why. */
  predicate Enabled(t: Tree, op: Op) {
    match op
    case Make(dp, s, name, i, kind) => CanAdd(t, dp, s, name) && 0 < i < |t.ns| && t.ns[i].kind.Free? && !kind.Free?
    case Join(dp, s, name, i) => CanAdd(t, dp, s, name) && 0 < i < |t.ns| && t.ns[i].kind.Plain?
    case Remove(dp, s, i) =>
      CanUnlink(t, dp, s, i) && i != dp && t.ns[i].nlink > 0 && t.ns[dp].nlink >= Bit(t.ns[i].kind.Dir?)
    case Drop(i) => 0 < i < |t.ns| && t.ns[i].nlink == 0
  }

  function After(t: Tree, op: Op): Tree
    requires Enabled(t, op)
  {
    match op
    case Make(dp, s, name, i, kind) => Created(t, dp, s, name, i, kind)
    case Join(dp, s, name, i) => Linked(t, dp, s, name, i)
    case Remove(dp, s, i) => Unlinked(t, dp, s)
    case Drop(i) => Freed(t, i)
  }

  ghost predicate StepAt(ts: seq<Tree>, ops: seq<Op>, j: nat) {
    j < |ops| && |ts| == |ops| + 1 && Enabled(ts[j], ops[j]) && ts[j + 1] == After(ts[j], ops[j])
  }

  ghost predicate IsRun(ts: seq<Tree>, ops: seq<Op>) {
    |ts| == |ops| + 1 && forall j: nat {:trigger StepAt(ts, ops, j)} :: j < |ops| ==> StepAt(ts, ops, j)
  }

  /** The step adds to no unlinked directory. */
  predicate Proper(t: Tree, op: Op)
    requires Enabled(t, op)
  {
    op.Make? || op.Join? ==> t.ns[op.dp].nlink > 0
  }

  lemma StepIff(t: Tree, op: Op)
    requires Inv(t) && Enabled(t, op)
    ensures SafeCounts(After(t, op)) <==> Proper(t, op)
    ensures Proper(t, op) ==> Inv(After(t, op))
  {
    match op
    case Make(dp, s, name, i, kind) => CreateKeepsIff(t, dp, s, name, i, kind);
    case Join(dp, s, name, i) => LinkKeepsIff(t, dp, s, name, i);
    case Remove(dp, s, i) =>
      UnlinkKeeps(t, dp, s, i);
      InvSafe(After(t, op));
    case Drop(i) =>
      FreeKeeps(t, i);
      InvSafe(After(t, op));
  }

  predicate ProperAt(ts: seq<Tree>, ops: seq<Op>, j: nat) {
    j < |ops| < |ts| && Enabled(ts[j], ops[j]) && Proper(ts[j], ops[j])
  }

  ghost predicate ProperBelow(ts: seq<Tree>, ops: seq<Op>, n: nat) {
    forall j: nat {:trigger ProperAt(ts, ops, j)} :: j < n ==> ProperAt(ts, ops, j)
  }

  /** Any run of creates, links, unlinks and last iputs that adds to no unlinked directory keeps
      the tree and its counts. */
  lemma {:induction false} RunKeeps(ts: seq<Tree>, ops: seq<Op>, n: nat)
    requires IsRun(ts, ops) && Inv(ts[0]) && n <= |ops| && ProperBelow(ts, ops, n)
    ensures Inv(ts[n])
  {
    if n > 0 {
      assert ProperBelow(ts, ops, n - 1);
      RunKeeps(ts, ops, n - 1);
      assert StepAt(ts, ops, n - 1) && ProperAt(ts, ops, n - 1);
      StepIff(ts[n - 1], ops[n - 1]);
    }
  }

  ghost predicate SafeUpTo(ts: seq<Tree>, n: nat)
    requires n < |ts|
  {
    forall j: nat {:trigger ts[j]} :: j <= n ==> SafeCounts(ts[j])
  }

  lemma ProperSplit(ts: seq<Tree>, ops: seq<Op>, n: nat)
    ensures ProperBelow(ts, ops, n + 1) <==> ProperBelow(ts, ops, n) && ProperAt(ts, ops, n)
  {
    if ProperBelow(ts, ops, n + 1) {
      assert ProperAt(ts, ops, n);
    } else {
      var j: nat :| j < n + 1 && !ProperAt(ts, ops, j);
      assert j == n || !ProperAt(ts, ops, j);
    }
  }

  /** And no other run does. */
  lemma {:induction false} RunSafeIff(ts: seq<Tree>, ops: seq<Op>, n: nat)
    requires IsRun(ts, ops) && Inv(ts[0]) && n <= |ops|
    ensures SafeUpTo(ts, n) <==> ProperBelow(ts, ops, n)
  {
    if n == 0 {
      InvSafe(ts[0]);
    } else {
      RunSafeIff(ts, ops, n - 1);
      ProperSplit(ts, ops, n - 1);
      assert StepAt(ts, ops, n - 1);
      assert SafeUpTo(ts, n) <==> SafeUpTo(ts, n - 1) && SafeCounts(ts[n]);
      if ProperBelow(ts, ops, n - 1) {
        RunKeeps(ts, ops, n - 1);
        StepIff(ts[n - 1], ops[n - 1]);
      }
    }
  }

  /** `n` inodes and the root directory, as mkfs leaves them. */
  function Fresh(n: nat): Tree {
    Tree(seq(n, i => if i == ROOTINO then Inode(Dir, 1, [Entry(".", 1), Entry("..", 1)]) else Inode(Free, 0, [])),
         Zeros(n), Zeros(n))
  }

  function Zeros(n: nat): seq<nat> {
    seq(n, _ => 0)
  }

  lemma {:induction false} FreshCount(n: nat, x: nat, k: nat)
    requires k <= n
    ensures Count(Fresh(n).ns, x, k) == Bit(x == ROOTINO && k > ROOTINO)
  {
    if k > 0 {
      FreshCount(n, x, k - 1);
      var es := [Entry(".", 1), Entry("..", 1)];
      assert CountIn(true, es, x, 1) == 0;
      assert CountIn(true, es, x, 2) == Bit(x == ROOTINO);
      assert CountOf(Fresh(n).ns[k - 1], x) == if k - 1 == ROOTINO then CountIn(true, es, x, 2) else 0;
    }
  }

  lemma FreshOk(n: nat)
    requires n > ROOTINO
    ensures Inv(Fresh(n))
  {
    forall x: nat | x < n ensures CountOk(Fresh(n), x) {
      FreshCount(n, x, n);
    }
  }

  /** What goes wrong: mkdir d, unlink d while it is somebody's working directory, create a
      file in it, leave it.  The file keeps one link that no entry accounts for. */
  lemma LostFile() returns (t: Tree)
    ensures var t1 := Created(Fresh(4), 1, 2, "d", 2, Dir);
            Inv(t1) && CanUnlink(t1, 1, 2, 2) && var t2 := Unlinked(t1, 1, 2);
            && Inv(t2) && IsDir(t2, 2) && Vacant(t2.ns[2], 2) && Shaped(t2)
            && t == Freed(Created(t2, 2, 2, "x", 3, Plain(true)), 2)
    ensures |t.ns| == 4 && t.ns[3].nlink == 1 && Links(t.ns, 3) == 0
  {
    FreshOk(4);
    CreateKeeps(Fresh(4), 1, 2, "d", 2, Dir);
    var t1 := Created(Fresh(4), 1, 2, "d", 2, Dir);
    UnlinkKeeps(t1, 1, 2, 2);
    var t2 := Unlinked(t1, 1, 2);
    t := Freed(Created(t2, 2, 2, "x", 3, Plain(true)), 2);
    assert CountOk(t2, 3);
    forall d: nat, s: nat | d < |t.ns| ensures !LinkAt(t.ns, d, s, 3) {
    }
    CountZero(t.ns, 3, 4);
  }

  /** `k` steps through "..". */
  function Up(t: Tree, d: nat, k: nat): nat
    decreases k
  {
    if k == 0 || !IsDir(t, d) then d else Up(t, t.ns[d].entries[1].inum, k - 1)
  }

  /** The linked directories are a tree: ".." leads from each of them to the root. */
  lemma {:induction false} LeadsToRoot(t: Tree, d: nat)
    requires Inv(t) && Live(t, d)
    ensures Up(t, d, t.depth[d]) == ROOTINO
    decreases t.depth[d]
  {
    assert ParentOk(t, d);
    if d != ROOTINO {
      LeadsToRoot(t, t.ns[d].entries[1].inum);
    }
  }
}

/** Directories across crashes: create, link and unlink as the writei, itrunc and iupdate calls they make,
    and what a crash in one of them leaves of the directory tree. */
module DirCrash {
  import opened Blocks
  import opened Options
  import opened Files
  import opened FileBytes
  import opened FileOps
  import opened FilesCode
  import opened FileCrash
  import opened DropTxn
  import opened Sealed
  import Dirs
  import DirTree
  import Log

  // ----- Directory entries as bytes -----

  const DIRSIZ := 14

  /** A name is up to DIRSIZ bytes, and ends before if one of them is 0. */
  function NameOf(b: seq<Byte>): string {
    if b == [] || b[0] == 0 then "" else [b[0] as char] + NameOf(b[1..])
  }

  function EntryOf(b: seq<Byte>): Dirs.Entry
    requires |b| == DIRENT
  {
    var lo: int, hi: int := b[0], b[1];
    Dirs.Entry(NameOf(b[2..]), lo + 256 * hi)
  }

  predicate Writable(e: Dirs.Entry) {
    e.inum < 65536 && |e.name| <= DIRSIZ && forall i :: 0 <= i < |e.name| ==> 0 < e.name[i] as int < 256
  }

  function NameBytes(name: string): (b: seq<Byte>)
    requires |name| <= DIRSIZ && forall i :: 0 <= i < |name| ==> 0 < name[i] as int < 256
    ensures |b| == DIRSIZ
  {
    seq(DIRSIZ, (i: nat) requires forall j :: 0 <= j < |name| ==> 0 < name[j] as int < 256 =>
      if i < |name| then name[i] as int as Byte else 0)
  }

  /** struct dirent */
  function DirentOf(e: Dirs.Entry): (b: seq<Byte>)
    requires Writable(e)
    ensures |b| == DIRENT
  {
    [e.inum % 256, e.inum / 256] + NameBytes(e.name)
  }

  lemma {:induction false} NameRound(name: string, b: seq<Byte>)
    requires |name| <= |b| && (forall i :: 0 <= i < |name| ==> 0 < name[i] as int < 256 && b[i] == name[i] as int)
    requires |name| < |b| ==> b[|name|] == 0
    ensures NameOf(b) == name
  {
    if name != "" {
      NameRound(name[1..], b[1..]);
      assert name == [name[0]] + name[1..];
    }
  }

  /** What is written as an entry is read as that entry. */
  lemma EntryRound(e: Dirs.Entry)
    requires Writable(e)
    ensures EntryOf(DirentOf(e)) == e
  {
    assert DirentOf(e)[2..] == NameBytes(e.name);
    NameRound(e.name, NameBytes(e.name));
  }

  lemma EmptyRound()
    ensures EntryOf(Repeat(0, DIRENT)) == Dirs.EMPTY
  {
  }

  /** The slots of a directory. */
  function EntriesOf(bytes: seq<Byte>): (es: seq<Dirs.Entry>)
    ensures |es| == |bytes| / DIRENT
  {
    seq(|bytes| / DIRENT, (s: nat) requires s < |bytes| / DIRENT => EntryOf(bytes[DIRENT * s..DIRENT * s + DIRENT]))
  }

  /** Writing an entry is putting it in its slot. */
  lemma PutEntry(bytes: seq<Byte>, s: nat, b: seq<Byte>)
    requires |bytes| % DIRENT == 0 && s <= |bytes| / DIRENT && |b| == DIRENT
    ensures EntriesOf(Splice(bytes, DIRENT * s, b)) == Dirs.Put(EntriesOf(bytes), s, EntryOf(b))
    ensures |Splice(bytes, DIRENT * s, b)| % DIRENT == 0
  {
    var r := Splice(bytes, DIRENT * s, b);
    assert |r| == if s < |bytes| / DIRENT then |bytes| else |bytes| + DIRENT;
    forall u: nat | u < |r| / DIRENT ensures EntriesOf(r)[u] == Dirs.Put(EntriesOf(bytes), s, EntryOf(b))[u] {
      if u == s {
        assert r[DIRENT * s..DIRENT * s + DIRENT] == b;
      } else {
        assert r[DIRENT * u..DIRENT * u + DIRENT] == bytes[DIRENT * u..DIRENT * u + DIRENT];
      }
    }
  }

  // ----- The inode table -----

  /** stat.h: T_DIR is 1 and T_FILE 2. */
  function KindOf(kind: nat): Dirs.Kind {
    if kind == 0 then Dirs.Free else if kind == 1 then Dirs.Dir else Dirs.Plain(kind == 2)
  }

  function NodeOf(bytes: seq<Byte>, meta: Meta): Dirs.Inode {
    Dirs.Inode(KindOf(meta.kind), meta.nlink, if meta.kind == 1 then EntriesOf(bytes) else [])
  }

  /** Free inodes are empty, and directories have whole entries. */
  predicate NodeFine(bytes: seq<Byte>, meta: Meta) {
    (meta.kind == 0 ==> bytes == []) && (meta.kind == 1 ==> |bytes| % DIRENT == 0)
  }

  /** The files have the tree `t` in them. */
  ghost predicate Fits(f: Flat, t: Dirs.Tree) {
    && |f.bytes| == |f.metas| == |t.ns|
    && forall k {:trigger t.ns[k]} :: 0 <= k < |t.ns| ==>
         NodeFine(f.bytes[k], f.metas[k]) && t.ns[k] == NodeOf(f.bytes[k], f.metas[k])
  }

  predicate OpenAt(z: nat, f: Flat) {
    true
  }

  /** The same, as one fact. */
  ghost function Shown(f: Flat, t: Dirs.Tree): Seal {
    if forall z: nat {:trigger OpenAt(z, f)} :: OpenAt(z, f) ==> Fits(f, t) then Known else Unknown
  }

  ghost predicate Shows(f: Flat, t: Dirs.Tree) {
    |f.bytes| == |f.metas| == |t.ns| && Shown(f, t) == Known
  }

  lemma NodeIs(f: Flat, t: Dirs.Tree, k: nat)
    requires Shows(f, t) && k < |t.ns|
    ensures t.ns[k] == NodeOf(f.bytes[k], f.metas[k]) && NodeFine(f.bytes[k], f.metas[k])
  {
    assert OpenAt(0, f);
  }

  /** One call changes one inode. */
  lemma ShowsOne(f: Flat, t: Dirs.Tree, f': Flat, k: nat)
    requires Shows(f, t) && k < |t.ns| && |f'.bytes| == |f'.metas| == |t.ns|
    requires f'.bytes == f.bytes[k := f'.bytes[k]] && f'.metas == f.metas[k := f'.metas[k]]
    requires NodeFine(f'.bytes[k], f'.metas[k])
    ensures Shows(f', t.(ns := t.ns[k := NodeOf(f'.bytes[k], f'.metas[k])]))
  {
    var ns := t.ns[k := NodeOf(f'.bytes[k], f'.metas[k])];
    forall j: nat | j < |ns| ensures NodeFine(f'.bytes[j], f'.metas[j]) && ns[j] == NodeOf(f'.bytes[j], f'.metas[j]) {
      NodeIs(f, t, j);
    }
  }

  function WithNode(t: Dirs.Tree, k: nat, n: Dirs.Inode): Dirs.Tree
    requires k < |t.ns|
  {
    t.(ns := t.ns[k := n])
  }

  /** writei of an entry. */
  lemma WriteShows(f: Flat, t: Dirs.Tree, k: nat, s: nat, b: seq<Byte>)
    requires Shows(f, t) && k < |t.ns| && f.metas[k].kind == 1 && s <= |t.ns[k].entries| && |b| == DIRENT
    requires DIRENT * s + DIRENT <= MAXFILE * BSIZE
    ensures Shows(FlatOp(f, WriteOp(k, DIRENT * s, b)),
                  WithNode(t, k, t.ns[k].(entries := Dirs.Put(t.ns[k].entries, s, EntryOf(b)))))
  {
    var f' := FlatOp(f, WriteOp(k, DIRENT * s, b));
    NodeIs(f, t, k);
    PutEntry(f.bytes[k], s, b);
    assert f'.bytes[k] == Splice(f.bytes[k], DIRENT * s, b) && f'.metas == f.metas[k := f'.metas[k]];
    ShowsOne(f, t, f', k);
  }

  /** iupdate */
  lemma UpdateShows(f: Flat, t: Dirs.Tree, k: nat, meta: Meta)
    requires Shows(f, t) && k < |t.ns| && NodeFine(f.bytes[k], meta)
    ensures Shows(FlatOp(f, UpdateOp(k, meta)), WithNode(t, k, NodeOf(f.bytes[k], meta)))
  {
    var f' := FlatOp(f, UpdateOp(k, meta));
    assert f'.bytes == f.bytes[k := f'.bytes[k]];
    ShowsOne(f, t, f', k);
  }

  /** itrunc */
  lemma TruncShows(f: Flat, t: Dirs.Tree, k: nat)
    requires Shows(f, t) && k < |t.ns|
    ensures Shows(FlatOp(f, TruncOp(k)), WithNode(t, k, NodeOf([], f.metas[k])))
  {
    var f' := FlatOp(f, TruncOp(k));
    assert f'.metas == f.metas[k := f'.metas[k]];
    ShowsOne(f, t, f', k);
  }

  // ----- The calls -----

  lemma {:induction false} RunJoin(f: Flat, a: seq<Op>, b: seq<Op>, n: nat)
    requires n <= |b|
    ensures FlatRun(f, a + b, |a| + n) == FlatRun(FlatRun(f, a, |a|), b, n)
  {
    if n == 0 {
      RunFirst(f, a, b, |a|);
    } else {
      RunJoin(f, a, b, n - 1);
      assert (a + b)[|a| + n - 1] == b[n - 1];
    }
  }

  lemma {:induction false} RunFirst(f: Flat, a: seq<Op>, b: seq<Op>, n: nat)
    requires n <= |a|
    ensures FlatRun(f, a + b, n) == FlatRun(f, a, n)
  {
    if n > 0 {
      RunFirst(f, a, b, n - 1);
    }
  }

  function All(f: Flat, ops: seq<Op>): Flat {
    FlatRun(f, ops, |ops|)
  }

  lemma AllMore(f: Flat, ops: seq<Op>, op: Op)
    ensures All(f, ops + [op]) == FlatOp(All(f, ops), op)
  {
    RunJoin(f, ops, [op], 1);
    assert FlatRun(All(f, ops), [op], 0) == All(f, ops);
  }

  /** dirlink's writei. */
  function EntryOp(dp: nat, s: nat, e: Dirs.Entry): Op
    requires Writable(e)
  {
    WriteOp(dp, DIRENT * s, DirentOf(e))
  }

  lemma EntryShows(f: Flat, t: Dirs.Tree, dp: nat, s: nat, e: Dirs.Entry)
    requires Shows(f, t) && dp < |t.ns| && f.metas[dp].kind == 1 && s <= |t.ns[dp].entries| && Writable(e)
    requires DIRENT * s + DIRENT <= MAXFILE * BSIZE
    ensures Shows(FlatOp(f, EntryOp(dp, s, e)),
                  WithNode(t, dp, t.ns[dp].(entries := Dirs.Put(t.ns[dp].entries, s, e))))
  {
    WriteShows(f, t, dp, s, DirentOf(e));
    EntryRound(e);
  }

  /** link: the count goes up, and then the entry is written. */
  function LinkOps(f: Flat, dp: nat, s: nat, name: string, i: nat): seq<Op>
    requires i < |f.metas| && Writable(Dirs.Entry(name, i))
  {
    [UpdateOp(i, f.metas[i].(nlink := f.metas[i].nlink + 1))] + [EntryOp(dp, s, Dirs.Entry(name, i))]
  }

  lemma LinkShows(f: Flat, t: Dirs.Tree, dp: nat, s: nat, name: string, i: nat)
    requires Shows(f, t) && DirTree.Enabled(t, DirTree.Join(dp, s, name, i)) && Writable(Dirs.Entry(name, i))
    requires DIRENT * s + DIRENT <= MAXFILE * BSIZE
    ensures Shows(All(f, LinkOps(f, dp, s, name, i)), Dirs.Linked(t, dp, s, name, i))
  {
    var meta := f.metas[i].(nlink := f.metas[i].nlink + 1);
    NodeIs(f, t, i);
    NodeIs(f, t, dp);
    UpdateShows(f, t, i, meta);
    var f1, t1 := FlatOp(f, UpdateOp(i, meta)), WithNode(t, i, NodeOf(f.bytes[i], meta));
    EntryShows(f1, t1, dp, s, Dirs.Entry(name, i));
    assert All(f, []) == f && [UpdateOp(i, meta)] == [] + [UpdateOp(i, meta)];
    AllMore(f, [], UpdateOp(i, meta));
    AllMore(f, [UpdateOp(i, meta)], EntryOp(dp, s, Dirs.Entry(name, i)));
  }

  /** The inode with one link more or less. */
  function MoreLinks(meta: Meta, diff: int): Meta
    requires meta.nlink + diff >= 0
  {
    meta.(nlink := meta.nlink + diff)
  }

  /** A change of the link count alone. */
  lemma CountShows(f: Flat, t: Dirs.Tree, k: nat, diff: int)
    requires Shows(f, t) && k < |t.ns| && f.metas[k].nlink + diff >= 0 && t.ns[k].nlink + diff >= 0
    ensures Shows(FlatOp(f, UpdateOp(k, MoreLinks(f.metas[k], diff))),
                  WithNode(t, k, t.ns[k].(nlink := t.ns[k].nlink + diff)))
  {
    NodeIs(f, t, k);
    UpdateShows(f, t, k, MoreLinks(f.metas[k], diff));
  }

  /** unlink of slot `s` of `dp`, which names inode `i`: what of the metadata it writes. */
  function UnlinkList(f: Flat, dp: nat, s: nat, i: nat, last: bool): seq<Op>
    requires dp < |f.metas| && i < |f.metas| && f.metas[i].nlink > 0
    requires f.metas[i].kind == 1 ==> f.metas[dp].nlink > 0
  {
    UnlinkOps(dp, DIRENT * s, if f.metas[i].kind == 1 then Some(MoreLinks(f.metas[dp], -1)) else None, i,
              MoreLinks(f.metas[i], -1), last)
  }

  /** The calls of unlink before the last iput. */
  lemma RemoveShows(f: Flat, t: Dirs.Tree, dp: nat, s: nat, i: nat)
    requires Shows(f, t) && DirTree.Enabled(t, DirTree.Remove(dp, s, i))
    requires DIRENT * s + DIRENT <= MAXFILE * BSIZE
    ensures f.metas[i].nlink > 0 && (f.metas[i].kind == 1 ==> f.metas[dp].nlink > 0)
    ensures Shows(All(f, UnlinkList(f, dp, s, i, false)), Dirs.Unlinked(t, dp, s))
  {
    NodeIs(f, t, i);
    NodeIs(f, t, dp);
    var zero := WriteOp(dp, DIRENT * s, Repeat(0, DIRENT));
    WriteShows(f, t, dp, s, Repeat(0, DIRENT));
    EmptyRound();
    var f1, t1 := FlatOp(f, zero), WithNode(t, dp, t.ns[dp].(entries := t.ns[dp].entries[s := Dirs.EMPTY]));
    AllMore(f, [], zero);
    var ops := [zero];
    assert [] + ops == ops && All(f, []) == f;
    if f.metas[i].kind == 1 {
      var up := UpdateOp(dp, MoreLinks(f.metas[dp], -1));
      CountShows(f1, t1, dp, -1);
      AllMore(f, ops, up);
      f1, t1, ops := FlatOp(f1, up), WithNode(t1, dp, t1.ns[dp].(nlink := t1.ns[dp].nlink - 1)), ops + [up];
    }
    var down := UpdateOp(i, MoreLinks(f.metas[i], -1));
    CountShows(f1, t1, i, -1);
    AllMore(f, ops, down);
    assert ops + [down] == UnlinkList(f, dp, s, i, false);
    assert WithNode(t1, i, t1.ns[i].(nlink := t1.ns[i].nlink - 1)) == Dirs.Unlinked(t, dp, s);
  }

  /** The last iput of an inode without links. */
  lemma DropShows(f: Flat, t: Dirs.Tree, i: nat)
    requires Shows(f, t) && DirTree.Enabled(t, DirTree.Drop(i))
    ensures Shows(All(f, DropOps(i, f.metas[i])), Dirs.Freed(t, i))
  {
    NodeIs(f, t, i);
    var free := UpdateOp(i, f.metas[i].(kind := 0));
    TruncShows(f, t, i);
    var f1, t1 := FlatOp(f, TruncOp(i)), WithNode(t, i, NodeOf([], f.metas[i]));
    UpdateShows(f1, t1, i, f.metas[i].(kind := 0));
    assert All(f, []) == f && [] + [TruncOp(i)] == [TruncOp(i)];
    AllMore(f, [], TruncOp(i));
    AllMore(f, [TruncOp(i)], free);
    assert [TruncOp(i)] + [free] == DropOps(i, f.metas[i]);
    assert WithNode(t1, i, NodeOf([], f.metas[i].(kind := 0))) == Dirs.Freed(t, i);
  }

  /** The whole of unlink; `last` says that nobody has the inode open, which has no other link. */
  lemma UnlinkShows(f: Flat, t: Dirs.Tree, dp: nat, s: nat, i: nat)
    requires Shows(f, t) && DirTree.Enabled(t, DirTree.Remove(dp, s, i)) && t.ns[i].nlink == 1
    requires DIRENT * s + DIRENT <= MAXFILE * BSIZE
    ensures f.metas[i].nlink > 0 && (f.metas[i].kind == 1 ==> f.metas[dp].nlink > 0)
    ensures Shows(All(f, UnlinkList(f, dp, s, i, true)), Dirs.Freed(Dirs.Unlinked(t, dp, s), i))
  {
    RemoveShows(f, t, dp, s, i);
    var ops := UnlinkList(f, dp, s, i, false);
    var f1, t1 := All(f, ops), Dirs.Unlinked(t, dp, s);
    var meta := MoreLinks(f.metas[i], -1);
    UnlinkedMeta(f, dp, s, i);
    DropShows(f1, t1, i);
    RunJoin(f, ops, DropOps(i, meta), 2);
    assert UnlinkList(f, dp, s, i, true) == ops + DropOps(i, meta);
  }

  lemma UnlinkedMeta(f: Flat, dp: nat, s: nat, i: nat)
    requires |f.bytes| == |f.metas| && dp < |f.metas| && i < |f.metas| && f.metas[i].nlink > 0
    requires f.metas[i].kind == 1 ==> f.metas[dp].nlink > 0
    ensures All(f, UnlinkList(f, dp, s, i, false)).metas[i] == MoreLinks(f.metas[i], -1)
  {
    var ops, down := UnlinkList(f, dp, s, i, false), UpdateOp(i, MoreLinks(f.metas[i], -1));
    assert ops == ops[..|ops| - 1] + [down];
    AllMore(f, ops[..|ops| - 1], down);
  }

  /** create: ialloc, the new inode's metadata, for a directory the parent's link and the dot entries, and
      the entry. */
  function CreateOps(f: Flat, dp: nat, s: nat, name: string, i: nat, meta: Meta): seq<Op>
    requires dp < |f.metas| && Writable(Dirs.Entry(name, i)) && dp < 65536
  {
    [UpdateOp(i, NO_META.(kind := meta.kind))] + [UpdateOp(i, meta)] +
    (if meta.kind == 1 then DotOps(f.metas[dp], dp, i) else []) + [EntryOp(dp, s, Dirs.Entry(name, i))]
  }

  /** The new inode, without entries. */
  lemma NewShows(f: Flat, t: Dirs.Tree, i: nat, meta: Meta)
    requires Shows(f, t) && i < |t.ns| && t.ns[i].kind.Free? && meta.kind != 0 && meta.nlink == 1
    ensures var ops := [UpdateOp(i, NO_META.(kind := meta.kind))] + [UpdateOp(i, meta)];
            Shows(All(f, ops), WithNode(t, i, Dirs.Inode(KindOf(meta.kind), 1, [])))
  {
    var bare := NO_META.(kind := meta.kind);
    NodeIs(f, t, i);
    assert EntriesOf([]) == [];
    UpdateShows(f, t, i, bare);
    var f1, t1 := FlatOp(f, UpdateOp(i, bare)), WithNode(t, i, NodeOf([], bare));
    UpdateShows(f1, t1, i, meta);
    assert WithNode(t1, i, NodeOf([], meta)) == WithNode(t, i, Dirs.Inode(KindOf(meta.kind), 1, []));
    assert All(f, []) == f && [] + [UpdateOp(i, bare)] == [UpdateOp(i, bare)];
    AllMore(f, [], UpdateOp(i, bare));
    AllMore(f, [UpdateOp(i, bare)], UpdateOp(i, meta));
  }

  lemma NewMetas(f: Flat, i: nat, meta: Meta)
    requires i < |f.metas| == |f.bytes|
    ensures All(f, [UpdateOp(i, NO_META.(kind := meta.kind))] + [UpdateOp(i, meta)]).metas == f.metas[i := meta]
  {
    var a, b := UpdateOp(i, NO_META.(kind := meta.kind)), UpdateOp(i, meta);
    assert All(f, []) == f && [] + [a] == [a];
    AllMore(f, [], a);
    AllMore(f, [a], b);
    assert f.metas[i := NO_META.(kind := meta.kind)][i := meta] == f.metas[i := meta];
  }

  /** The link and the entries of a new directory `i` in `dp`. */
  function DotOps(meta: Meta, dp: nat, i: nat): seq<Op>
    requires i < 65536 && dp < 65536
  {
    [UpdateOp(dp, MoreLinks(meta, 1))] + [EntryOp(i, 0, Dirs.Entry(".", i))] + [EntryOp(i, 1, Dirs.Entry("..", dp))]
  }

  lemma DotsShow(f: Flat, t: Dirs.Tree, dp: nat, i: nat)
    requires Shows(f, t) && dp < |t.ns| && i < |t.ns| && i != dp && i < 65536 && dp < 65536
    requires t.ns[i] == Dirs.Inode(Dirs.Dir, 1, [])
    ensures Shows(All(f, DotOps(f.metas[dp], dp, i)),
                  WithNode(WithNode(t, i, Dirs.NewInode(Dirs.Dir, i, dp)), dp,
                           t.ns[dp].(nlink := t.ns[dp].nlink + 1)))
  {
    NodeIs(f, t, i);
    NodeIs(f, t, dp);
    var up, one, two := UpdateOp(dp, MoreLinks(f.metas[dp], 1)), Dirs.Entry(".", i), Dirs.Entry("..", dp);
    CountShows(f, t, dp, 1);
    var f1, t1 := FlatOp(f, up), WithNode(t, dp, t.ns[dp].(nlink := t.ns[dp].nlink + 1));
    EntryShows(f1, t1, i, 0, one);
    assert Dirs.Put([], 0, one) == [one];
    var f2, t2 := FlatOp(f1, EntryOp(i, 0, one)), WithNode(t1, i, t1.ns[i].(entries := [one]));
    NodeIs(f2, t2, i);
    EntryShows(f2, t2, i, 1, two);
    assert [one] + [two] == Dirs.NewInode(Dirs.Dir, i, dp).entries;
    assert All(f, []) == f && [] + [up] == [up];
    AllMore(f, [], up);
    AllMore(f, [up], EntryOp(i, 0, one));
    AllMore(f, [up] + [EntryOp(i, 0, one)], EntryOp(i, 1, two));
    assert WithNode(t2, i, t2.ns[i].(entries := [one] + [two])) ==
           WithNode(WithNode(t, i, Dirs.NewInode(Dirs.Dir, i, dp)), dp, t.ns[dp].(nlink := t.ns[dp].nlink + 1));
  }

  /** The parent keeps its kind. */
  lemma DotMetas(f: Flat, dp: nat, i: nat)
    requires |f.bytes| == |f.metas| && dp < |f.metas| && i < 65536 && dp < 65536
    ensures All(f, DotOps(f.metas[dp], dp, i)).metas[dp].kind == f.metas[dp].kind
  {
    var up, one, two := UpdateOp(dp, MoreLinks(f.metas[dp], 1)), EntryOp(i, 0, Dirs.Entry(".", i)),
                        EntryOp(i, 1, Dirs.Entry("..", dp));
    assert All(f, []) == f && [] + [up] == [up];
    AllMore(f, [], up);
    AllMore(f, [up], one);
    AllMore(f, [up] + [one], two);
  }

  /** The whole of create. */
  lemma CreateShows(f: Flat, t: Dirs.Tree, dp: nat, s: nat, name: string, i: nat, meta: Meta)
    requires Shows(f, t) && DirTree.Enabled(t, DirTree.Make(dp, s, name, i, KindOf(meta.kind)))
    requires Writable(Dirs.Entry(name, i)) && dp < 65536 && meta.nlink == 1
    requires DIRENT * s + DIRENT <= MAXFILE * BSIZE
    ensures Shows(All(f, CreateOps(f, dp, s, name, i, meta)), Dirs.Created(t, dp, s, name, i, KindOf(meta.kind)))
  {
    var a := [UpdateOp(i, NO_META.(kind := meta.kind))] + [UpdateOp(i, meta)];
    var e := Dirs.Entry(name, i);
    NodeIs(f, t, dp);
    NewShows(f, t, i, meta);
    NewMetas(f, i, meta);
    var f1, t1 := All(f, a), WithNode(t, i, Dirs.Inode(KindOf(meta.kind), 1, []));
    if meta.kind == 1 {
      var b := DotOps(f.metas[dp], dp, i);
      DotsShow(f1, t1, dp, i);
      DotMetas(f1, dp, i);
      RunJoin(f, a, b, |b|);
      assert All(f, a + b) == All(f1, b);
      a, f1 := a + b, All(f1, b);
      t1 := WithNode(WithNode(t1, i, Dirs.NewInode(Dirs.Dir, i, dp)), dp, t.ns[dp].(nlink := t.ns[dp].nlink + 1));
    } else {
      assert a + [] == a;
    }
    EntryShows(f1, t1, dp, s, e);
    AllMore(f, a, EntryOp(dp, s, e));
    var t2 := WithNode(t1, dp, t1.ns[dp].(entries := Dirs.Put(t1.ns[dp].entries, s, e)));
    assert t2.ns == Dirs.Created(t, dp, s, name, i, KindOf(meta.kind)).ns;
    SameNodes(All(f, a + [EntryOp(dp, s, e)]), t2, Dirs.Created(t, dp, s, name, i, KindOf(meta.kind)));
  }

  /** Depths and slots are not on the disk. */
  lemma SameNodes(f: Flat, t: Dirs.Tree, t': Dirs.Tree)
    requires Shows(f, t) && t.ns == t'.ns
    ensures Shows(f, t')
  {
    forall k: nat | k < |t'.ns| ensures NodeFine(f.bytes[k], f.metas[k]) && t'.ns[k] == NodeOf(f.bytes[k], f.metas[k]) {
      NodeIs(f, t, k);
    }
  }

  // ----- Crashes -----

  /** create, link or unlink.  `meta` has the type and the device numbers of a new inode; `last` says that
      nobody has the inode open whose last name unlink takes away. */
  datatype DirCall = DirCall(op: DirTree.Op, meta: Meta, last: bool)

  /** The checks of the code, on an entry that can be written; the directory is linked. */
  ghost predicate CanCall(t: Dirs.Tree, c: DirCall) {
    && !c.op.Drop? && DirTree.Enabled(t, c.op) && DirTree.Proper(t, c.op) && |t.ns| <= 65536
    && DIRENT * c.op.s + DIRENT <= MAXFILE * BSIZE
    && (c.op.Make? ==> c.op.kind == KindOf(c.meta.kind))
    && (c.op.Make? || c.op.Join? ==> Writable(Dirs.Entry(c.op.name, c.op.i)))
    && (c.op.Remove? && c.last ==> t.ns[c.op.i].nlink == 1)
  }

  /** The metadata of a new inode: ialloc has cleared it. */
  function NewMeta(meta: Meta): Meta {
    NO_META.(kind := meta.kind, major := meta.major, minor := meta.minor, nlink := 1)
  }

  /** What the call does to the tree. */
  ghost function TreeAfter(t: Dirs.Tree, c: DirCall): Dirs.Tree
    requires CanCall(t, c)
  {
    var t' := DirTree.After(t, c.op);
    if c.op.Remove? && c.last then Dirs.Freed(t', c.op.i) else t'
  }

  /** The calls of fs.c it makes. */
  ghost function OpsOf(f: Flat, t: Dirs.Tree, c: DirCall): seq<Op>
    requires Shows(f, t) && CanCall(t, c)
  {
    match c.op
    case Make(dp, s, name, i, kind) => CreateOps(f, dp, s, name, i, NewMeta(c.meta))
    case Join(dp, s, name, i) => LinkOps(f, dp, s, name, i)
    case Remove(dp, s, i) =>
      RemoveShows(f, t, dp, s, i);
      UnlinkList(f, dp, s, i, c.last)
    case Drop(_) => []
  }

  // ----- What is not in the tree -----

  /** Only slot `s` of the directory's bytes has changed. */
  ghost predicate OnlySlot(b: seq<Byte>, b': seq<Byte>, s: nat) {
    && |b| <= |b'| && (|b| < |b'| ==> |b| <= DIRENT * s && |b'| == DIRENT * s + DIRENT)
    && forall j :: 0 <= j < |b| && !(DIRENT * s <= j < DIRENT * s + DIRENT) ==> b'[j] == b[j]
  }

  /** Inode `k` is the one that create makes, or the one that unlink drops. */
  predicate IsNew(c: DirCall, k: nat) {
    c.op.Make? && k == c.op.i
  }

  predicate IsDropped(c: DirCall, k: nat) {
    c.op.Remove? && c.last && k == c.op.i
  }

  /** What the call leaves of the metadata of inode `k`: a new inode has the type and the device numbers
      asked for and no password; one that is dropped becomes free; any other keeps all but its link
      count. */
  predicate MetaAfter(c: DirCall, k: nat, m: Meta, m': Meta) {
    if IsNew(c, k) then m' == Meta(c.meta.kind, c.meta.major, c.meta.minor, 1, "")
    else if IsDropped(c, k) then m' == Meta(0, m.major, m.minor, 0, m.password)
    else m'.kind == m.kind && m'.major == m.major && m'.minor == m.minor && m'.password == m.password
  }

  /** And of its bytes: the directory's change in one slot, and those of other files not at all. */
  ghost predicate BytesAfter(c: DirCall, k: nat, b: seq<Byte>, b': seq<Byte>)
    requires !c.op.Drop?
  {
    if k == c.op.dp then OnlySlot(b, b', c.op.s)
    else if IsDropped(c, k) then b' == []
    else !IsNew(c, k) ==> b' == b
  }

  ghost predicate RestKept(f: Flat, f': Flat, c: DirCall)
    requires !c.op.Drop?
  {
    && |f'.bytes| == |f.bytes| == |f'.metas| == |f.metas|
    && (forall k {:trigger f'.metas[k]} :: 0 <= k < |f.metas| ==> MetaAfter(c, k, f.metas[k], f'.metas[k]))
    && (forall k {:trigger f'.bytes[k]} :: 0 <= k < |f.bytes| ==> BytesAfter(c, k, f.bytes[k], f'.bytes[k]))
  }

  lemma SpliceSlot(b: seq<Byte>, s: nat, e: seq<Byte>)
    requires DIRENT * s <= |b| && |b| % DIRENT == 0 && |e| == DIRENT
    ensures OnlySlot(b, Splice(b, DIRENT * s, e), s)
  {
  }

  lemma LinkRest(f: Flat, t: Dirs.Tree, c: DirCall)
    requires Shows(f, t) && CanCall(t, c) && c.op.Join?
    ensures RestKept(f, All(f, OpsOf(f, t, c)), c)
  {
    var dp, s, i := c.op.dp, c.op.s, c.op.i;
    var up, e := UpdateOp(i, f.metas[i].(nlink := f.metas[i].nlink + 1)), Dirs.Entry(c.op.name, i);
    NodeIs(f, t, i);
    NodeIs(f, t, dp);
    SpliceSlot(f.bytes[dp], s, DirentOf(e));
    assert All(f, []) == f && [] + [up] == [up];
    AllMore(f, [], up);
    AllMore(f, [up], EntryOp(dp, s, e));
  }

  /** unlink before the last iput. */
  lemma RemoveIs(f: Flat, dp: nat, s: nat, i: nat)
    requires |f.bytes| == |f.metas| && dp < |f.metas| && i < |f.metas| && i != dp && f.metas[i].nlink > 0
    requires f.metas[i].kind == 1 ==> f.metas[dp].nlink > 0
    requires DIRENT * s <= |f.bytes[dp]| && DIRENT * s + DIRENT <= MAXFILE * BSIZE
    ensures var f' := All(f, UnlinkList(f, dp, s, i, false));
            && f'.bytes == f.bytes[dp := Splice(f.bytes[dp], DIRENT * s, Repeat(0, DIRENT))]
            && f'.metas == f.metas[dp := f'.metas[dp]][i := MoreLinks(f.metas[i], -1)]
            && f'.metas[dp] == (if f.metas[i].kind == 1 then MoreLinks(f.metas[dp], -1) else f.metas[dp])
  {
    var zero, down := WriteOp(dp, DIRENT * s, Repeat(0, DIRENT)), UpdateOp(i, MoreLinks(f.metas[i], -1));
    assert All(f, []) == f && [] + [zero] == [zero];
    AllMore(f, [], zero);
    if f.metas[i].kind == 1 {
      var up := UpdateOp(dp, MoreLinks(f.metas[dp], -1));
      AllMore(f, [zero], up);
      AllMore(f, [zero] + [up], down);
      assert UnlinkList(f, dp, s, i, false) == [zero] + [up] + [down];
    } else {
      AllMore(f, [zero], down);
      assert UnlinkList(f, dp, s, i, false) == [zero] + [down];
    }
  }

  /** The last iput. */
  lemma DropIs(f: Flat, i: nat, meta: Meta)
    requires i < |f.bytes| == |f.metas|
    ensures All(f, DropOps(i, meta)) == Flat(f.bytes[i := []], f.metas[i := meta.(kind := 0)])
  {
    assert All(f, []) == f && [] + [TruncOp(i)] == [TruncOp(i)];
    AllMore(f, [], TruncOp(i));
    AllMore(f, [TruncOp(i)], UpdateOp(i, meta.(kind := 0)));
    assert [TruncOp(i)] + [UpdateOp(i, meta.(kind := 0))] == DropOps(i, meta);
  }

  lemma UnlinkRest(f: Flat, t: Dirs.Tree, c: DirCall)
    requires Shows(f, t) && CanCall(t, c) && c.op.Remove?
    ensures RestKept(f, All(f, OpsOf(f, t, c)), c)
  {
    var dp, s, i := c.op.dp, c.op.s, c.op.i;
    RemoveShows(f, t, dp, s, i);
    NodeIs(f, t, i);
    NodeIs(f, t, dp);
    RemoveIs(f, dp, s, i);
    SpliceSlot(f.bytes[dp], s, Repeat(0, DIRENT));
    if c.last {
      LastIs(f, dp, s, i);
    }
  }

  lemma LastIs(f: Flat, dp: nat, s: nat, i: nat)
    requires |f.bytes| == |f.metas| && dp < |f.metas| && i < |f.metas| && f.metas[i].nlink > 0
    requires f.metas[i].kind == 1 ==> f.metas[dp].nlink > 0
    ensures var f1, f' := All(f, UnlinkList(f, dp, s, i, false)), All(f, UnlinkList(f, dp, s, i, true));
            && f'.bytes == f1.bytes[i := []]
            && f'.metas == f1.metas[i := MoreLinks(f.metas[i], -1).(kind := 0)]
  {
    var ops, meta := UnlinkList(f, dp, s, i, false), MoreLinks(f.metas[i], -1);
    DropIs(All(f, ops), i, meta);
    RunJoin(f, ops, DropOps(i, meta), 2);
    assert UnlinkList(f, dp, s, i, true) == ops + DropOps(i, meta);
  }

  /** create before the entry is written: only the new inode and the parent's link count change. */
  lemma MakeIs(f: Flat, dp: nat, i: nat, meta: Meta)
    requires |f.bytes| == |f.metas| && dp < |f.metas| && i < |f.metas| && i != dp && i < 65536 && dp < 65536
    ensures var a := [UpdateOp(i, NO_META.(kind := meta.kind))] + [UpdateOp(i, meta)];
            var f' := All(f, a + if meta.kind == 1 then DotOps(f.metas[dp], dp, i) else []);
            && f'.bytes == f.bytes[i := f'.bytes[i]]
            && f'.metas == f.metas[i := meta][dp := f'.metas[dp]]
            && f'.metas[dp] == (if meta.kind == 1 then MoreLinks(f.metas[dp], 1) else f.metas[dp])
  {
    var a := [UpdateOp(i, NO_META.(kind := meta.kind))] + [UpdateOp(i, meta)];
    NewMetas(f, i, meta);
    NewBytes(f, i, meta);
    if meta.kind == 1 {
      DotsAre(All(f, a), f.metas[dp], dp, i);
      RunJoin(f, a, DotOps(f.metas[dp], dp, i), 3);
    } else {
      assert a + [] == a;
    }
  }

  lemma NewBytes(f: Flat, i: nat, meta: Meta)
    requires i < |f.metas| == |f.bytes|
    ensures All(f, [UpdateOp(i, NO_META.(kind := meta.kind))] + [UpdateOp(i, meta)]).bytes == f.bytes
  {
    var a, b := UpdateOp(i, NO_META.(kind := meta.kind)), UpdateOp(i, meta);
    assert All(f, []) == f && [] + [a] == [a];
    AllMore(f, [], a);
    AllMore(f, [a], b);
  }

  lemma DotsAre(f: Flat, meta: Meta, dp: nat, i: nat)
    requires |f.bytes| == |f.metas| && dp < |f.metas| && i < |f.metas| && i < 65536 && dp < 65536
    ensures var f' := All(f, DotOps(meta, dp, i));
            f'.bytes == f.bytes[i := f'.bytes[i]] && f'.metas == f.metas[dp := MoreLinks(meta, 1)]
  {
    var up, one, two := UpdateOp(dp, MoreLinks(meta, 1)), EntryOp(i, 0, Dirs.Entry(".", i)),
                        EntryOp(i, 1, Dirs.Entry("..", dp));
    assert All(f, []) == f && [] + [up] == [up];
    AllMore(f, [], up);
    AllMore(f, [up], one);
    AllMore(f, [up] + [one], two);
  }

  lemma CreateRest(f: Flat, t: Dirs.Tree, c: DirCall)
    requires Shows(f, t) && CanCall(t, c) && c.op.Make?
    ensures RestKept(f, All(f, OpsOf(f, t, c)), c)
  {
    var dp, s, i, meta := c.op.dp, c.op.s, c.op.i, NewMeta(c.meta);
    var e := Dirs.Entry(c.op.name, i);
    NodeIs(f, t, i);
    NodeIs(f, t, dp);
    MakeIs(f, dp, i, meta);
    SpliceSlot(f.bytes[dp], s, DirentOf(e));
    AllMore(f, [UpdateOp(i, NO_META.(kind := meta.kind))] + [UpdateOp(i, meta)] +
               (if meta.kind == 1 then DotOps(f.metas[dp], dp, i) else []), EntryOp(dp, s, e));
  }

  /** create, link and unlink leave alone what they are not about: the metadata of an inode, its
      password with it, is as before but for the link count, unless the inode is new or dropped; and
      so are the bytes of every file but those and one slot of the directory. */
  lemma CallRest(f: Flat, t: Dirs.Tree, c: DirCall)
    requires Shows(f, t) && CanCall(t, c)
    ensures RestKept(f, All(f, OpsOf(f, t, c)), c)
  {
    if c.op.Make? {
      CreateRest(f, t, c);
    } else if c.op.Join? {
      LinkRest(f, t, c);
    } else {
      UnlinkRest(f, t, c);
    }
  }

  /** They do to the files what the call does to the tree, keep its invariant, and leave the rest. */
  lemma CallShows(f: Flat, t: Dirs.Tree, c: DirCall)
    requires Shows(f, t) && Dirs.Inv(t) && CanCall(t, c)
    ensures Shows(All(f, OpsOf(f, t, c)), TreeAfter(t, c)) && Dirs.Inv(TreeAfter(t, c))
    ensures RestKept(f, All(f, OpsOf(f, t, c)), c)
  {
    CallRest(f, t, c);
    DirTree.StepIff(t, c.op);
    match c.op
    case Make(dp, s, name, i, kind) => CreateShows(f, t, dp, s, name, i, NewMeta(c.meta));
    case Join(dp, s, name, i) => LinkShows(f, t, dp, s, name, i);
    case Remove(dp, s, i) =>
      RemoveShows(f, t, dp, s, i);
      if c.last {
        UnlinkShows(f, t, dp, s, i);
        DirTree.FreeKeeps(Dirs.Unlinked(t, dp, s), i);
      }
    case Drop(_) =>
  }

  /** They are calls that can be made. */
  lemma CallMade(f: Flat, t: Dirs.Tree, c: DirCall)
    requires Shows(f, t) && CanCall(t, c)
    ensures CanDoAll(|t.ns|, OpsOf(f, t, c))
  {
  }

  /** A create, link or unlink and its fate: afterwards the disk has the directory tree from before the
      call or the one from after it, the latter exactly if the transaction lasts, and that tree keeps
      its invariant. */
  method CrashingDirCall(fs: FileSystem, l: Log.Layout, nbuf: nat, ops: seq<Op>, fate: Fate, ghost c: DirCall,
                         ghost t: Dirs.Tree)
    returns (stray: bool, v: Log.Event, ghost t': Dirs.Tree)
    requires Mounted(fs, l) && |t.ns| == |fs.inodes| && Shows(fs.View(), t) && Dirs.Inv(t) && CanCall(t, c)
    requires ops == OpsOf(fs.View(), t, c)
    modifies fs
    ensures stray <==> Astray(l, nbuf, ImageAt(fs.sb, |old(fs.inodes)|, old(fs.disk), ops), fate)
    ensures !stray ==> v == EventOf(l, nbuf, ImageAt(fs.sb, |old(fs.inodes)|, old(fs.disk), ops), fate)
    ensures !stray ==> Mounted(fs, l) && |t'.ns| == |fs.inodes| == |old(fs.inodes)|
    ensures !stray ==> t' == (if Log.Survives(v) then TreeAfter(t, c) else t) && Shows(fs.View(), t') && Dirs.Inv(t')
    ensures !stray ==> if Log.Survives(v) then RestKept(old(fs.View()), fs.View(), c) else fs.View() == old(fs.View())
  {
    CallShows(fs.View(), t, c);
    CallMade(fs.View(), t, c);
    stray, v := CrashingCall(fs, l, nbuf, Call(ops, fate));
    t' := if Log.Survives(v) then TreeAfter(t, c) else t;
  }
}

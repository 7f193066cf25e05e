/** Transactions that give a file's blocks back (sysfile.c: unlink; file.c: fileclose), against the
    capacity of the log and the number of buffers. */
module DropTxn {
  import opened Blocks
  import opened Counting
  import opened Options
  import opened Files
  import opened FileBytes
  import opened FileSteps
  import opened DiskInodes
  import opened FileLog
  import opened Buffers
  import opened FileTrail
  import opened TruncLog
  import opened TruncTrail
  import opened FileOps
  import opened TxnBound
  import Log

  const DIRENT := 16

  /** iput on the last reference to an inode without links: itrunc, and the inode becomes free. */
  function DropOps(k: nat, meta: Meta): seq<Op> {
    [TruncOp(k), UpdateOp(k, meta.(kind := 0))]
  }

  /** unlink of the entry at `off` of directory `dp`, which names inode `k`: the entry is cleared; for
      a directory the parent's link count goes down; then that of the inode, which is dropped if this
      was the last link and nobody has it open. */
  function UnlinkOps(dp: nat, off: nat, parent: Option<Meta>, k: nat, meta: Meta, last: bool): seq<Op> {
    [WriteOp(dp, off, Repeat(0, DIRENT))] + (if parent.Some? then [UpdateOp(dp, parent.value)] else []) +
    [UpdateOp(k, meta)] + (if last then DropOps(k, meta) else [])
  }

  // ----- One call -----

  /** A write inside a block that is there. */
  lemma WriteInPlace(v: Level, sb: Super, e: Image, o: Owner, k: nat, off: nat, src: seq<Byte>)
    requires e.ok && Fair(v, e) && Sound(sb, e.d, e.inodes, o) && k < |e.inodes| && 0 < |src|
    requires off % BSIZE + |src| <= BSIZE && off + |src| <= e.inodes[k].size && off + |src| <= MAXFILE * BSIZE
    requires Ptr(e.d, e.inodes[k], DataSlot(off / BSIZE)) != 0
    ensures var e', a := AfterWrite(sb, e, k, off, src), Ptr(e.d, e.inodes[k], DataSlot(off / BSIZE));
            && e'.ok && Fair(v, e') && SectorList(e'.log) == SectorList(e.log) + [a]
            && e'.inodes == e.inodes && Sound(sb, e'.d, e'.inodes, o) && e'.trail.Then? && e'.trail.last == Store(a)
  {
    var f := MapBlock(sb, e, k, off / BSIZE);
    MapIsThere(sb, e, o, k, off / BSIZE);
    assert Step(off, |src|) == |src| && src[0..|src|] == src;
    assert OneTurn(sb, k, off, src)(e, 0) == PutBytes(sb, f, k, off, src);
    OneStep(OneTurn(sb, k, off, src), e, off, |src|);
    PutIs(sb, f, o, k, off, src);
    WriteFair(sb, v, e, k, off, src);
  }

  lemma OneStep(turn: (Image, nat) -> Image, e: Image, off: nat, n: nat)
    requires e.ok && 0 < n && off % BSIZE + n <= BSIZE
    ensures Loop(turn, e, off, n, 0) == turn(e, 0)
  {
    assert Step(off, n) == n;
    assert Loop(turn, turn(e, 0), off, n, n) == turn(e, 0);
  }

  /** bmap only reads pointer blocks then. */
  lemma MapIsThere(sb: Super, e: Image, o: Owner, k: nat, bn: nat)
    requires Sound(sb, e.d, e.inodes, o) && k < |e.inodes| && Ptr(e.d, e.inodes[k], DataSlot(bn)) != 0
    ensures MapBlock(sb, e, k, bn) == e.(trail := MapBlock(sb, e, k, bn).trail)
  {
    match DataSlot(bn)
    case SingleEntry(i) => assert Ptr(e.d, e.inodes[k], Single) != 0;
    case Leaf(i, j) => assert Ptr(e.d, e.inodes[k], DoubleEntry(i)) != 0 && Ptr(e.d, e.inodes[k], Double) != 0;
    case _ =>
  }

  /** iupdate logs the inode's sector and changes neither blocks nor bits. */
  lemma UpdateIs(v: Level, sb: Super, e: Image, o: Owner, k: nat, meta: Meta)
    requires e.ok && Fair(v, e) && Sound(sb, e.d, e.inodes, o) && k < |e.inodes| <= sb.ninodes
    ensures var e' := AfterOp(sb, e, UpdateOp(k, meta));
            && e'.ok && Fair(v, e') && SectorList(e'.log) == SectorList(e.log) + [InodeBlock(k)]
            && e'.inodes == e.inodes[k := e.inodes[k].(meta := meta)] && Sound(sb, e'.d, e'.inodes, o)
            && e'.trail == Then(e.trail, Store(InodeBlock(k)))
  {
    var inodes := e.inodes[k := e.inodes[k].(meta := meta)];
    var d := PutInode(e.d, k, inodes[k]);
    MetaSound(sb, e.d, e.inodes, o, k, meta);
    PutElsewhere(sb, e.d, inodes, o, k, inodes[k]);
    SoundElsewhere(sb, e.d, d, inodes, o);
    ListOf(e.log, [Log.Write(InodeBlock(k), d[InodeBlock(k)])]);
    StoreFair(v, e, d, inodes, Log.Write(InodeBlock(k), d[InodeBlock(k)]));
  }

  /** Dropping logs the bits of the file's blocks and twice the inode. */
  lemma DropIs(sb: Super, e: Image, o: Owner, k: nat, meta: Meta)
    requires e.ok && Agrees(e) && Sound(sb, e.d, e.inodes, o) && k < |e.inodes| <= sb.ninodes
    ensures var e', ib := AfterOp(sb, AfterOp(sb, e, TruncOp(k)), UpdateOp(k, meta)), InodeBlock(k);
            && e'.ok && Agrees(e')
            && SectorList(e'.log) == SectorList(e.log) + BitSectors(sb, TreeBlocks(e.d, e.inodes[k])) + [ib, ib]
            && e'.trail == Then(Then(TreeOn(e.trail, sb, e.d, e.inodes[k]), Store(ib)), Store(ib))
  {
    InodeSectorBelow(sb, k);
    TruncOk(sb, e, o, k);
    TruncListed(sb, e, k);
    var f := AfterTrunc(sb, e, k);
    TruncSize(sb, e, k);
    ListOf(f.log, [Log.Write(InodeBlock(k), PutInode(f.d, k, f.inodes[k].(meta := meta))[InodeBlock(k)])]);
    FreeSize(sb, e, TreeBlocks(e.d, e.inodes[k]));
    TreePuts(e.trail, sb, e.d, e.inodes[k]);
    assert Puts(f.trail) == SectorList(f.log);
  }

  /** The same as the end of a sequence of calls. */
  lemma DropLast(sb: Super, e0: Image, ops: seq<Op>, n: nat, e: Image, o: Owner, k: nat, meta: Meta)
    returns (f: Image)
    requires n + 2 == |ops| && ops[n..] == DropOps(k, meta) && e == AfterOps(sb, e0, ops, n)
    requires e.ok && Agrees(e) && Sound(sb, e.d, e.inodes, o) && k < |e.inodes| <= sb.ninodes
    ensures f == AfterOps(sb, e0, ops, |ops|) && f.ok && Agrees(f)
    ensures var ib := InodeBlock(k);
            && SectorList(f.log) == SectorList(e.log) + BitSectors(sb, TreeBlocks(e.d, e.inodes[k])) + [ib, ib]
            && f.trail == Then(Then(TreeOn(e.trail, sb, e.d, e.inodes[k]), Store(ib)), Store(ib))
  {
    assert ops[n] == ops[n..][0] && ops[n + 1] == ops[n..][1];
    DropIs(sb, e, o, k, meta.(kind := 0));
    assert AfterOps(sb, e0, ops, n + 1) == AfterOp(sb, e, ops[n]);
    f := AfterOps(sb, e0, ops, n + 2);
  }

  lemma TruncSize(sb: Super, e: Image, k: nat)
    ensures |AfterTrunc(sb, e, k).d| == |e.d| && |AfterTrunc(sb, e, k).inodes| == |e.inodes|
  {
    if k < |e.inodes| {
      FreeSize(sb, e, TreeBlocks(e.d, e.inodes[k]));
      FreeInodes(sb, e, TreeBlocks(e.d, e.inodes[k]));
    }
  }

  // ----- Whole transactions -----

  lemma BitsHome(sb: Super, d: Disk, inodes: seq<Inode>, o: Owner, k: nat, x: nat)
    requires Sound(sb, d, inodes, o) && x in BitsOwned(sb, o, k)
    ensures x < DataStart(sb)
  {
    var b :| b in o && o[b].0 == k && x == BitBlock(sb, b);
    assert OwnsAt(sb, d, inodes, o, b);
  }

  /** The sectors of a transaction that ends by dropping file `k`, but for its last log_write. */
  lemma DropSet(sb: Super, d: Disk, inodes: seq<Inode>, o: Owner, k: nat, pre: seq<nat>)
    requires Sound(sb, d, inodes, o) && k < |inodes|
    ensures var bits := BitSectors(sb, TreeBlocks(d, inodes[k]));
            Elements(pre + bits + [InodeBlock(k)]) == Elements(pre) + BitsOwned(sb, o, k) + {InodeBlock(k)}
  {
    BitsCleared(sb, d, inodes, o, k);
  }

  /** How a transaction ends that drops file `c.k`, with the sectors `c.start` logged before. */
  ghost predicate DropEnding(l: Log.Layout, c: Drop, g: Ending) {
    var all := c.start + BitsOwned(c.sb, c.o, c.k) + {InodeBlock(c.k)};
    && g != Strays
    && (g.Commits? <==> |all| < Log.Capacity(l) && RoomForAll(c))
    && (|all| < Log.Capacity(l) && !RoomForAll(c) ==> g == Panics(FullCache))
    && (|c.start| < Log.Capacity(l) <= |all| < c.nbuf && RoomForAll(c) ==> g == Panics(FullLog))
  }

  lemma DropEnds(l: Log.Layout, c: Drop, e: Image, f: Image)
    requires Spare(l, c.nbuf) && DataStart(c.sb) <= l.start && |e.inodes| <= c.sb.ninodes
    requires Ready(c, e.d, e.inodes) && Fair(Fit(l, c.nbuf), e) && e.ok && c.start == Elements(SectorList(e.log))
    requires forall y :: y in SectorList(e.log) ==> y < l.start
    requires f.ok && Agrees(f)
    requires var ib := InodeBlock(c.k);
             && SectorList(f.log) ==
                SectorList(e.log) + BitSectors(c.sb, TreeBlocks(e.d, e.inodes[c.k])) + [ib, ib]
             && f.trail == Then(Then(TreeOn(e.trail, c.sb, e.d, e.inodes[c.k]), Store(ib)), Store(ib))
    ensures DropEnding(l, c, EndingOf(l, c.nbuf, f))
  {
    var ib, pre := InodeBlock(c.k), SectorList(e.log);
    var bits := BitSectors(c.sb, TreeBlocks(e.d, e.inodes[c.k]));
    assert pre + bits + [ib, ib] == pre + bits + [ib] + [ib];
    DropSet(c.sb, e.d, e.inodes, c.o, c.k, pre);
    DropHome(l, c, e.d, e.inodes, pre);
    EndsBy(l, c.nbuf, f, pre + bits + [ib], ib);
    SubsetFits(c.start, c.start + BitsOwned(c.sb, c.o, c.k) + {ib});
    if |c.start| < Log.Capacity(l) {
      StartServed(l, c, e);
      DropRooms(c, e.d, e.inodes, e.trail, ib);
    }
  }

  lemma StartServed(l: Log.Layout, c: Drop, e: Image)
    requires Spare(l, c.nbuf) && Fair(Fit(l, c.nbuf), e) && e.ok && c.start == Elements(SectorList(e.log))
    requires |c.start| < Log.Capacity(l) && forall y :: y in SectorList(e.log) ==> y < l.start
    ensures Slots(c.nbuf, [], {}, e.trail)
  {
    var xs := SectorList(e.log);
    if xs != [] {
      PrefixFits(xs, |xs| - 1, |xs|);
      assert xs[..|xs|] == xs;
    }
    assert LogOk(l, xs);
    TakesIff(l, xs);
    RoomsSlots(c.nbuf, [], {}, e.trail);
  }

  lemma DropHome(l: Log.Layout, c: Drop, d: Disk, inodes: seq<Inode>, pre: seq<nat>)
    requires DataStart(c.sb) <= l.start && |inodes| <= c.sb.ninodes && Sound(c.sb, d, inodes, c.o) && c.k < |inodes|
    requires forall y :: y in pre ==> y < l.start
    ensures var ib := InodeBlock(c.k);
            ib < l.start && forall y :: y in pre + BitSectors(c.sb, TreeBlocks(d, inodes[c.k])) + [ib] ==> y < l.start
  {
    InodeSectorBelow(c.sb, c.k);
    BitsCleared(c.sb, d, inodes, c.o, c.k);
    var bits := BitSectors(c.sb, TreeBlocks(d, inodes[c.k]));
    forall y | y in bits ensures y < l.start {
      assert y in Elements(bits);
      BitsHome(c.sb, d, inodes, c.o, c.k, y);
    }
  }

  /** fileclose on a file without links commits if and only if the sectors with its bits and the one with
      its inode are fewer than the log holds; otherwise it panics.  With one buffer more than the log
      holds there are always enough. */
  lemma CloseEnds(l: Log.Layout, nbuf: nat, sb: Super, d: Disk, inodes: seq<Inode>, o: Owner, k: nat, meta: Meta)
    requires Sound(sb, d, inodes, o) && k < |inodes| <= sb.ninodes && DataStart(sb) <= l.start && Spare(l, nbuf)
    ensures var e := AfterOps(sb, ImageOf(d, inodes), DropOps(k, meta), 2);
            && e.ok && EndingOf(l, nbuf, e) != Strays
            && (EndingOf(l, nbuf, e).Commits? <==> |BitsOwned(sb, o, k) + {InodeBlock(k)}| < Log.Capacity(l))
  {
    var e0 := ImageOf(d, inodes);
    var c := Drop(nbuf, sb, o, k, {});
    assert Elements(SectorList(e0.log)) == {};
    var e := DropLast(sb, e0, DropOps(k, meta), 0, e0, o, k, meta);
    DropEnds(l, c, e0, e);
    assert c.start + BitsOwned(sb, o, k) + {InodeBlock(k)} == BitsOwned(sb, o, k) + {InodeBlock(k)};
    if |BitsOwned(sb, o, k) + {InodeBlock(k)}| < Log.Capacity(l) {
      CloseRoom(l, c, d, inodes);
    }
  }

  /** The inode's sector is not among those with the bits, and comes later. */
  lemma CloseRoom(l: Log.Layout, c: Drop, d: Disk, inodes: seq<Inode>)
    requires Sound(c.sb, d, inodes, c.o) && c.k < |inodes| <= c.sb.ninodes && Spare(l, c.nbuf) && c.start == {}
    requires |BitsOwned(c.sb, c.o, c.k) + {InodeBlock(c.k)}| < Log.Capacity(l)
    ensures RoomForAll(c)
  {
    var bits := BitsOwned(c.sb, c.o, c.k);
    assert InodeBlock(c.k) !in bits;
    assert |bits + {InodeBlock(c.k)}| == |bits| + 1;
    FewRoom(l, c);
  }

  lemma FewRoom(l: Log.Layout, c: Drop)
    requires Spare(l, c.nbuf) && |c.start| + |BitsOwned(c.sb, c.o, c.k)| + 2 <= Log.Capacity(l)
    ensures RoomForAll(c)
  {
    forall b | b in c.o && c.o[b].0 == c.k ensures RoomAt(c, b) {
      BelowFew(c, Rank(c.o[b].1) + 1);
    }
  }

  lemma BelowFew(c: Drop, r: nat)
    ensures |LoggedBelow(c, r)| <= |c.start| + |BitsOwned(c.sb, c.o, c.k)|
  {
    var below := BitsBelow(c, r);
    SubsetFits(below, BitsOwned(c.sb, c.o, c.k));
    assert |c.start + below| == |c.start| + |below| - |c.start * below|;
  }

  /** What unlink logs before the inode it unlinks. */
  function UnlinkStart(a: nat, dp: nat, parent: Option<Meta>): seq<nat> {
    [a] + if parent.Some? then [InodeBlock(dp)] else []
  }

  /** The last link is gone: the file is dropped when these sectors have been logged. */
  function LastDrop(nbuf: nat, sb: Super, o: Owner, start: seq<nat>, k: nat): Drop {
    Drop(nbuf, sb, o, k, Elements(start) + {InodeBlock(k)})
  }

  /** The sectors unlink logs, but for its last log_write. */
  ghost function UnlinkSectors(sb: Super, o: Owner, start: seq<nat>, k: nat, last: bool): set<nat> {
    if last then Elements(start) + BitsOwned(sb, o, k) + {InodeBlock(k)} else Elements(start)
  }

  /** The first calls of unlink. */
  lemma UnlinkIs(v: Level, sb: Super, d: Disk, inodes: seq<Inode>, o: Owner, dp: nat, off: nat, parent: Option<Meta>,
                 k: nat, meta: Meta, last: bool)
    returns (e: Image, n: nat)
    requires Sound(sb, d, inodes, o) && dp < |inodes| <= sb.ninodes && k < |inodes|
    requires off % DIRENT == 0 && off + DIRENT <= inodes[dp].size <= MAXFILE * BSIZE
    requires Ptr(d, inodes[dp], DataSlot(off / BSIZE)) != 0
    ensures var ops := UnlinkOps(dp, off, parent, k, meta, last);
            && n == |ops| - (if last then 2 else 0) && e == AfterOps(sb, ImageOf(d, inodes), ops, n)
            && e.ok && Fair(v, e) && Sound(sb, e.d, e.inodes, o) && |e.inodes| == |inodes|
            && SectorList(e.log) ==
               UnlinkStart(Ptr(d, inodes[dp], DataSlot(off / BSIZE)), dp, parent) + [InodeBlock(k)]
  {
    var e0 := ImageOf(d, inodes);
    var ops := UnlinkOps(dp, off, parent, k, meta, last);
    n := 1;
    e := WriteFirst(v, sb, e0, o, ops, dp, off, Repeat(0, DIRENT));
    if parent.Some? {
      n := 2;
      e := UpdateNext(v, sb, e0, ops, 1, e, o, dp, parent.value);
    }
    e := UpdateNext(v, sb, e0, ops, n, e, o, k, meta);
    n := n + 1;
  }

  lemma WriteFirst(v: Level, sb: Super, e0: Image, o: Owner, ops: seq<Op>, k: nat, off: nat, src: seq<Byte>)
    returns (e: Image)
    requires e0.ok && e0.log == [] && e0.trail == Start && Sound(sb, e0.d, e0.inodes, o)
    requires k < |e0.inodes| && |src| == DIRENT
    requires off % DIRENT == 0 && off + DIRENT <= e0.inodes[k].size <= MAXFILE * BSIZE
    requires Ptr(e0.d, e0.inodes[k], DataSlot(off / BSIZE)) != 0 && ops != [] && ops[0] == WriteOp(k, off, src)
    ensures e == AfterOps(sb, e0, ops, 1) && e.ok && Fair(v, e) && Sound(sb, e.d, e.inodes, o)
    ensures |e.inodes| == |e0.inodes|
    ensures SectorList(e.log) == [Ptr(e0.d, e0.inodes[k], DataSlot(off / BSIZE))]
  {
    assert off % BSIZE + DIRENT <= BSIZE;
    assert SectorList(e0.log) == [] == Puts(e0.trail);
    WriteInPlace(v, sb, e0, o, k, off, src);
    assert AfterOps(sb, e0, ops, 0) == e0;
    e := AfterOps(sb, e0, ops, 1);
  }

  lemma UpdateNext(v: Level, sb: Super, e0: Image, ops: seq<Op>, n: nat, e: Image, o: Owner, k: nat, meta: Meta)
    returns (f: Image)
    requires n < |ops| && ops[n] == UpdateOp(k, meta) && e == AfterOps(sb, e0, ops, n)
    requires e.ok && Fair(v, e) && Sound(sb, e.d, e.inodes, o) && k < |e.inodes| <= sb.ninodes
    ensures f == AfterOps(sb, e0, ops, n + 1) && f.ok && Fair(v, f) && Sound(sb, f.d, f.inodes, o)
    ensures |f.inodes| == |e.inodes|
    ensures SectorList(f.log) == SectorList(e.log) + [InodeBlock(k)]
  {
    UpdateIs(v, sb, e, o, k, meta);
    f := AfterOps(sb, e0, ops, n + 1);
  }

  /** unlink commits if and only if the sector of the entry, those of the inodes and those with the bits
      of the blocks it gives back are fewer than the log holds and, if it gives blocks back, there is a
      buffer at each bfree.  Otherwise it panics: in bget if the log has room. */
  lemma UnlinkEnds(l: Log.Layout, nbuf: nat, sb: Super, d: Disk, inodes: seq<Inode>, o: Owner, dp: nat, off: nat,
                   parent: Option<Meta>, k: nat, meta: Meta, last: bool)
    requires Sound(sb, d, inodes, o) && dp < |inodes| <= sb.ninodes && k < |inodes| && Spare(l, nbuf)
    requires off % DIRENT == 0 && off + DIRENT <= inodes[dp].size <= MAXFILE * BSIZE
    requires Ptr(d, inodes[dp], DataSlot(off / BSIZE)) != 0 && BelowLog(o, l) && DataStart(sb) <= l.start
    ensures var ops := UnlinkOps(dp, off, parent, k, meta, last);
            var e := AfterOps(sb, ImageOf(d, inodes), ops, |ops|);
            var start := UnlinkStart(Ptr(d, inodes[dp], DataSlot(off / BSIZE)), dp, parent);
            var c, fits := LastDrop(nbuf, sb, o, start, k),
                           |UnlinkSectors(sb, o, start, k, last)| < Log.Capacity(l);
            && e.ok && EndingOf(l, nbuf, e) != Strays
            && (EndingOf(l, nbuf, e).Commits? <==> fits && (last ==> RoomForAll(c)))
            && (fits && !EndingOf(l, nbuf, e).Commits? ==> EndingOf(l, nbuf, e) == Panics(FullCache))
            && (last ==> DropEnding(l, c, EndingOf(l, nbuf, e)))
  {
    var start := UnlinkStart(Ptr(d, inodes[dp], DataSlot(off / BSIZE)), dp, parent);
    var e, n := UnlinkIs(Fit(l, nbuf), sb, d, inodes, o, dp, off, parent, k, meta, last);
    StartHome(l, sb, d, inodes, o, dp, off, parent);
    InodeSectorBelow(sb, k);
    if last {
      var ops := UnlinkOps(dp, off, parent, k, meta, last);
      StartReady(sb, d, inodes, o, dp, off, parent, k, nbuf);
      var f := DropLast(sb, ImageOf(d, inodes), ops, n, e, o, k, meta);
      LastEnds(l, nbuf, sb, o, start, k, e, f);
    } else {
      EndsBy(l, nbuf, e, start, InodeBlock(k));
      ShortRooms(l, nbuf, e, start, InodeBlock(k));
    }
  }

  lemma LastEnds(l: Log.Layout, nbuf: nat, sb: Super, o: Owner, start: seq<nat>, k: nat, e: Image, f: Image)
    requires Spare(l, nbuf) && DataStart(sb) <= l.start && k < |e.inodes| <= sb.ninodes
    requires Ready(LastDrop(nbuf, sb, o, start, k), e.d, e.inodes)
    requires e.ok && Fair(Fit(l, nbuf), e) && SectorList(e.log) == start + [InodeBlock(k)]
    requires InodeBlock(k) < l.start && forall y :: y in start ==> y < l.start
    requires f.ok && Agrees(f)
    requires var ib := InodeBlock(k);
             && SectorList(f.log) == SectorList(e.log) + BitSectors(sb, TreeBlocks(e.d, e.inodes[k])) + [ib, ib]
             && f.trail == Then(Then(TreeOn(e.trail, sb, e.d, e.inodes[k]), Store(ib)), Store(ib))
    ensures var c, g := LastDrop(nbuf, sb, o, start, k), EndingOf(l, nbuf, f);
            && DropEnding(l, c, g)
            && c.start + BitsOwned(sb, o, k) + {InodeBlock(k)} == UnlinkSectors(sb, o, start, k, true)
  {
    var c := LastDrop(nbuf, sb, o, start, k);
    assert Elements(start + [InodeBlock(k)]) == c.start;
    DropEnds(l, c, e, f);
  }

  /** Without a drop there are always buffers. */
  lemma ShortRooms(l: Log.Layout, nbuf: nat, e: Image, xs: seq<nat>, x: nat)
    requires e.ok && Fair(Fit(l, nbuf), e) && Spare(l, nbuf) && SectorList(e.log) == xs + [x]
    requires x < l.start && forall y :: y in xs ==> y < l.start
    ensures |Elements(xs)| < Log.Capacity(l) ==> Rooms(nbuf, [], {}, e.trail)
  {
    var ys := SectorList(e.log);
    assert ys[..|ys| - 1] == xs;
    TakesIff(l, ys);
  }

  /** A file whose bits are in few enough sectors can be unlinked, whatever else the transaction logs. */
  lemma UnlinkFits(l: Log.Layout, nbuf: nat, sb: Super, d: Disk, inodes: seq<Inode>, o: Owner, dp: nat, off: nat,
                   parent: Option<Meta>, k: nat, meta: Meta, last: bool)
    requires Sound(sb, d, inodes, o) && dp < |inodes| <= sb.ninodes && k < |inodes| && Spare(l, nbuf)
    requires off % DIRENT == 0 && off + DIRENT <= inodes[dp].size <= MAXFILE * BSIZE
    requires Ptr(d, inodes[dp], DataSlot(off / BSIZE)) != 0 && BelowLog(o, l) && DataStart(sb) <= l.start
    requires |BitsOwned(sb, o, k)| + 5 <= Log.Capacity(l)
    ensures var ops := UnlinkOps(dp, off, parent, k, meta, last);
            EndingOf(l, nbuf, AfterOps(sb, ImageOf(d, inodes), ops, |ops|)).Commits?
  {
    var a := Ptr(d, inodes[dp], DataSlot(off / BSIZE));
    UnlinkEnds(l, nbuf, sb, d, inodes, o, dp, off, parent, k, meta, last);
    FewSectors(sb, o, a, dp, parent, k, last);
    FewRoom(l, LastDrop(nbuf, sb, o, UnlinkStart(a, dp, parent), k));
  }

  lemma FewSectors(sb: Super, o: Owner, a: nat, dp: nat, parent: Option<Meta>, k: nat, last: bool)
    ensures |UnlinkSectors(sb, o, UnlinkStart(a, dp, parent), k, last)| <= |BitsOwned(sb, o, k)| + 3
    ensures |Elements(UnlinkStart(a, dp, parent)) + {InodeBlock(k)}| <= 3
  {
    var start := UnlinkStart(a, dp, parent);
    assert start[0] == a && (parent.Some? ==> start[1] == InodeBlock(dp));
    assert Elements(start) == if parent.Some? then {a, InodeBlock(dp)} else {a};
  }

  lemma StartHome(l: Log.Layout, sb: Super, d: Disk, inodes: seq<Inode>, o: Owner, dp: nat, off: nat,
                  parent: Option<Meta>)
    requires Sound(sb, d, inodes, o) && dp < |inodes| <= sb.ninodes && BelowLog(o, l) && DataStart(sb) <= l.start
    requires off < MAXFILE * BSIZE && Ptr(d, inodes[dp], DataSlot(off / BSIZE)) != 0
    ensures forall y :: y in UnlinkStart(Ptr(d, inodes[dp], DataSlot(off / BSIZE)), dp, parent) ==> y < l.start
  {
    var a := Ptr(d, inodes[dp], DataSlot(off / BSIZE));
    DataSlotFacts(off / BSIZE);
    assert a in o && o[a] == o[a];
    InodeSectorBelow(sb, dp);
  }

  /** No pointer block is among them. */
  lemma StartReady(sb: Super, d: Disk, inodes: seq<Inode>, o: Owner, dp: nat, off: nat, parent: Option<Meta>, k: nat,
                   nbuf: nat)
    requires Sound(sb, d, inodes, o) && dp < |inodes| <= sb.ninodes && k < |inodes|
    requires off < MAXFILE * BSIZE && Ptr(d, inodes[dp], DataSlot(off / BSIZE)) != 0
    ensures var start := UnlinkStart(Ptr(d, inodes[dp], DataSlot(off / BSIZE)), dp, parent);
            forall b {:trigger o[b]} ::
              b in o && HoldsPointers(o[b].1) ==> b !in LastDrop(nbuf, sb, o, start, k).start
  {
    var a := Ptr(d, inodes[dp], DataSlot(off / BSIZE));
    DataSlotFacts(off / BSIZE);
    InodeSectorBelow(sb, dp);
    InodeSectorBelow(sb, k);
    forall b | b in o && HoldsPointers(o[b].1) ensures b != a && b != InodeBlock(dp) && b != InodeBlock(k) {
      assert OwnsAt(sb, d, inodes, o, b);
    }
  }
}

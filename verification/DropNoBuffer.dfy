/** A file that cannot be unlinked although the log has room: the largest file there can be, written from
    block 4000 on when other files that are gone now had the blocks before.  Its bits are in six sectors
    of the free map.  When itrunc comes to the first block whose bit is in the sixth, the sectors of the
    directory entry, of the inode and of five parts of the free map are logged, two pointer blocks and
    the sixth part are held, and these are all the buffers; log_write needs one more. */
module DropNoBuffer {
  import opened Blocks
  import opened Counting
  import opened Options
  import opened Files
  import opened FileBytes
  import opened FileSteps
  import opened FileLog
  import opened DiskInodes
  import opened Buffers
  import opened FileTrail
  import opened TruncLog
  import opened TruncTrail
  import opened FileOps
  import opened TxnBound
  import opened DropTxn
  import opened TxnTooBig
  import opened Sealed
  import Log

  const BASE := 4000

  predicate InUse(b: nat) {
    b <= 62 || BASE <= b < BASE + TREE
  }

  function OwnerOf(b: nat): (nat, Slot) {
    if b == 62 then (1, Direct(0)) else (FILE, SlotAt(if b < BASE then 0 else b - BASE))
  }

  /** The root directory has block 62, and the file the other ones. */
  function Place(k: nat, s: Slot): nat {
    if k == 1 && s == Direct(0) then 62 else if k == FILE then BASE + PlaceOf(s) else 0
  }

  function InodeWith(k: nat): Inode {
    Inode(seq(NDIRECT + 1, (i: nat) => if i < NDIRECT then Place(k, Direct(i)) else Place(k, Single)),
          Place(k, Double), if k == 1 then BSIZE else if k == FILE then MAXFILE * BSIZE else 0, MetaOf(k))
  }

  /** The root directory: ".", ".." and the file "a". */
  function Root(): (r: seq<Byte>)
    ensures |r| == BSIZE
  {
    Dirent(1, [46]) + Dirent(1, [46, 46]) + Dirent(2, [97]) + Repeat(0, BSIZE - 48)
  }

  function Sector(p: nat): Block {
    if p == 2 then Dinodes([InodeWith(0), InodeWith(1), InodeWith(2), EMPTY_INODE])
    else if 53 <= p < 61 then Bits(seq(BPB, (i: nat) => InUse((p - 53) * BPB + i)))
    else if p == 62 then Data(Root())
    else if BASE <= p < BASE + TREE && HoldsPointers(SlotAt(p - BASE)) then
      Words(seq(NINDIRECT, (i: nat) => Place(FILE, ChildSlot(SlotAt(p - BASE), i))))
    else Zero
  }

  ghost predicate Written(d: Disk, inodes: seq<Inode>, o: Owner) {
    && |d| == SB.size && (forall p: nat {:trigger d[p]} :: p < SB.size ==> d[p] == Sector(p))
    && |inodes| == 3 && (forall k: nat {:trigger inodes[k]} :: k < 3 ==> inodes[k] == InodeWith(k))
    && (forall b: nat {:trigger b in o} :: b in o <==> 62 <= b && InUse(b))
    && (forall b: nat {:trigger o[b]} :: 62 <= b && InUse(b) ==> o[b] == OwnerOf(b))
  }

  lemma SetUp() returns (d: Disk, inodes: seq<Inode>, o: Owner)
    ensures Written(d, inodes, o)
  {
    d := seq(SB.size, (p: nat) => Sector(p));
    inodes := seq(3, (k: nat) => InodeWith(k));
    o := map b: nat | 62 <= b < SB.size && InUse(b) :: OwnerOf(b);
  }

  lemma PlaceIs(s: Slot)
    requires Legal(s)
    ensures PlaceOf(s) < TREE && OwnerOf(Place(FILE, s)) == (FILE, s) && InUse(Place(FILE, s))
  {
    PlaceSlot(s);
  }

  /** The words of a pointer block are its children's numbers. */
  lemma EntryIs(d: Disk, inodes: seq<Inode>, o: Owner, s: Slot, i: nat)
    requires Written(d, inodes, o) && Legal(s) && HoldsPointers(s) && i < NINDIRECT
    ensures Entry(d, Place(FILE, s), i) == Place(FILE, ChildSlot(s, i))
  {
    PlaceIs(s);
    assert d[Place(FILE, s)] == Sector(Place(FILE, s));
  }

  lemma PtrOf(d: Disk, inodes: seq<Inode>, o: Owner, k: nat, s: Slot)
    requires Written(d, inodes, o) && k < 3 && Legal(s)
    ensures Ptr(d, inodes[k], s) == Place(k, s)
  {
    assert inodes[k].addrs[NDIRECT] == Place(k, Single);
    if k == FILE {
      match s
      case SingleEntry(i) => EntryIs(d, inodes, o, Single, i);
      case DoubleEntry(i) => EntryIs(d, inodes, o, Double, i);
      case Leaf(i, j) =>
        EntryIs(d, inodes, o, Double, i);
        EntryIs(d, inodes, o, DoubleEntry(i), j);
      case _ =>
    }
  }

  lemma BitOf(d: Disk, inodes: seq<Inode>, o: Owner, b: nat)
    requires Written(d, inodes, o) && b < SB.size
    ensures Used(SB, d, b) <==> InUse(b)
  {
    var p := BitBlock(SB, b);
    assert p == b / BPB + 53 && d[p] == Sector(p);
    assert (p - 53) * BPB + b % BPB == b;
  }

  lemma OwnsNow(d: Disk, inodes: seq<Inode>, o: Owner, b: nat)
    requires Written(d, inodes, o) && b in o
    ensures OwnsAt(SB, d, inodes, o, b) && b < LAYOUT.start
  {
    if b != 62 {
      SlotPlace(b - BASE);
    }
    PtrOf(d, inodes, o, OwnerOf(b).0, OwnerOf(b).1);
  }

  lemma SlotOwned(d: Disk, inodes: seq<Inode>, o: Owner, k: nat, s: Slot)
    requires Written(d, inodes, o) && k < 3 && Legal(s) && Place(k, s) != 0
    ensures Place(k, s) in o && o[Place(k, s)] == (k, s)
  {
    PlaceIs(s);
  }

  /** That this is the state, as one fact. */
  ghost function WrittenOf(d: Disk, inodes: seq<Inode>, o: Owner): Seal {
    if forall z: nat {:trigger Open(z)} :: Open(z) ==> Written(d, inodes, o) then Known else Unknown
  }

  lemma PtrOwned(d: Disk, inodes: seq<Inode>, o: Owner, k: nat, s: Slot)
    requires WrittenOf(d, inodes, o) == Known && k < 3 == |inodes| && Legal(s) && Ptr(d, inodes[k], s) != 0
    ensures Ptr(d, inodes[k], s) in o && o[Ptr(d, inodes[k], s)] == (k, s)
  {
    assert Open(0);
    PtrOf(d, inodes, o, k, s);
    SlotOwned(d, inodes, o, k, s);
  }

  lemma PtrsNow(d: Disk, inodes: seq<Inode>, o: Owner)
    requires WrittenOf(d, inodes, o) == Known && |inodes| == 3
    ensures PtrsOwned(d, inodes, o)
  {
    forall k, s | 0 <= k < |inodes| && Legal(s) && Ptr(d, inodes[k], s) != 0
      ensures Ptr(d, inodes[k], s) in o && o[Ptr(d, inodes[k], s)] == (k, s)
    {
      PtrOwned(d, inodes, o, k, s);
    }
  }

  lemma BitsNow(d: Disk, inodes: seq<Inode>, o: Owner)
    requires Written(d, inodes, o)
    ensures BitsAgree(SB, d, o)
  {
    forall b | 0 <= b < SB.size ensures Used(SB, d, b) <==> b < DataStart(SB) || b in o {
      BitOf(d, inodes, o, b);
      assert DataStart(SB) == 62;
    }
  }

  lemma TypedNow(d: Disk, inodes: seq<Inode>, o: Owner)
    requires Written(d, inodes, o)
    ensures Typed(d, o)
  {
    forall b | b in o
      ensures At(d, b).Zero? || (if HoldsPointers(o[b].1) then At(d, b).Words? else At(d, b).Data?)
    {
      assert d[b] == Sector(b);
    }
  }

  lemma SoundNow(d: Disk, inodes: seq<Inode>, o: Owner)
    requires Written(d, inodes, o)
    ensures Sound(SB, d, inodes, o)
  {
    PtrsNow(d, inodes, o);
    BitsNow(d, inodes, o);
    forall b | b in o ensures OwnsAt(SB, d, inodes, o, b) {
      OwnsNow(d, inodes, o, b);
    }
    TypedNow(d, inodes, o);
  }

  function Contents(): (cs: seq<seq<Byte>>)
    ensures |cs| == 3 && cs[0] == [] && cs[1] == Root() && cs[2] == Repeat(0, MAXFILE * BSIZE)
  {
    [[], Root(), Repeat(0, MAXFILE * BSIZE)]
  }

  lemma FileHolds(d: Disk, inodes: seq<Inode>, o: Owner)
    requires Written(d, inodes, o)
    ensures Holds(d, inodes[FILE], Repeat(0, MAXFILE * BSIZE))
  {
    forall bn | 0 <= bn < MAXFILE
      ensures Ptr(d, inodes[FILE], DataSlot(bn)) != 0 && At(d, Ptr(d, inodes[FILE], DataSlot(bn))) == Zero
    {
      DataSlotFacts(bn);
      PtrOf(d, inodes, o, FILE, DataSlot(bn));
      PlaceIs(DataSlot(bn));
      assert d[Place(FILE, DataSlot(bn))] == Sector(Place(FILE, DataSlot(bn)));
    }
    forall n | 0 <= n < MAXFILE * BSIZE ensures ByteAt(d, inodes[FILE], n) == 0 {
      assert 0 <= n / BSIZE < MAXFILE;
    }
  }

  lemma RootHolds(d: Disk, inodes: seq<Inode>, o: Owner)
    requires Written(d, inodes, o)
    ensures Holds(d, inodes[1], Root())
  {
    PtrOf(d, inodes, o, 1, DataSlot(0));
    assert d[62] == Sector(62);
    forall n | 0 <= n < BSIZE ensures ByteAt(d, inodes[1], n) == Root()[n] {
      assert n / BSIZE == 0;
    }
  }

  lemma RefinesNow(d: Disk, inodes: seq<Inode>, o: Owner)
    requires Written(d, inodes, o)
    ensures Refines(d, inodes, Contents())
  {
    FileHolds(d, inodes, o);
    RootHolds(d, inodes, o);
  }

  function Gone(o: Owner): Drop {
    LastDrop(NBUF, SB, o, UnlinkStart(62, 1, None), FILE)
  }

  lemma StartIs(o: Owner)
    ensures Gone(o).start == {62, 2}
  {
    assert UnlinkStart(62, 1, None)[0] == 62;
    assert Elements(UnlinkStart(62, 1, None)) == {62};
  }

  /** The log has room: eight sectors are logged before the last log_write. */
  lemma EightSectors(d: Disk, inodes: seq<Inode>, o: Owner)
    requires Written(d, inodes, o)
    ensures |Gone(o).start + BitsOwned(SB, o, FILE) + {InodeBlock(FILE)}| <= 8
  {
    StartIs(o);
    SixBits(d, inodes, o);
    AtMostEight(BitsOwned(SB, o, FILE));
  }

  lemma SixBits(d: Disk, inodes: seq<Inode>, o: Owner)
    requires Written(d, inodes, o)
    ensures BitsOwned(SB, o, FILE) <= Interval(53, 6)
  {
    forall b | b in o && o[b].0 == FILE ensures 53 <= BitBlock(SB, b) < 59 {
    }
  }

  lemma AtMostEight(bits: set<nat>)
    requires bits <= Interval(53, 6)
    ensures |{62, 2} + bits + {2}| <= 8
  {
    SubsetFits(bits, Interval(53, 6));
    assert {62, 2} + bits + {2} == bits + {62} + {2};
  }

  /** The first block whose bit is in the sixth sector. */
  const LAST := 5 * BPB

  lemma LastIs(d: Disk, inodes: seq<Inode>, o: Owner)
    requires Written(d, inodes, o)
    ensures LAST in o && o[LAST] == (FILE, Leaf(126, 83)) && BitBlock(SB, LAST) == 58
  {
  }

  /** A block from each of the sectors before, in a slot that itrunc visits earlier. */
  function Earlier(i: nat): Slot {
    if i == 0 then Direct(0) else if i == 1 then Leaf(0, 0) else Leaf(30 * i - 20, 0)
  }

  lemma EarlierIs(d: Disk, inodes: seq<Inode>, o: Owner, i: nat)
    requires Written(d, inodes, o) && i < 5
    ensures var b := Place(FILE, Earlier(i));
            b in o && o[b] == (FILE, Earlier(i)) && BitBlock(SB, b) == 53 + i && Rank(Earlier(i)) < Rank(Leaf(126, 83))
  {
    SlotOwned(d, inodes, o, FILE, Earlier(i));
  }

  lemma LoggedThen(d: Disk, inodes: seq<Inode>, o: Owner)
    requires Written(d, inodes, o)
    ensures Interval(53, 6) <= BitsBelow(Gone(o), Rank(Leaf(126, 83)) + 1)
  {
    LastIs(d, inodes, o);
    forall x | x in Interval(53, 6) ensures x in BitsBelow(Gone(o), Rank(Leaf(126, 83)) + 1) {
      if x < 58 {
        EarlierIs(d, inodes, o, x - 53);
      }
    }
  }

  /** Eight logged sectors and two pointer blocks leave no buffer. */
  lemma NoRoom(d: Disk, inodes: seq<Inode>, o: Owner)
    requires Written(d, inodes, o)
    ensures LAST in o && o[LAST].0 == FILE && !RoomAt(Gone(o), LAST)
  {
    LastIs(d, inodes, o);
    EightThen(d, inodes, o);
  }

  lemma EightThen(d: Disk, inodes: seq<Inode>, o: Owner)
    requires Written(d, inodes, o)
    ensures |LoggedBelow(Gone(o), Rank(Leaf(126, 83)) + 1)| >= 8
  {
    LoggedThen(d, inodes, o);
    StartIs(o);
    EightAtLeast(LoggedBelow(Gone(o), Rank(Leaf(126, 83)) + 1));
  }

  lemma EightAtLeast(xs: set<nat>)
    requires Interval(53, 6) <= xs && 62 in xs && 2 in xs
    ensures |xs| >= 8
  {
    var bits := Interval(53, 6);
    OneMore(bits, xs, 62);
    OneMore(bits + {62}, xs, 2);
    SubsetFits(bits + {62} + {2}, xs);
  }

  lemma NoBufferHere(d: Disk, inodes: seq<Inode>, o: Owner, g: Ending)
    requires Written(d, inodes, o) && DropEnding(LAYOUT, Gone(o), g)
    ensures g == Panics(FullCache)
  {
    EightSectors(d, inodes, o);
    NoRoom(d, inodes, o);
  }

  /** The counterexample: a sound disk that the log can be used on, and the unlink of the third entry of
      its root directory, which is the only link of a file that nobody has open. */
  lemma RunsOut() returns (d: Disk, inodes: seq<Inode>, o: Owner)
    ensures Sound(SB, d, inodes, o) && Refines(d, inodes, Contents()) && InodesStored(d, inodes)
    ensures Log.Clean(LAYOUT, d) && BelowLog(o, LAYOUT) && DataStart(SB) <= LAYOUT.start
    ensures |inodes| == 3 && inodes[FILE].meta.nlink == 1 && Contents()[1][32..48] == Dirent(FILE, [97])
    ensures var start := UnlinkStart(Ptr(d, inodes[1], DataSlot(0)), 1, None);
            |UnlinkSectors(SB, o, start, FILE, true)| < Log.Capacity(LAYOUT)
    ensures var ops := UnlinkOps(1, 32, None, FILE, inodes[FILE].meta.(nlink := 0), true);
            var e := AfterOps(SB, ImageOf(d, inodes), ops, |ops|);
            e.ok && EndingOf(LAYOUT, NBUF, e) == Panics(FullCache)
  {
    d, inodes, o := SetUp();
    SoundNow(d, inodes, o);
    RefinesNow(d, inodes, o);
    forall b | b in o ensures b < LAYOUT.start {
      OwnsNow(d, inodes, o, b);
    }
    assert d[LAYOUT.start] == Sector(LAYOUT.start);
    UnlinkPanics(d, inodes, o);
  }

  lemma UnlinkPanics(d: Disk, inodes: seq<Inode>, o: Owner)
    requires Written(d, inodes, o) && Sound(SB, d, inodes, o) && BelowLog(o, LAYOUT)
    ensures var start := UnlinkStart(Ptr(d, inodes[1], DataSlot(0)), 1, None);
            |UnlinkSectors(SB, o, start, FILE, true)| < Log.Capacity(LAYOUT)
    ensures var ops := UnlinkOps(1, 32, None, FILE, inodes[FILE].meta.(nlink := 0), true);
            var e := AfterOps(SB, ImageOf(d, inodes), ops, |ops|);
            e.ok && EndingOf(LAYOUT, NBUF, e) == Panics(FullCache)
  {
    PtrOf(d, inodes, o, 1, DataSlot(0));
    var meta := inodes[FILE].meta.(nlink := 0);
    var ops := UnlinkOps(1, 32, None, FILE, meta, true);
    UnlinkEnds(LAYOUT, NBUF, SB, d, inodes, o, 1, 32, None, FILE, meta, true);
    NoBufferHere(d, inodes, o, EndingOf(LAYOUT, NBUF, AfterOps(SB, ImageOf(d, inodes), ops, |ops|)));
    EightSectors(d, inodes, o);
    assert Gone(o).start + BitsOwned(SB, o, FILE) + {InodeBlock(FILE)} ==
           UnlinkSectors(SB, o, UnlinkStart(62, 1, None), FILE, true);
  }
}

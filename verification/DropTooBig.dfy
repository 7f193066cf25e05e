/** A file that cannot be unlinked: its seven blocks lie so far apart that their bits are in seven
    sectors of the free map.  Other files had filled the gaps and are gone.  With the sectors of the
    directory entry and the inode these are nine, and log_write panics before the transaction is
    complete. */
module DropTooBig {
  import opened Blocks
  import opened Counting
  import opened Options
  import opened Files
  import opened FileBytes
  import opened FileSteps
  import opened FileLog
  import opened DiskInodes
  import opened Buffers
  import opened FileTrail
  import opened TruncLog
  import opened TruncTrail
  import opened FileOps
  import opened TxnBound
  import opened DropTxn
  import opened TxnTooBig
  import Log

  /** Block `i` of the file. */
  function Far(i: nat): nat {
    BPB * i + 100
  }

  const BLOCKS := 7

  predicate InUse(b: nat) {
    b <= 62 || (b % BPB == 100 && b / BPB < BLOCKS)
  }

  function OwnerOf(b: nat): (nat, Slot) {
    if b == 62 then (1, Direct(0)) else (FILE, Direct(b / BPB))
  }

  /** The root directory has block 62, and the file the other ones. */
  function Place(k: nat, s: Slot): nat {
    if k == 1 && s == Direct(0) then 62
    else if k == FILE && s.Direct? && s.i < BLOCKS then Far(s.i)
    else 0
  }

  function InodeWith(k: nat): Inode {
    Inode(seq(NDIRECT + 1, (i: nat) => if i < NDIRECT then Place(k, Direct(i)) else 0), 0,
          if k == 1 then BSIZE else if k == FILE then BLOCKS * BSIZE else 0, MetaOf(k))
  }

  /** The root directory: ".", ".." and the file "a". */
  function Root(): (r: seq<Byte>)
    ensures |r| == BSIZE
  {
    Dirent(1, [46]) + Dirent(1, [46, 46]) + Dirent(2, [97]) + Repeat(0, BSIZE - 48)
  }

  function Sector(p: nat): Block {
    if p == 2 then Dinodes([InodeWith(0), InodeWith(1), InodeWith(2), EMPTY_INODE])
    else if 53 <= p < 61 then Bits(seq(BPB, (i: nat) => InUse((p - 53) * BPB + i)))
    else if p == 62 then Data(Root())
    else Zero
  }

  ghost predicate Scattered(d: Disk, inodes: seq<Inode>, o: Owner) {
    && |d| == SB.size && (forall p: nat {:trigger d[p]} :: p < SB.size ==> d[p] == Sector(p))
    && |inodes| == 3 && (forall k: nat {:trigger inodes[k]} :: k < 3 ==> inodes[k] == InodeWith(k))
    && (forall b: nat {:trigger b in o} :: b in o <==> 62 <= b && InUse(b))
    && (forall b: nat {:trigger o[b]} :: 62 <= b && InUse(b) ==> o[b] == OwnerOf(b))
  }

  lemma SetUp() returns (d: Disk, inodes: seq<Inode>, o: Owner)
    ensures Scattered(d, inodes, o)
  {
    d := seq(SB.size, (p: nat) => Sector(p));
    inodes := seq(3, (k: nat) => InodeWith(k));
    o := map b: nat | 62 <= b < SB.size && InUse(b) :: OwnerOf(b);
  }

  lemma PtrOf(d: Disk, inodes: seq<Inode>, o: Owner, k: nat, s: Slot)
    requires Scattered(d, inodes, o) && k < 3 && Legal(s)
    ensures Ptr(d, inodes[k], s) == Place(k, s)
  {
    assert inodes[k].addrs[NDIRECT] == 0;
  }

  lemma BitOf(d: Disk, inodes: seq<Inode>, o: Owner, b: nat)
    requires Scattered(d, inodes, o) && b < SB.size
    ensures Used(SB, d, b) <==> InUse(b)
  {
    var p := BitBlock(SB, b);
    assert p == b / BPB + 53 && d[p] == Sector(p);
    assert (p - 53) * BPB + b % BPB == b;
  }

  lemma FarIs(i: nat)
    requires i < BLOCKS
    ensures InUse(Far(i)) && OwnerOf(Far(i)) == (FILE, Direct(i)) && 62 < Far(i) < LAYOUT.start
    ensures BitBlock(SB, Far(i)) == 53 + i
  {
  }

  lemma TakenIs(b: nat)
    requires 62 < b && InUse(b)
    ensures b / BPB < BLOCKS && b == Far(b / BPB)
  {
  }

  /** A block number in a slot is owned by it. */
  lemma PlaceOwned(d: Disk, inodes: seq<Inode>, o: Owner, k: nat, s: Slot)
    requires Scattered(d, inodes, o) && k < 3 && Legal(s) && Place(k, s) != 0
    ensures Place(k, s) in o && o[Place(k, s)] == (k, s)
  {
    if k == FILE {
      FarIs(s.i);
    }
  }

  lemma OwnsNow(d: Disk, inodes: seq<Inode>, o: Owner, b: nat)
    requires Scattered(d, inodes, o) && b in o
    ensures OwnsAt(SB, d, inodes, o, b) && d[b] == (if b == 62 then Data(Root()) else Zero) && o[b].1.Direct?
    ensures b < LAYOUT.start
  {
    if b != 62 {
      TakenIs(b);
      FarIs(b / BPB);
    }
    PtrOf(d, inodes, o, OwnerOf(b).0, OwnerOf(b).1);
    assert d[b] == Sector(b);
  }

  lemma PtrsNow(d: Disk, inodes: seq<Inode>, o: Owner)
    requires Scattered(d, inodes, o)
    ensures PtrsOwned(d, inodes, o)
  {
    forall k, s | 0 <= k < |inodes| && Legal(s) && Ptr(d, inodes[k], s) != 0
      ensures Ptr(d, inodes[k], s) in o && o[Ptr(d, inodes[k], s)] == (k, s)
    {
      PtrOf(d, inodes, o, k, s);
      PlaceOwned(d, inodes, o, k, s);
    }
  }

  lemma BitsNow(d: Disk, inodes: seq<Inode>, o: Owner)
    requires Scattered(d, inodes, o)
    ensures BitsAgree(SB, d, o)
  {
    forall b | 0 <= b < SB.size ensures Used(SB, d, b) <==> b < DataStart(SB) || b in o {
      BitOf(d, inodes, o, b);
      assert DataStart(SB) == 62;
    }
  }

  lemma SoundNow(d: Disk, inodes: seq<Inode>, o: Owner)
    requires Scattered(d, inodes, o)
    ensures Sound(SB, d, inodes, o)
  {
    PtrsNow(d, inodes, o);
    BitsNow(d, inodes, o);
    forall b | b in o ensures OwnsAt(SB, d, inodes, o, b) {
      OwnsNow(d, inodes, o, b);
    }
    TypedNow(d, inodes, o);
  }

  lemma TypedNow(d: Disk, inodes: seq<Inode>, o: Owner)
    requires Scattered(d, inodes, o)
    ensures Typed(d, o)
  {
    forall b | b in o ensures At(d, b).Zero? || (!HoldsPointers(o[b].1) && At(d, b).Data?) {
      OwnsNow(d, inodes, o, b);
    }
  }

  function Contents(): (cs: seq<seq<Byte>>)
    ensures |cs| == 3 && cs[0] == [] && cs[1] == Root() && cs[2] == Repeat(0, BLOCKS * BSIZE)
  {
    [[], Root(), Repeat(0, BLOCKS * BSIZE)]
  }

  lemma FileHolds(d: Disk, inodes: seq<Inode>, o: Owner)
    requires Scattered(d, inodes, o)
    ensures Holds(d, inodes[FILE], Repeat(0, BLOCKS * BSIZE))
  {
    forall bn | 0 <= bn < BLOCKS ensures Ptr(d, inodes[FILE], DataSlot(bn)) == Far(bn) && At(d, Far(bn)) == Zero {
      PtrOf(d, inodes, o, FILE, DataSlot(bn));
      FarIs(bn);
      OwnsNow(d, inodes, o, Far(bn));
    }
    forall n | 0 <= n < BLOCKS * BSIZE ensures ByteAt(d, inodes[FILE], n) == 0 {
      assert 0 <= n / BSIZE < BLOCKS;
    }
  }

  lemma RootHolds(d: Disk, inodes: seq<Inode>, o: Owner)
    requires Scattered(d, inodes, o)
    ensures Holds(d, inodes[1], Root())
  {
    PtrOf(d, inodes, o, 1, DataSlot(0));
    assert d[62] == Sector(62);
    forall n | 0 <= n < BSIZE ensures ByteAt(d, inodes[1], n) == Root()[n] {
      assert n / BSIZE == 0;
    }
  }

  lemma RefinesNow(d: Disk, inodes: seq<Inode>, o: Owner)
    requires Scattered(d, inodes, o)
    ensures Refines(d, inodes, Contents())
  {
    FileHolds(d, inodes, o);
    RootHolds(d, inodes, o);
  }

  lemma SevenBits(d: Disk, inodes: seq<Inode>, o: Owner)
    requires Scattered(d, inodes, o)
    ensures BitsOwned(SB, o, FILE) == Interval(53, BLOCKS)
  {
    forall x | x in Interval(53, BLOCKS) ensures x in BitsOwned(SB, o, FILE) {
      FarIs(x - 53);
      assert Far(x - 53) in o;
    }
    forall b | b in o && o[b].0 == FILE ensures BitBlock(SB, b) in Interval(53, BLOCKS) {
      BitIn(d, inodes, o, b);
    }
  }

  lemma BitIn(d: Disk, inodes: seq<Inode>, o: Owner, b: nat)
    requires Scattered(d, inodes, o) && b in o && o[b].0 == FILE
    ensures BitBlock(SB, b) in Interval(53, BLOCKS)
  {
    TakenIs(b);
    FarIs(b / BPB);
  }

  function Gone(o: Owner): Drop {
    LastDrop(NBUF, SB, o, UnlinkStart(62, 1, None), FILE)
  }

  lemma StartIs(o: Owner)
    ensures Gone(o).start == {62, 2}
  {
    assert UnlinkStart(62, 1, None)[0] == 62;
    assert Elements(UnlinkStart(62, 1, None)) == {62};
  }

  /** The entry's sector, the inode's and seven with bits. */
  lemma NineSectors(d: Disk, inodes: seq<Inode>, o: Owner)
    requires Scattered(d, inodes, o)
    ensures |Gone(o).start + BitsOwned(SB, o, FILE) + {InodeBlock(FILE)}| == 9
  {
    SevenBits(d, inodes, o);
    StartIs(o);
    Nine(Interval(53, BLOCKS));
  }

  lemma Nine(bits: set<nat>)
    requires |bits| == 7 && 62 !in bits && 2 !in bits
    ensures |{62, 2} + bits + {2}| == 9
  {
    assert {62, 2} + bits + {2} == bits + {62} + {2};
  }

  /** No pointer block is ever held, and so there is a buffer at each bfree. */
  lemma BuffersEnough(d: Disk, inodes: seq<Inode>, o: Owner)
    requires Scattered(d, inodes, o)
    ensures RoomForAll(Gone(o))
  {
    CountsAre(d, inodes, o);
    forall b | b in o && o[b].0 == FILE ensures RoomAt(Gone(o), b) {
      OwnsNow(d, inodes, o, b);
      RoomHere(Gone(o), b);
    }
  }

  lemma CountsAre(d: Disk, inodes: seq<Inode>, o: Owner)
    requires Scattered(d, inodes, o)
    ensures |Gone(o).start| == 2 && |BitsOwned(SB, o, FILE)| == 7
  {
    SevenBits(d, inodes, o);
    StartIs(o);
  }

  lemma RoomHere(c: Drop, b: nat)
    requires b in c.o && c.o[b].1.Direct? && |c.start| == 2 && |BitsOwned(c.sb, c.o, c.k)| == 7 && c.nbuf == NBUF
    ensures RoomAt(c, b)
  {
    BelowFew(c, Rank(c.o[b].1) + 1);
  }

  lemma FullHere(d: Disk, inodes: seq<Inode>, o: Owner, g: Ending)
    requires Scattered(d, inodes, o) && DropEnding(LAYOUT, Gone(o), g)
    ensures g == Panics(FullLog)
  {
    CountsAre(d, inodes, o);
    NineSectors(d, inodes, o);
    BuffersEnough(d, inodes, o);
  }

  /** The counterexample: a sound disk that the log can be used on, and the unlink of the third entry of
      its root directory, which is the only link of a file that nobody has open. */
  lemma CannotUnlink() returns (d: Disk, inodes: seq<Inode>, o: Owner)
    ensures Sound(SB, d, inodes, o) && Refines(d, inodes, Contents()) && InodesStored(d, inodes)
    ensures Log.Clean(LAYOUT, d) && BelowLog(o, LAYOUT) && DataStart(SB) <= LAYOUT.start
    ensures |inodes| == 3 && inodes[FILE].meta.nlink == 1 && Contents()[1][32..48] == Dirent(FILE, [97])
    ensures var ops := UnlinkOps(1, 32, None, FILE, inodes[FILE].meta.(nlink := 0), true);
            var e := AfterOps(SB, ImageOf(d, inodes), ops, |ops|);
            e.ok && EndingOf(LAYOUT, NBUF, e) == Panics(FullLog)
  {
    d, inodes, o := SetUp();
    SoundNow(d, inodes, o);
    RefinesNow(d, inodes, o);
    forall b | b in o ensures b < LAYOUT.start {
      OwnsNow(d, inodes, o, b);
    }
    assert d[LAYOUT.start] == Sector(LAYOUT.start);
    UnlinkPanics(d, inodes, o);
  }

  lemma UnlinkPanics(d: Disk, inodes: seq<Inode>, o: Owner)
    requires Scattered(d, inodes, o) && Sound(SB, d, inodes, o) && BelowLog(o, LAYOUT)
    ensures var ops := UnlinkOps(1, 32, None, FILE, inodes[FILE].meta.(nlink := 0), true);
            var e := AfterOps(SB, ImageOf(d, inodes), ops, |ops|);
            e.ok && EndingOf(LAYOUT, NBUF, e) == Panics(FullLog)
  {
    PtrOf(d, inodes, o, 1, DataSlot(0));
    var meta := inodes[FILE].meta.(nlink := 0);
    var ops := UnlinkOps(1, 32, None, FILE, meta, true);
    UnlinkEnds(LAYOUT, NBUF, SB, d, inodes, o, 1, 32, None, FILE, meta, true);
    FullHere(d, inodes, o, EndingOf(LAYOUT, NBUF, AfterOps(SB, ImageOf(d, inodes), ops, |ops|)));
  }
}

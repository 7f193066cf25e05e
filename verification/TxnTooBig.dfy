/** A transaction that does not fit: on the disk that mkfs lays out, one chunk of filewrite has
    nine sectors in the log, all that it holds, before its last log_writes, and the next of these panics
    although its sector is one of the nine.

    The root directory has one block, and then two files have been written one after the other and
    fill the disk up to two blocks before the first block whose bit is in the second sector of the
    free map.  The next chunk of the first file goes through its last two single-indirect entries and
    the first double-indirect one. */
module TxnTooBig {
  import opened Blocks
  import opened Counting
  import opened Files
  import opened FileBytes
  import opened FileSteps
  import opened FileLog
  import opened Buffers
  import opened FileTrail
  import opened Sealed
  import opened DiskInodes
  import opened TxnBound
  import Log

  /** mkfs: 32768 blocks, 200 inodes, a log of 10. */
  const SB := Super(32768, 200)
  const LAYOUT := Log.Layout(32758, 10)

  // ----- Files written in order -----

  /** The slot that gets the e-th block of a file that is written from its start. */
  function SlotAt(e: nat): Slot {
    if e < 12 then Direct(e)
    else if e == 12 then Single
    else if e < 141 then SingleEntry(e - 13)
    else if e == 141 then Double
    else if (e - 142) % 129 == 0 then DoubleEntry((e - 142) / 129)
    else Leaf((e - 142) / 129, (e - 142) % 129 - 1)
  }

  function PlaceOf(s: Slot): nat {
    match s
    case Direct(i) => i
    case Single => 12
    case SingleEntry(i) => 13 + i
    case Double => 141
    case DoubleEntry(i) => 142 + 129 * i
    case Leaf(i, j) => 142 + 129 * i + 1 + j
  }

  lemma PlaceSlot(s: Slot)
    requires Legal(s)
    ensures SlotAt(PlaceOf(s)) == s
  {
    match s
    case Leaf(i, j) =>
      assert (129 * i + 1 + j) / 129 == i && (129 * i + 1 + j) % 129 == 1 + j;
    case DoubleEntry(i) =>
      assert (129 * i) / 129 == i && (129 * i) % 129 == 0;
    case _ =>
  }

  /** How many blocks the largest file takes. */
  const TREE := 142 + 129 * NINDIRECT

  lemma SlotPlace(e: nat)
    requires e < TREE
    ensures PlaceOf(SlotAt(e)) == e && Legal(SlotAt(e))
  {
  }

  const FULL := 4094

  /** The inode number of the file that is written. */
  const FILE := 2

  /** Inode 0 is not used and inode 1 is the root directory, with block 62.  File 2 has the blocks 63
      to 201, file 3 the blocks from 202 on. */
  function BaseOf(k: nat): nat {
    if k <= 1 then 62 else if k == FILE then 63 else 202
  }

  function LenOf(k: nat): nat {
    if k <= 1 then k else if k == FILE then 139 else FULL - 202
  }

  function Number(k: nat, s: Slot): nat {
    if PlaceOf(s) < LenOf(k) then BaseOf(k) + PlaceOf(s) else 0
  }

  function OwnerAt(b: nat): (nat, Slot) {
    if b < 63 then (1, Direct(0)) else if b < 202 then (FILE, SlotAt(b - 63)) else (3, SlotAt(b - 202))
  }

  function ChildSlot(s: Slot, i: nat): Slot {
    match s
    case Single => SingleEntry(i)
    case Double => DoubleEntry(i)
    case DoubleEntry(j) => Leaf(j, i)
    case _ => s
  }

  function SizeOf(k: nat): nat {
    if k <= 1 then k * BSIZE else if k == FILE then 137 * BSIZE + 100 else 3860 * BSIZE
  }

  function MetaOf(k: nat): Meta {
    if k == 0 then NO_META else Meta(if k == 1 then 1 else 2, 0, 0, 1, "")
  }

  function Dirent(inum: Byte, name: seq<Byte>): (r: seq<Byte>)
    requires |name| <= 14
    ensures |r| == 16
  {
    [inum, 0] + name + Repeat(0, 14 - |name|)
  }

  /** The root directory: ".", "..", and the files "a" and "b". */
  function RootBytes(): (r: seq<Byte>)
    ensures |r| == BSIZE
  {
    Dirent(1, [46]) + Dirent(1, [46, 46]) + Dirent(2, [97]) + Dirent(3, [98]) + Repeat(0, BSIZE - 64)
  }

  function BytesAt(k: nat): (r: seq<Byte>)
    ensures |r| == SizeOf(k)
  {
    if k == 1 then RootBytes() else Repeat(0, SizeOf(k))
  }

  function InodeOf(k: nat): Inode {
    Inode(seq(NDIRECT + 1, (i: nat) => if i < NDIRECT then Number(k, Direct(i)) else Number(k, Single)),
          Number(k, Double), SizeOf(k), MetaOf(k))
  }

  function BlockAt(p: nat): Block {
    if p == 2 then Dinodes([InodeOf(0), InodeOf(1), InodeOf(2), InodeOf(3)])
    else if p == 62 then Data(RootBytes())
    else if p == 53 then Bits(seq(BPB, i => i < FULL))
    else if 62 <= p < FULL && HoldsPointers(OwnerAt(p).1) then
      Words(seq(NINDIRECT, (i: nat) => Number(OwnerAt(p).0, ChildSlot(OwnerAt(p).1, i))))
    else Zero
  }

  /** The disk, the inodes and the owners of that state. */
  ghost predicate Laid(d: Disk, inodes: seq<Inode>, o: Owner) {
    && |d| == SB.size && (forall p: nat {:trigger d[p]} :: p < SB.size ==> d[p] == BlockAt(p))
    && |inodes| == 4 && (forall k: nat {:trigger inodes[k]} :: k < 4 ==> inodes[k] == InodeOf(k))
    && (forall b: nat {:trigger b in o} :: b in o <==> 62 <= b < FULL)
    && (forall b: nat {:trigger o[b]} :: 62 <= b < FULL ==> o[b] == OwnerAt(b))
  }

  lemma LaidOut() returns (d: Disk, inodes: seq<Inode>, o: Owner)
    ensures Laid(d, inodes, o)
  {
    d := seq(SB.size, (p: nat) => BlockAt(p));
    inodes := seq(4, (k: nat) => InodeOf(k));
    o := map b: nat | 62 <= b < FULL :: OwnerAt(b);
  }

  // ----- The state is sound -----

  lemma WordAt(p: nat, i: nat)
    requires 62 <= p < FULL && HoldsPointers(OwnerAt(p).1) && i < NINDIRECT
    ensures Word(BlockAt(p), i) == Number(OwnerAt(p).0, ChildSlot(OwnerAt(p).1, i))
  {
  }

  lemma InodeIs(k: nat)
    requires k < 4
    ensures forall i: nat :: i < NDIRECT ==> Addr(InodeOf(k), i) == Number(k, Direct(i))
    ensures Addr(InodeOf(k), NDIRECT) == Number(k, Single)
    ensures InodeOf(k).indirect2 == Number(k, Double) && |InodeOf(k).addrs| == NDIRECT + 1
  {
    assert InodeOf(k).addrs[NDIRECT] == Number(k, Single);
  }

  lemma OwnerOfNumber(k: nat, s: Slot)
    requires k < 4 && Legal(s) && Number(k, s) != 0
    ensures 62 <= Number(k, s) < FULL && OwnerAt(Number(k, s)) == (k, s)
  {
    PlaceSlot(s);
  }

  lemma PtrIs(d: Disk, inodes: seq<Inode>, o: Owner, k: nat, s: Slot)
    requires Laid(d, inodes, o) && k < 4 && Legal(s)
    ensures Ptr(d, inodes[k], s) == Number(k, s)
  {
    InodeIs(k);
    match s
    case SingleEntry(i) =>
      EntryIs(d, inodes, o, k, Single, i);
    case DoubleEntry(i) =>
      EntryIs(d, inodes, o, k, Double, i);
    case Leaf(i, j) =>
      EntryIs(d, inodes, o, k, Double, i);
      EntryIs(d, inodes, o, k, DoubleEntry(i), j);
    case _ =>
  }

  /** The words of a pointer block are its children's numbers. */
  lemma EntryIs(d: Disk, inodes: seq<Inode>, o: Owner, k: nat, s: Slot, i: nat)
    requires Laid(d, inodes, o) && k < 4 && Legal(s) && HoldsPointers(s) && i < NINDIRECT
    ensures Entry(d, Number(k, s), i) == Number(k, ChildSlot(s, i))
  {
    if Number(k, s) != 0 {
      OwnerOfNumber(k, s);
      WordAt(Number(k, s), i);
    }
  }

  lemma BitsNow(d: Disk, inodes: seq<Inode>, o: Owner, b: nat)
    requires Laid(d, inodes, o) && b < SB.size
    ensures Used(SB, d, b) <==> b < FULL
  {
    assert BitBlock(SB, b) == b / BPB + 53;
    assert d[b / BPB + 53] == BlockAt(b / BPB + 53);
  }

  lemma OwnsNow(d: Disk, inodes: seq<Inode>, o: Owner, b: nat)
    requires Laid(d, inodes, o) && b in o
    ensures OwnsAt(SB, d, inodes, o, b)
  {
    var k := OwnerAt(b).0;
    SlotPlace(b - BaseOf(k));
    PtrIs(d, inodes, o, k, OwnerAt(b).1);
  }

  ghost predicate PtrsAre(d: Disk, inodes: seq<Inode>) {
    |inodes| == 4 && forall k, s {:trigger Ptr(d, inodes[k], s)} ::
                       0 <= k < 4 && Legal(s) ==> Ptr(d, inodes[k], s) == Number(k, s)
  }

  lemma PtrsAreNow(d: Disk, inodes: seq<Inode>, o: Owner)
    requires Laid(d, inodes, o)
    ensures PtrsAre(d, inodes)
  {
    forall k, s | 0 <= k < 4 && Legal(s) ensures Ptr(d, inodes[k], s) == Number(k, s) {
      PtrIs(d, inodes, o, k, s);
    }
  }

  lemma PtrsNow(d: Disk, inodes: seq<Inode>, o: Owner)
    requires PtrsAre(d, inodes)
    requires forall b: nat {:trigger b in o} :: 62 <= b < FULL ==> b in o && o[b] == OwnerAt(b)
    ensures PtrsOwned(d, inodes, o)
  {
    forall k, s | 0 <= k < 4 && Legal(s) && Number(k, s) != 0 ensures Number(k, s) in o && o[Number(k, s)] == (k, s) {
      OwnerOfNumber(k, s);
    }
  }

  lemma TypedNow(d: Disk, inodes: seq<Inode>, o: Owner)
    requires Laid(d, inodes, o)
    ensures Typed(d, o)
  {
  }

  lemma SoundNow(d: Disk, inodes: seq<Inode>, o: Owner)
    requires Laid(d, inodes, o)
    ensures Sound(SB, d, inodes, o) && UsedBelow(SB, d, FULL)
  {
    InodeIs(0);
    InodeIs(1);
    InodeIs(2);
    InodeIs(3);
    PtrsAreNow(d, inodes, o);
    PtrsNow(d, inodes, o);
    TypedNow(d, inodes, o);
    forall b | b in o ensures OwnsAt(SB, d, inodes, o, b) {
      OwnsNow(d, inodes, o, b);
    }
    forall b | 0 <= b < SB.size ensures Used(SB, d, b) <==> b < FULL {
      BitsNow(d, inodes, o, b);
    }
  }

  /** Every block of the files is there, and no other. */
  lemma FilledNow(d: Disk, inodes: seq<Inode>, o: Owner, k: nat, bn: nat)
    requires Laid(d, inodes, o) && k < 4 && bn * BSIZE < SizeOf(k)
    ensures var s := DataSlot(bn); var p := Ptr(d, inodes[k], s);
            p != 0 && p < SB.size && d[p] == if k == 1 then Data(RootBytes()) else Zero
  {
    var s := DataSlot(bn);
    DataSlotFacts(bn);
    PtrIs(d, inodes, o, k, s);
    OwnerOfNumber(k, s);
    assert d[Number(k, s)] == BlockAt(Number(k, s));
  }

  lemma HoldsNow(d: Disk, inodes: seq<Inode>, o: Owner, k: nat)
    requires Laid(d, inodes, o) && k < 4
    ensures Holds(d, inodes[k], BytesAt(k))
  {
    forall bn | 0 <= bn && bn * BSIZE < SizeOf(k) ensures Ptr(d, inodes[k], DataSlot(bn)) != 0 {
      FilledNow(d, inodes, o, k, bn);
    }
    forall n | 0 <= n < SizeOf(k) ensures ByteAt(d, inodes[k], n) == BytesAt(k)[n] {
      assert n / BSIZE * BSIZE <= n;
      FilledNow(d, inodes, o, k, n / BSIZE);
      assert k == 1 ==> n % BSIZE == n;
    }
  }

  function ContentsNow(): (cs: seq<seq<Byte>>)
    ensures |cs| == 4 && forall k :: 0 <= k < 4 ==> cs[k] == BytesAt(k)
  {
    seq(4, (k: nat) => BytesAt(k))
  }

  lemma RefinesNow(d: Disk, inodes: seq<Inode>, o: Owner)
    requires Laid(d, inodes, o)
    ensures Refines(d, inodes, ContentsNow())
  {
    forall k: nat | k < 4 ensures Holds(d, inodes[k], BytesAt(k)) {
      HoldsNow(d, inodes, o, k);
    }
  }

  // ----- The chunk -----

  /** A sound image with the blocks below `n` in use, where the file has these slots more. */
  ghost predicate Stage(e: Image, o: Owner, n: nat, more: map<Slot, nat>) {
    && e.ok && Sound(SB, e.d, e.inodes, o) && UsedBelow(SB, e.d, n)
    && |e.inodes| == 4 && e.inodes[FILE].size == SizeOf(FILE)
    && forall s {:trigger Ptr(e.d, e.inodes[FILE], s)} ::
         Legal(s) ==> Ptr(e.d, e.inodes[FILE], s) == if s in more then more[s] else Number(FILE, s)
  }

  ghost function StageOf(e: Image, o: Owner, n: nat, more: map<Slot, nat>): Seal {
    if forall z: nat {:trigger Open(z)} :: Open(z) ==> Stage(e, o, n, more) then Known else Unknown
  }

  ghost function IsGrant(e: Image, s: Slot, e': Image): Seal {
    if forall z: nat {:trigger Open(z)} :: Open(z) ==> e' == Grant(SB, e, FILE, s) then Known else Unknown
  }

  ghost function IsMap(e: Image, bn: nat, e': Image): Seal {
    if forall z: nat {:trigger Open(z)} :: Open(z) ==> e' == MapBlock(SB, e, FILE, bn) then Known else Unknown
  }

  ghost function IsPut(e: Image, off: nat, part: seq<Byte>, e': Image): Seal {
    if forall z: nat {:trigger Open(z)} :: Open(z) ==> e' == PutBytes(SB, e, FILE, off, part) then Known else Unknown
  }

  ghost function IsTurn(e: Image, off: nat, part: seq<Byte>, e': Image): Seal {
    if forall z: nat {:trigger Open(z)} ::
         Open(z) ==> e' == PutBytes(SB, MapBlock(SB, e, FILE, off / BSIZE), FILE, off, part)
    then Known else Unknown
  }

  lemma StagePtr(e: Image, o: Owner, n: nat, more: map<Slot, nat>, s: Slot)
    requires StageOf(e, o, n, more) == Known && Legal(s)
    ensures e.ok && |e.inodes| == 4 && Ptr(e.d, e.inodes[FILE], s) == if s in more then more[s] else Number(FILE, s)
  {
    assert Open(0);
  }

  lemma Take(e: Image, o: Owner, n: nat, more: map<Slot, nat>, s: Slot, q: nat) returns (e': Image)
    requires StageOf(e, o, n, more) == Known && n < SB.size && Legal(s) && s !in more && Number(FILE, s) == 0
    requires var h := HomeSlot(s); !InInode(s) ==> (if h in more then more[h] else Number(FILE, h)) == q != 0
    ensures IsGrant(e, s, e') == Known && StageOf(e', o[n := (FILE, s)], n + 1, more[s := n]) == Known
    ensures SectorList(e'.log) == SectorList(e.log) + AllocLog(SB, q, s, n)
  {
    assert Open(0);
    assert Ptr(e.d, e.inodes[FILE], s) == 0 && (!InInode(s) ==> Ptr(e.d, e.inodes[FILE], HomeSlot(s)) == q);
    e' := Grant(SB, e, FILE, s);
    GrantIs(SB, e, o, FILE, s, n);
  }

  lemma Put(e: Image, o: Owner, n: nat, more: map<Slot, nat>, off: nat, part: seq<Byte>, a: nat) returns (e': Image)
    requires StageOf(e, o, n, more) == Known && off % BSIZE + |part| <= BSIZE && off / BSIZE < MAXFILE
    requires var s := DataSlot(off / BSIZE); (if s in more then more[s] else Number(FILE, s)) == a != 0
    ensures IsPut(e, off, part, e') == Known && StageOf(e', o, n, more) == Known
    ensures SectorList(e'.log) == SectorList(e.log) + [a]
  {
    assert Open(0);
    DataSlotFacts(off / BSIZE);
    assert Ptr(e.d, e.inodes[FILE], DataSlot(off / BSIZE)) == a;
    e' := PutBytes(SB, e, FILE, off, part);
    PutIs(SB, e, o, FILE, off, part);
  }

  /** bmap when nothing is missing, when a single-indirect entry is, and when a whole path is. */
  lemma MapThere(e: Image, o: Owner, n: nat, more: map<Slot, nat>, i: nat) returns (e': Image)
    requires StageOf(e, o, n, more) == Known && i < 126 && Single !in more && SingleEntry(i) !in more
    ensures IsMap(e, NDIRECT + i, e') == Known && StageOf(e', o, n, more) == Known && e'.log == e.log
  {
    StagePtr(e, o, n, more, Single);
    StagePtr(e, o, n, more, SingleEntry(i));
    e' := MapBlock(SB, e, FILE, NDIRECT + i);
    assert e' == e.(trail := e'.trail);
    SameStage(e, e', o, n, more);
  }

  lemma SameStage(e: Image, e': Image, o: Owner, n: nat, more: map<Slot, nat>)
    requires StageOf(e, o, n, more) == Known && e' == e.(trail := e'.trail)
    ensures StageOf(e', o, n, more) == Known
  {
    assert Open(0);
  }

  lemma MapSingle(e: Image, o: Owner, n: nat, more: map<Slot, nat>, i: nat, e1: Image)
    requires StageOf(e, o, n, more) == Known && Single !in more && i < NINDIRECT
    requires IsGrant(e, SingleEntry(i), e1) == Known
    ensures IsMap(e, NDIRECT + i, e1) == Known
  {
    StagePtr(e, o, n, more, Single);
    assert Open(0);
  }

  lemma MapDouble(e: Image, e2: Image, e3: Image)
    requires AreGranted(e, e2) == Known
    requires IsGrant(e2, Leaf(0, 0), e3) == Known
    ensures IsMap(e, 140, e3) == Known
  {
    assert Open(0);
    assert DataSlot(140) == Leaf(0, 0);
  }

  lemma TurnOf(e: Image, e1: Image, e2: Image, off: nat, part: seq<Byte>)
    requires IsMap(e, off / BSIZE, e1) == Known && IsPut(e1, off, part, e2) == Known
    ensures IsTurn(e, off, part, e2) == Known
  {
    assert Open(0);
  }

  const OFF := 137 * BSIZE + 100

  /** Block 137 is there. */
  lemma Block137(e: Image, o: Owner, part: seq<Byte>) returns (e': Image)
    requires StageOf(e, o, FULL, map[]) == Known && |part| <= 412
    ensures IsTurn(e, OFF, part, e') == Known && StageOf(e', o, FULL, map[]) == Known
    ensures SectorList(e'.log) == SectorList(e.log) + [201]
  {
    var e1 := MapThere(e, o, FULL, map[], 125);
    e' := Put(e1, o, FULL, map[], OFF, part, 201);
    TurnOf(e, e1, e', OFF, part);
  }

  /** A block in the single-indirect block that is not there yet. */
  lemma BlockSingle(e: Image, o: Owner, n: nat, more: map<Slot, nat>, i: nat, off: nat, part: seq<Byte>)
    returns (e': Image, o': Owner)
    requires StageOf(e, o, n, more) == Known && 0 < n < SB.size && 126 <= i < NINDIRECT && off / BSIZE == NDIRECT + i
    requires Single !in more && SingleEntry(i) !in more && off % BSIZE + |part| <= BSIZE
    ensures IsTurn(e, off, part, e') == Known && StageOf(e', o', n + 1, more[SingleEntry(i) := n]) == Known
    ensures SectorList(e'.log) == SectorList(e.log) + [BitBlock(SB, n), n, 75, n]
  {
    var e1 := Take(e, o, n, more, SingleEntry(i), 75);
    MapSingle(e, o, n, more, i, e1);
    o' := o[n := (FILE, SingleEntry(i))];
    e' := Put(e1, o', n + 1, more[SingleEntry(i) := n], off, part, n);
    TurnOf(e, e1, e', off, part);
  }

  // ----- Where it stops -----

  /** The run with NBUF buffers, as one fact. */
  ghost function FairOf(e: Image): Seal {
    if forall z: nat {:trigger Open(z)} :: Open(z) ==> Fair(Fit(LAYOUT, NBUF), e) then Known else Unknown
  }

  lemma FairTurn(e: Image, e': Image, off: nat, part: seq<Byte>)
    requires FairOf(e) == Known && IsTurn(e, off, part, e') == Known
    ensures FairOf(e') == Known
  {
    assert Open(0);
    MapFair(SB, Fit(LAYOUT, NBUF), e, FILE, off / BSIZE);
    PutFair(SB, Fit(LAYOUT, NBUF), MapBlock(SB, e, FILE, off / BSIZE), FILE, off, part);
  }

  lemma FairGrant(e: Image, e': Image, s: Slot)
    requires FairOf(e) == Known && IsGrant(e, s, e') == Known
    ensures FairOf(e') == Known
  {
    assert Open(0);
    GrantFair(SB, Fit(LAYOUT, NBUF), e, FILE, s);
  }

  /** The panic of log_write has come. */
  predicate LogFullNow(e: Image) {
    RunImage(LAYOUT, NBUF, e).Stuck? && RunImage(LAYOUT, NBUF, e).why.LogFull?
  }

  ghost function StopOf(e: Image): Seal {
    if forall z: nat {:trigger Open(z)} :: Open(z) ==> LogFullNow(e) then Known else Unknown
  }

  /** The log takes these, and is full then. */
  ghost function BrimOf(xs: seq<nat>): Seal {
    if forall z: nat {:trigger Open(z)} :: Open(z) ==> LogOk(LAYOUT, xs) && |Elements(xs)| >= 9 then Known else Unknown
  }

  /** It comes when the second-level block is logged after its first entry has been filled. */
  lemma StopsHere(e: Image, e': Image, o: Owner, n: nat, more: map<Slot, nat>, q: nat)
    requires StageOf(e, o, n, more) == Known && FairOf(e) == Known && IsGrant(e, Leaf(0, 0), e') == Known
    requires Leaf(0, 0) !in more && DoubleEntry(0) in more && more[DoubleEntry(0)] == q != 0 && n < SB.size
    requires q in SectorList(e.log) && BrimOf(SectorList(e.log) + [BitBlock(SB, n)] + [n]) == Known
    ensures StopOf(e') == Known
  {
    StageSize(e, o, n, more);
    TrailHere(e, e', o, n, more, q);
    StopsTrail(e, e', n, q);
  }

  lemma TrailHere(e: Image, e': Image, o: Owner, n: nat, more: map<Slot, nat>, q: nat)
    requires StageOf(e, o, n, more) == Known && IsGrant(e, Leaf(0, 0), e') == Known
    requires Leaf(0, 0) !in more && DoubleEntry(0) in more && more[DoubleEntry(0)] == q != 0 && n < SB.size
    ensures e'.trail == Then(e.trail, Under(q, BallocOn(Start, SB, n), true))
  {
    assert Open(0);
    assert Ptr(e.d, e.inodes[FILE], Leaf(0, 0)) == 0 && Ptr(e.d, e.inodes[FILE], DoubleEntry(0)) == q;
    LowestIs(SB, e.d, 0, n);
    GrantIs(SB, e, o, FILE, Leaf(0, 0), n);
  }

  lemma StopsTrail(e: Image, e': Image, n: nat, q: nat)
    requires FairOf(e) == Known && q in SectorList(e.log) && n < SB.size && e.ok
    requires BrimOf(SectorList(e.log) + [BitBlock(SB, n)] + [n]) == Known
    requires e'.trail == Then(e.trail, Under(q, BallocOn(Start, SB, n), true))
    ensures StopOf(e') == Known
  {
    assert Open(0);
    TakesIff(LAYOUT, SectorList(e.log) + [BitBlock(SB, n)] + [n]);
    FullUnder(LAYOUT, NBUF, e.trail, SB, q, n);
  }

  lemma StoppedPut(e: Image, e': Image, off: nat, part: seq<Byte>)
    requires StopOf(e) == Known && IsPut(e, off, part, e') == Known
    ensures StopOf(e') == Known
  {
    assert Open(0);
  }

  /** The first block in the double-indirect tree. */
  lemma BlockDouble(e: Image, o: Owner, n: nat, more: map<Slot, nat>, off: nat, part: seq<Byte>)
    returns (e': Image, o': Owner, more': map<Slot, nat>)
    requires StageOf(e, o, n, more) == Known && 0 < n < SB.size - 2 && off / BSIZE == 140
    requires off % BSIZE + |part| <= BSIZE
    requires Double !in more && DoubleEntry(0) !in more && Leaf(0, 0) !in more && FairOf(e) == Known
    requires BrimOf(DoubleWrites(SectorList(e.log), n) + [BitBlock(SB, n + 2)] + [n + 2]) == Known
    ensures IsTurn(e, off, part, e') == Known && StageOf(e', o', n + 3, more') == Known && StopOf(e') == Known
  {
    var e2 := TakeDouble(e, o, n, more);
    var o2 := o[n := (FILE, Double)][n + 1 := (FILE, DoubleEntry(0))];
    var more2 := more[Double := n][DoubleEntry(0) := n + 1];
    var e3 := Take(e2, o2, n + 2, more2, Leaf(0, 0), n + 1);
    StopsHere(e2, e3, o2, n + 2, more2, n + 1);
    MapDouble(e, e2, e3);
    o', more' := o2[n + 2 := (FILE, Leaf(0, 0))], more2[Leaf(0, 0) := n + 2];
    e' := Put(e3, o', n + 3, more', off, part, n + 2);
    StoppedPut(e3, e', off, part);
    TurnOf(e, e3, e', off, part);
  }

  /** The log_writes after the first two levels. */
  function DoubleWrites(xs: seq<nat>, n: nat): seq<nat> {
    xs + [BitBlock(SB, n), n] + [BitBlock(SB, n + 1), n + 1, n]
  }

  /** Both levels. */
  ghost function AreGranted(e: Image, e': Image): Seal {
    if forall z: nat {:trigger Open(z)} :: Open(z) ==> e' == Grant(SB, Grant(SB, e, FILE, Double), FILE, DoubleEntry(0))
    then Known else Unknown
  }

  lemma TakeDouble(e: Image, o: Owner, n: nat, more: map<Slot, nat>) returns (e2: Image)
    requires StageOf(e, o, n, more) == Known && 0 < n < SB.size - 1
    requires Double !in more && DoubleEntry(0) !in more && FairOf(e) == Known
    ensures AreGranted(e, e2) == Known && FairOf(e2) == Known
    ensures StageOf(e2, o[n := (FILE, Double)][n + 1 := (FILE, DoubleEntry(0))], n + 2,
                    more[Double := n][DoubleEntry(0) := n + 1]) == Known
    ensures SectorList(e2.log) == DoubleWrites(SectorList(e.log), n) && n + 1 in SectorList(e2.log)
  {
    var e1 := Take(e, o, n, more, Double, 0);
    e2 := Take(e1, o[n := (FILE, Double)], n + 1, more[Double := n], DoubleEntry(0), n);
    FairGrant(e, e1, Double);
    FairGrant(e1, e2, DoubleEntry(0));
    assert SectorList(e2.log)[|SectorList(e.log)| + 3] == n + 1;
    BothLevels(e, e1, e2);
  }

  lemma BothLevels(e: Image, e1: Image, e2: Image)
    requires IsGrant(e, Double, e1) == Known && IsGrant(e1, DoubleEntry(0), e2) == Known
    ensures AreGranted(e, e2) == Known
  {
    assert Open(0);
  }

  ghost function IsApplied(turn: (Image, nat) -> Image, e: Image, t: nat, e': Image): Seal {
    if forall z: nat {:trigger Open(z)} :: Open(z) ==> e' == turn(e, t) then Known else Unknown
  }

  ghost function IsLooped(turn: (Image, nat) -> Image, e: Image, e': Image): Seal {
    if forall z: nat {:trigger Open(z)} :: Open(z) ==> e' == Loop(turn, e, OFF, MAX_CHUNK, 0) then Known else Unknown
  }

  /** The four turns of writei's loop. */
  lemma FourTurns(turn: (Image, nat) -> Image, e: Image, e1: Image, e2: Image, e3: Image, e4: Image)
    requires e.ok && e1.ok && e2.ok && e3.ok
    requires IsApplied(turn, e, 0, e1) == Known && IsApplied(turn, e1, 412, e2) == Known
    requires IsApplied(turn, e2, 924, e3) == Known && IsApplied(turn, e3, 1436, e4) == Known
    ensures IsLooped(turn, e, e4) == Known
  {
    assert Open(0);
    assert Loop(turn, e4, OFF, MAX_CHUNK, 1536) == e4;
    assert Loop(turn, e3, OFF, MAX_CHUNK, 1436) == e4;
    assert Loop(turn, e2, OFF, MAX_CHUNK, 924) == e4;
    assert Loop(turn, e1, OFF, MAX_CHUNK, 412) == e4;
  }

  lemma TurnIs(e: Image, e': Image, src: seq<Byte>, t: nat, u: nat)
    requires t < u <= |src| && u - t == Step(OFF + t, |src| - t) && IsTurn(e, OFF + t, src[t..u], e') == Known
    ensures IsApplied(OneTurn(SB, FILE, OFF, src), e, t, e') == Known
  {
    assert Open(0);
  }

  lemma WholeLoop(e: Image, e1: Image, e2: Image, e3: Image, e4: Image, src: seq<Byte>)
    requires |src| == MAX_CHUNK && e.ok && e1.ok && e2.ok && e3.ok
    requires IsTurn(e, OFF + 0, src[0..412], e1) == Known && IsTurn(e1, OFF + 412, src[412..924], e2) == Known
    requires IsTurn(e2, OFF + 924, src[924..1436], e3) == Known && IsTurn(e3, OFF + 1436, src[1436..1536], e4) == Known
    ensures IsLooped(OneTurn(SB, FILE, OFF, src), e, e4) == Known
  {
    TurnIs(e, e1, src, 0, 412);
    TurnIs(e1, e2, src, 412, 924);
    TurnIs(e2, e3, src, 924, 1436);
    TurnIs(e3, e4, src, 1436, 1536);
    FourTurns(OneTurn(SB, FILE, OFF, src), e, e1, e2, e3, e4);
  }

  /** The log_writes before the last turn, and those of the last turn up to the one that panics. */
  function FirstWrites(): seq<nat> {
    [201, 53, FULL, 75, FULL, 53, FULL + 1, 75, FULL + 1]
  }

  function UpToNine(): seq<nat> {
    FirstWrites() + [54, FULL + 2, 54, FULL + 3, FULL + 2, 54, FULL + 4]
  }

  /** Nine sectors: a data block that was there, the single-indirect block, the first two sectors of
      the free map, and five new blocks; eight before the last of them. */
  lemma NineThen()
    ensures BrimOf(DoubleWrites(FirstWrites(), FULL + 2) + [BitBlock(SB, FULL + 4)] + [FULL + 4]) == Known
  {
    var xs := UpToNine();
    assert xs[0] == 201 && xs[1] == 53 && xs[2] == FULL && xs[3] == 75 && xs[6] == FULL + 1;
    assert xs[9] == 54 && xs[10] == FULL + 2 && xs[12] == FULL + 3 && xs[15] == FULL + 4;
    Nine(Elements(xs));
    EightBefore();
    assert BitBlock(SB, FULL + 2) == 54 && BitBlock(SB, FULL + 3) == 54 && BitBlock(SB, FULL + 4) == 54;
    assert xs == DoubleWrites(FirstWrites(), FULL + 2) + [54] + [FULL + 4];
  }

  lemma EightBefore()
    ensures LogOk(LAYOUT, UpToNine())
  {
    var ys := FirstWrites() + [54, FULL + 2, 54, FULL + 3, FULL + 2, 54];
    assert UpToNine()[..15] == ys;
    SubsetFits(Elements(ys), {201, 53, 75, 54, FULL, FULL + 1, FULL + 2, FULL + 3});
  }

  /** The chunk stops there. */
  lemma ChunkStops(e: Image, o: Owner, src: seq<Byte>)
    requires StageOf(e, o, FULL, map[]) == Known && |src| == MAX_CHUNK && FairOf(e) == Known && e.log == []
    ensures var f := AfterWrite(SB, e, FILE, OFF, src); f.ok && LogFullNow(f)
  {
    var e1 := Block137(e, o, src[0..412]);
    var e2, o2 := BlockSingle(e1, o, FULL, map[], 126, OFF + 412, src[412..924]);
    var more2 := map[][SingleEntry(126) := FULL];
    var e3, o3 := BlockSingle(e2, o2, FULL + 1, more2, 127, OFF + 924, src[924..1436]);
    var more3 := more2[SingleEntry(127) := FULL + 1];
    FairTurn(e, e1, OFF, src[0..412]);
    FairTurn(e1, e2, OFF + 412, src[412..924]);
    FairTurn(e2, e3, OFF + 924, src[924..1436]);
    assert SectorList(e3.log) == FirstWrites();
    NineThen();
    var e4, o4, more4 := BlockDouble(e3, o3, FULL + 2, more3, OFF + 1436, src[1436..1536]);
    ChunkEnd(e, e1, e2, e3, e4, o, o2, o3, o4, more2, more3, more4, src);
  }

  lemma ChunkEnd(e: Image, e1: Image, e2: Image, e3: Image, e4: Image, o: Owner, o2: Owner, o3: Owner, o4: Owner,
                 more2: map<Slot, nat>, more3: map<Slot, nat>, more4: map<Slot, nat>, src: seq<Byte>)
    requires |src| == MAX_CHUNK && StageOf(e, o, FULL, map[]) == Known && StageOf(e1, o, FULL, map[]) == Known
    requires StageOf(e2, o2, FULL + 1, more2) == Known && StageOf(e3, o3, FULL + 2, more3) == Known
    requires StageOf(e4, o4, FULL + 5, more4) == Known && StopOf(e4) == Known
    requires IsTurn(e, OFF + 0, src[0..412], e1) == Known && IsTurn(e1, OFF + 412, src[412..924], e2) == Known
    requires IsTurn(e2, OFF + 924, src[924..1436], e3) == Known && IsTurn(e3, OFF + 1436, src[1436..1536], e4) == Known
    ensures var f := AfterWrite(SB, e, FILE, OFF, src); f.ok && LogFullNow(f)
  {
    StageSize(e, o, FULL, map[]);
    StageSize(e1, o, FULL, map[]);
    StageSize(e2, o2, FULL + 1, more2);
    StageSize(e3, o3, FULL + 2, more3);
    StageSize(e4, o4, FULL + 5, more4);
    WholeLoop(e, e1, e2, e3, e4, src);
    WithSize(e, e4, src);
  }

  lemma WithSize(e: Image, e4: Image, src: seq<Byte>)
    requires |src| == MAX_CHUNK && IsLooped(OneTurn(SB, FILE, OFF, src), e, e4) == Known
    requires |e.inodes| == 4 == |e4.inodes| && e.inodes[FILE].size == OFF == e4.inodes[FILE].size && |e4.d| == SB.size
    requires e4.ok && StopOf(e4) == Known
    ensures var f := AfterWrite(SB, e, FILE, OFF, src); f.ok && LogFullNow(f)
  {
    assert Open(0);
  }

  lemma StageSize(e: Image, o: Owner, n: nat, more: map<Slot, nat>)
    requires StageOf(e, o, n, more) == Known
    ensures e.ok && |e.inodes| == 4 && e.inodes[FILE].size == OFF && |e.d| == SB.size
  {
    assert Open(0);
  }

  lemma Nine(xs: set<nat>)
    requires 53 in xs && 54 in xs && 75 in xs && 201 in xs && forall x :: 4094 <= x < 4099 ==> x in xs
    ensures |xs| >= 9
  {
    var five := Interval(4094, 5);
    OneMore(five, xs - {53} - {54} - {75}, 201);
    OneMore(five + {201}, xs - {53} - {54}, 75);
    OneMore(five + {201} + {75}, xs - {53}, 54);
    OneMore(five + {201} + {75} + {54}, xs, 53);
    SubsetFits(five + {201} + {75} + {54} + {53}, xs);
  }

  /** The counterexample: a sound disk that the log can be used on, a write that filewrite makes in one
      chunk, and a transaction that is too big for the log. */
  lemma TooBig(src: seq<Byte>) returns (d: Disk, inodes: seq<Inode>, o: Owner)
    requires |src| == MAX_CHUNK
    ensures Sound(SB, d, inodes, o) && Refines(d, inodes, ContentsNow()) && InodesStored(d, inodes)
    ensures Log.Clean(LAYOUT, d) && BelowLog(o, LAYOUT) && DataStart(SB) <= LAYOUT.start
    ensures |inodes| == 4 && inodes[FILE].size == OFF
    ensures var e := AfterWrite(SB, ImageOf(d, inodes), FILE, OFF, src);
            e.ok && EndingOf(LAYOUT, NBUF, e) == Panics(FullLog)
  {
    d, inodes, o := LaidOut();
    SoundNow(d, inodes, o);
    RefinesNow(d, inodes, o);
    forall s | Legal(s) ensures Ptr(d, inodes[FILE], s) == Number(FILE, s) {
      PtrIs(d, inodes, o, FILE, s);
    }
    assert SectorList([]) == [] == Puts(Start);
    ChunkStops(ImageOf(d, inodes), o, src);
    assert d[LAYOUT.start] == BlockAt(LAYOUT.start);
  }
}

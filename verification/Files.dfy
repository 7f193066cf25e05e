/** Files on blocks: the pointer tree of an inode, the free map, and who owns each block.

    A slot is a place that holds a block number: one of the 14 words of the inode, or a
    word of a block that another slot points to.  fs.c reaches data through direct slots,
    through the single-indirect block and through the double-indirect tree; `Legal` says
    which slots those are. */
module Files {
  import opened Blocks

  const MAXFILE := NDIRECT + NINDIRECT + NINDIRECT * NINDIRECT

  datatype Super = Super(size: nat, ninodes: nat)

  /** BBLOCK: the sector with the bit of block `b`. */
  function BitBlock(sb: Super, b: nat): nat {
    b / BPB + sb.ninodes / IPB + 3
  }

  /** IBLOCK: the sector with inode `i`. */
  function InodeBlock(i: nat): nat {
    i / IPB + 2
  }

  /** The first sector after boot, super, inode and bitmap sectors. */
  function DataStart(sb: Super): nat {
    BitBlock(sb, sb.size) + 1
  }

  datatype Slot =
    | Direct(i: nat)
    | Single
    | SingleEntry(i: nat)
    | Double
    | DoubleEntry(i: nat)
    | Leaf(i: nat, j: nat)

  predicate Legal(s: Slot) {
    match s
    case Direct(i) => i < NDIRECT
    case Single => true
    case SingleEntry(i) => i < NINDIRECT
    case Double => true
    case DoubleEntry(i) => i < NINDIRECT
    case Leaf(i, j) => i < NINDIRECT && j < NINDIRECT
  }

  /** Slots whose block holds block numbers. */
  predicate HoldsPointers(s: Slot) {
    s.Single? || s.Double? || s.DoubleEntry?
  }

  /** The slot bmap walks to for file block `bn`. */
  function DataSlot(bn: nat): Slot {
    if bn < NDIRECT then Direct(bn)
    else if bn - NDIRECT < NINDIRECT then SingleEntry(bn - NDIRECT)
    else
      var r := bn - NDIRECT - NINDIRECT;
      Leaf(r / NINDIRECT, r % NINDIRECT)
  }

  lemma DataSlotFacts(bn: nat)
    ensures !HoldsPointers(DataSlot(bn))
    ensures bn < MAXFILE ==> Legal(DataSlot(bn))
    ensures forall m :: 0 <= m && DataSlot(m) == DataSlot(bn) ==> m == bn
  {
  }

  /** The file block whose data a slot has: the direct blocks come first, then those of the
      single-indirect block, and then those of each second-level block in turn. */
  function FileBlock(s: Slot): nat {
    match s
    case Direct(i) => i
    case SingleEntry(i) => NDIRECT + i
    case Leaf(i, j) => NDIRECT + NINDIRECT + NINDIRECT * i + j
    case _ => 0
  }

  lemma SlotRound(bn: nat)
    ensures FileBlock(DataSlot(bn)) == bn
  {
  }

  function At(d: Disk, p: nat): Block {
    if p < |d| then d[p] else Zero
  }

  /** Entry `i` of the pointer block `q`; nothing is there when there is no such block. */
  function Entry(d: Disk, q: nat, i: nat): nat {
    if q == 0 || i >= NINDIRECT then 0 else Word(At(d, q), i)
  }

  function Addr(ip: Inode, i: nat): nat {
    if i < |ip.addrs| then ip.addrs[i] else 0
  }

  /** The block number in a slot; 0 when there is none. */
  function Ptr(d: Disk, ip: Inode, s: Slot): nat {
    match s
    case Direct(i) => Addr(ip, i)
    case Single => Addr(ip, NDIRECT)
    case SingleEntry(i) => Entry(d, Addr(ip, NDIRECT), i)
    case Double => ip.indirect2
    case DoubleEntry(i) => Entry(d, ip.indirect2, i)
    case Leaf(i, j) => Entry(d, Entry(d, ip.indirect2, i), j)
  }

  /** The pointer block that contains a slot, for slots outside the inode. */
  function Home(d: Disk, ip: Inode, s: Slot): nat {
    match s
    case SingleEntry(_) => Addr(ip, NDIRECT)
    case DoubleEntry(_) => ip.indirect2
    case Leaf(i, _) => Entry(d, ip.indirect2, i)
    case _ => 0
  }

  // ----- The free map -----

  function Used(sb: Super, d: Disk, b: nat): bool {
    BitsOf(At(d, BitBlock(sb, b)))[b % BPB]
  }

  /** No block is free. */
  predicate Full(sb: Super, d: Disk) {
    forall x {:trigger Used(sb, d, x)} :: 0 <= x < sb.size ==> Used(sb, d, x)
  }

  function SetUsed(sb: Super, d: Disk, b: nat, v: bool): (r: Disk)
    requires b < sb.size == |d| && DataStart(sb) <= sb.size
    ensures |r| == |d|
    ensures forall p :: DataStart(sb) <= p < |d| ==> r[p] == d[p]
  {
    d[BitBlock(sb, b) := Bits(BitsOf(d[BitBlock(sb, b)])[b % BPB := v])]
  }

  lemma UsedAfter(sb: Super, d: Disk, b: nat, v: bool)
    requires b < sb.size == |d| && DataStart(sb) <= sb.size
    ensures forall x :: 0 <= x < sb.size ==> Used(sb, SetUsed(sb, d, b, v), x) == if x == b then v else Used(sb, d, x)
  {
    forall x | 0 <= x < sb.size
      ensures Used(sb, SetUsed(sb, d, b, v), x) == if x == b then v else Used(sb, d, x)
    {
      if BitBlock(sb, x) == BitBlock(sb, b) && x % BPB == b % BPB {
        assert x == b;
      }
    }
  }

  // ----- Ownership -----

  /** The inode and slot that hold each owned block's number. */
  type Owner = map<nat, (nat, Slot)>

  predicate Shaped(sb: Super, d: Disk, inodes: seq<Inode>) {
    && |d| == sb.size && DataStart(sb) <= sb.size
    && forall k :: 0 <= k < |inodes| ==> |inodes[k].addrs| == NDIRECT + 1
  }

  /** Every block number in a slot is owned by that slot. */
  ghost predicate PtrsOwned(d: Disk, inodes: seq<Inode>, o: Owner) {
    forall k, s {:trigger Ptr(d, inodes[k], s)} :: 0 <= k < |inodes| && Legal(s) && Ptr(d, inodes[k], s) != 0 ==>
      Ptr(d, inodes[k], s) in o && o[Ptr(d, inodes[k], s)] == (k, s)
  }

  predicate OwnsAt(sb: Super, d: Disk, inodes: seq<Inode>, o: Owner, b: nat)
    requires b in o
  {
    var (k, s) := o[b];
    && DataStart(sb) <= b < sb.size
    && k < |inodes| && Legal(s) && Ptr(d, inodes[k], s) == b
  }

  /** Every owned block is in the data area and is the block of its owner's slot. */
  predicate OwnersPoint(sb: Super, d: Disk, inodes: seq<Inode>, o: Owner) {
    forall b {:trigger OwnsAt(sb, d, inodes, o, b)} :: b in o ==> OwnsAt(sb, d, inodes, o, b)
  }

  /** A set bit is a metadata sector or an owned block. */
  predicate BitsAgree(sb: Super, d: Disk, o: Owner) {
    forall b {:trigger Used(sb, d, b)} :: 0 <= b < sb.size ==> (Used(sb, d, b) <==> b < DataStart(sb) || b in o)
  }

  /** No block is read as what it is not. */
  predicate Typed(d: Disk, o: Owner) {
    forall b {:trigger o[b]} :: b in o ==>
      At(d, b).Zero? || (if HoldsPointers(o[b].1) then At(d, b).Words? else At(d, b).Data?)
  }

  ghost predicate Sound(sb: Super, d: Disk, inodes: seq<Inode>, o: Owner) {
    && Shaped(sb, d, inodes)
    && PtrsOwned(d, inodes, o)
    && OwnersPoint(sb, d, inodes, o)
    && BitsAgree(sb, d, o)
    && Typed(d, o)
  }

  /** Two slots never hold the same block number. */
  lemma SlotsDisjoint(sb: Super, d: Disk, inodes: seq<Inode>, o: Owner, k: nat, s: Slot, k': nat, s': Slot)
    requires Sound(sb, d, inodes, o)
    requires k < |inodes| && Legal(s) && k' < |inodes| && Legal(s')
    requires Ptr(d, inodes[k], s) == Ptr(d, inodes[k'], s') != 0
    ensures k == k' && s == s'
  {
  }

  /** A block of the data area has its bit set exactly when some slot holds its number. */
  lemma UsedMeansOwned(sb: Super, d: Disk, inodes: seq<Inode>, o: Owner, b: nat)
    requires Sound(sb, d, inodes, o) && DataStart(sb) <= b < sb.size
    ensures Used(sb, d, b) <==> exists k, s :: 0 <= k < |inodes| && Legal(s) && Ptr(d, inodes[k], s) == b
  {
    if b in o {
      assert OwnsAt(sb, d, inodes, o, b);
      var (k, s) := o[b];
      assert 0 <= k < |inodes| && Legal(s) && Ptr(d, inodes[k], s) == b;
    }
  }

  // ----- Allocating into a slot -----

  /** balloc's effect on the disk: the bit is set and the block zeroed. */
  function Claimed(sb: Super, d: Disk, b: nat): (r: Disk)
    requires b < sb.size == |d| && DataStart(sb) <= sb.size
    ensures |r| == |d|
    ensures forall p :: DataStart(sb) <= p < |d| && p != b ==> r[p] == d[p]
  {
    SetUsed(sb, d, b, true)[b := Zero]
  }

  predicate InInode(s: Slot) {
    s.Direct? || s.Single? || s.Double?
  }

  /** Storing block number `b` in a slot of the inode. */
  function StoreInode(ip: Inode, s: Slot, b: nat): Inode
    requires |ip.addrs| == NDIRECT + 1 && Legal(s)
  {
    match s
    case Direct(i) => ip.(addrs := ip.addrs[i := b])
    case Single => ip.(addrs := ip.addrs[NDIRECT := b])
    case Double => ip.(indirect2 := b)
    case _ => ip
  }

  function IndexOf(s: Slot): nat {
    match s
    case SingleEntry(i) => i
    case DoubleEntry(i) => i
    case Leaf(_, j) => j
    case _ => 0
  }

  /** Storing block number `b` in a slot of pointer block `q`. */
  function StoreDisk(d: Disk, q: nat, s: Slot, b: nat): (r: Disk)
    requires Legal(s) && q < |d|
    ensures |r| == |d|
  {
    if InInode(s) then d else d[q := SetWord(d[q], IndexOf(s), b)]
  }

  /** A slot that is empty and whose own place exists. */
  ghost predicate Vacant(d: Disk, inodes: seq<Inode>, k: nat, s: Slot) {
    && k < |inodes| && Legal(s) && Ptr(d, inodes[k], s) == 0
    && (InInode(s) || Home(d, inodes[k], s) != 0)
  }

  function HomeSlot(s: Slot): Slot {
    match s
    case SingleEntry(_) => Single
    case DoubleEntry(_) => Double
    case Leaf(i, _) => DoubleEntry(i)
    case _ => s
  }

  /** The disk `e` is `d` after block `b` was claimed and its number stored in slot `s`,
      whose place is the inode or the pointer block `q`. */
  ghost predicate Stored(sb: Super, d: Disk, e: Disk, q: nat, s: Slot, b: nat) {
    && |d| == |e| == sb.size && DataStart(sb) <= b < sb.size && Legal(s)
    && e[b] == Zero
    && (!InInode(s) ==> q != b && DataStart(sb) <= q < sb.size && e[q] == SetWord(d[q], IndexOf(s), b))
    && (forall p :: DataStart(sb) <= p < sb.size && p != b && (InInode(s) || p != q) ==> e[p] == d[p])
  }

  /** A pointer block of the tree is owned by the slot that leads to it. */
  lemma HomeOwned(sb: Super, d: Disk, inodes: seq<Inode>, o: Owner, k: nat, s: Slot)
    requires Sound(sb, d, inodes, o) && k < |inodes| && Legal(s) && !InInode(s)
    ensures var q := Home(d, inodes[k], s); q != 0 ==> q in o && o[q] == (k, HomeSlot(s)) && OwnsAt(sb, d, inodes, o, q)
  {
    assert Home(d, inodes[k], s) == Ptr(d, inodes[k], HomeSlot(s));
    if Home(d, inodes[k], s) in o {
      assert OwnsAt(sb, d, inodes, o, Home(d, inodes[k], s));
    }
  }

  /** An entry of a pointer block other than the new block. */
  lemma EntryAfterAlloc(sb: Super, d: Disk, e: Disk, q: nat, s: Slot, b: nat, p: nat, i: nat)
    requires Stored(sb, d, e, q, s, b) && p != b && (p == 0 || DataStart(sb) <= p < sb.size)
    ensures Entry(e, p, i) == if !InInode(s) && p == q && p != 0 && i == IndexOf(s) then b else Entry(d, p, i)
  {
  }

  /** The entries of the pointer block in slot `h` of inode `k'`. */
  lemma ChildAfterAlloc(sb: Super, d: Disk, e: Disk, inodes: seq<Inode>, o: Owner, k: nat, s: Slot, b: nat, k': nat,
                        h: Slot, i: nat)
    requires Sound(sb, d, inodes, o) && Vacant(d, inodes, k, s) && b !in o && k' < |inodes| && Legal(h)
    requires Stored(sb, d, e, Home(d, inodes[k], s), s, b)
    ensures var p := Ptr(d, inodes[k'], h);
            Entry(e, p, i) ==
            if !InInode(s) && k' == k && h == HomeSlot(s) && i == IndexOf(s) then b else Entry(d, p, i)
  {
    var p, q := Ptr(d, inodes[k'], h), Home(d, inodes[k], s);
    if !InInode(s) {
      HomeOwned(sb, d, inodes, o, k, s);
      assert q == Ptr(d, inodes[k], HomeSlot(s));
    }
    if p != 0 {
      assert p in o && OwnsAt(sb, d, inodes, o, p);
    }
    EntryAfterAlloc(sb, d, e, q, s, b, p, i);
  }

  /** Allocating changes the number in that one slot and in no other slot of any inode. */
  lemma PtrAfterAlloc(sb: Super, d: Disk, e: Disk, inodes: seq<Inode>, o: Owner, k: nat, s: Slot, b: nat, k': nat,
                      s': Slot)
    requires Sound(sb, d, inodes, o) && Vacant(d, inodes, k, s) && b !in o
    requires Stored(sb, d, e, Home(d, inodes[k], s), s, b)
    requires k' < |inodes| && Legal(s')
    ensures Ptr(e, if k' == k then StoreInode(inodes[k], s, b) else inodes[k'], s') ==
            if k' == k && s' == s then b else Ptr(d, inodes[k'], s')
  {
    match s'
    case SingleEntry(i) => ChildAfterAlloc(sb, d, e, inodes, o, k, s, b, k', Single, i);
    case DoubleEntry(i) => ChildAfterAlloc(sb, d, e, inodes, o, k, s, b, k', Double, i);
    case Leaf(i, j) =>
      ChildAfterAlloc(sb, d, e, inodes, o, k, s, b, k', Double, i);
      ChildAfterAlloc(sb, d, e, inodes, o, k, s, b, k', DoubleEntry(i), j);
    case _ =>
  }

  function AllocInodes(inodes: seq<Inode>, k: nat, s: Slot, b: nat): seq<Inode>
    requires k < |inodes| && |inodes[k].addrs| == NDIRECT + 1 && Legal(s)
  {
    inodes[k := StoreInode(inodes[k], s, b)]
  }

  /** Allocating `b` into slot `s` of inode `k`, as bmap does through balloc. */
  function AllocDisk(sb: Super, d: Disk, q: nat, s: Slot, b: nat): (e: Disk)
    requires |d| == sb.size && DataStart(sb) <= b < sb.size && Legal(s) && q < sb.size
  {
    StoreDisk(Claimed(sb, d, b), q, s, b)
  }

  lemma AllocPtrsOwned(sb: Super, d: Disk, e: Disk, inodes: seq<Inode>, o: Owner, k: nat, s: Slot, b: nat)
    requires Sound(sb, d, inodes, o) && Vacant(d, inodes, k, s) && b !in o
    requires Stored(sb, d, e, Home(d, inodes[k], s), s, b)
    ensures PtrsOwned(e, AllocInodes(inodes, k, s, b), o[b := (k, s)])
  {
    var inodes' := AllocInodes(inodes, k, s, b);
    var o' := o[b := (k, s)];
    forall k', s' | 0 <= k' < |inodes'| && Legal(s') && Ptr(e, inodes'[k'], s') != 0
      ensures Ptr(e, inodes'[k'], s') in o' && o'[Ptr(e, inodes'[k'], s')] == (k', s')
    {
      PtrAfterAlloc(sb, d, e, inodes, o, k, s, b, k', s');
    }
  }

  lemma AllocOwnersPoint(sb: Super, d: Disk, e: Disk, inodes: seq<Inode>, o: Owner, k: nat, s: Slot, b: nat)
    requires Sound(sb, d, inodes, o) && Vacant(d, inodes, k, s) && b !in o
    requires Stored(sb, d, e, Home(d, inodes[k], s), s, b)
    ensures OwnersPoint(sb, e, AllocInodes(inodes, k, s, b), o[b := (k, s)])
  {
    var inodes' := AllocInodes(inodes, k, s, b);
    var o' := o[b := (k, s)];
    forall x | x in o'
      ensures OwnsAt(sb, e, inodes', o', x)
    {
      if x != b {
        assert OwnsAt(sb, d, inodes, o, x);
      }
      PtrAfterAlloc(sb, d, e, inodes, o, k, s, b, o'[x].0, o'[x].1);
    }
  }

  lemma AllocTyped(sb: Super, d: Disk, e: Disk, inodes: seq<Inode>, o: Owner, k: nat, s: Slot, b: nat)
    requires Sound(sb, d, inodes, o) && Vacant(d, inodes, k, s) && b !in o
    requires Stored(sb, d, e, Home(d, inodes[k], s), s, b)
    ensures Typed(e, o[b := (k, s)])
  {
    var o' := o[b := (k, s)];
    if !InInode(s) {
      HomeOwned(sb, d, inodes, o, k, s);
    }
    forall x | x in o'
      ensures At(e, x).Zero? || (if HoldsPointers(o'[x].1) then At(e, x).Words? else At(e, x).Data?)
    {
      if x != b {
        assert OwnsAt(sb, d, inodes, o, x);
        assert o'[x] == o[x];
      }
    }
  }

  predicate SameBits(sb: Super, d: Disk, e: Disk) {
    forall x {:trigger Used(sb, e, x)} :: 0 <= x < sb.size ==> Used(sb, e, x) == Used(sb, d, x)
  }

  /** Writing data blocks leaves the free map alone. */
  lemma DataWriteKeepsBits(sb: Super, d: Disk, e: Disk)
    requires |d| == |e| == sb.size
    requires forall p :: 0 <= p < DataStart(sb) && p < sb.size ==> e[p] == d[p]
    requires DataStart(sb) <= sb.size
    ensures SameBits(sb, d, e)
  {
    forall x | 0 <= x < sb.size
      ensures Used(sb, e, x) == Used(sb, d, x)
    {
      assert BitBlock(sb, x) < DataStart(sb);
    }
  }

  lemma AllocStored(sb: Super, d: Disk, q: nat, s: Slot, b: nat)
    requires |d| == sb.size && DataStart(sb) <= b < sb.size && Legal(s) && q < sb.size
    requires !InInode(s) ==> q != b && DataStart(sb) <= q
    ensures Stored(sb, d, AllocDisk(sb, d, q, s, b), q, s, b)
    ensures forall x :: 0 <= x < sb.size ==> Used(sb, AllocDisk(sb, d, q, s, b), x) == (x == b || Used(sb, d, x))
  {
    var c := SetUsed(sb, d, b, true);
    UsedAfter(sb, d, b, true);
    DataWriteKeepsBits(sb, c, AllocDisk(sb, d, q, s, b));
  }

  /** Allocation keeps every ownership invariant and hands the block to the slot. */
  lemma AllocSound(sb: Super, d: Disk, inodes: seq<Inode>, o: Owner, k: nat, s: Slot, b: nat)
    requires Sound(sb, d, inodes, o) && Vacant(d, inodes, k, s)
    requires b < sb.size && !Used(sb, d, b)
    ensures var q := Home(d, inodes[k], s);
            && DataStart(sb) <= b && b !in o && q < sb.size
            && Sound(sb, AllocDisk(sb, d, q, s, b), AllocInodes(inodes, k, s, b), o[b := (k, s)])
  {
    var q := Home(d, inodes[k], s);
    if !InInode(s) {
      HomeOwned(sb, d, inodes, o, k, s);
    }
    AllocStored(sb, d, q, s, b);
    var e := AllocDisk(sb, d, q, s, b);
    AllocPtrsOwned(sb, d, e, inodes, o, k, s, b);
    AllocOwnersPoint(sb, d, e, inodes, o, k, s, b);
    AllocTyped(sb, d, e, inodes, o, k, s, b);
  }
}

/** The inodes on the disk (fs.c: iupdate, and ilock's copy in the other direction), and what a file
    system is made of: its inode sectors, its free map and the blocks that are owned. */
module DiskInodes {
  import opened Blocks
  import opened Files
  import opened FileBytes
  import opened FileSteps

  /** Inode `k` as ilock reads it. */
  function DiskInode(d: Disk, k: nat): Inode {
    InodesOf(At(d, InodeBlock(k)))[k % IPB]
  }

  /** The inodes as the kernel reads them from a disk. */
  function InodesAt(d: Disk, n: nat): seq<Inode> {
    seq(n, (k: nat) => DiskInode(d, k))
  }

  /** The disk after iupdate. */
  function PutInode(d: Disk, k: nat, ip: Inode): (e: Disk)
    requires InodeBlock(k) < |d|
    ensures |e| == |d|
  {
    d[InodeBlock(k) := Dinodes(InodesOf(d[InodeBlock(k)])[k % IPB := ip])]
  }

  /** The inodes in memory are those on the disk, but perhaps for inode `k`. */
  ghost predicate OthersStored(d: Disk, inodes: seq<Inode>, k: nat) {
    forall j: nat {:trigger DiskInode(d, j)} :: j < |inodes| && j != k ==> DiskInode(d, j) == inodes[j]
  }

  ghost predicate InodesStored(d: Disk, inodes: seq<Inode>) {
    forall j: nat {:trigger DiskInode(d, j)} :: j < |inodes| ==> DiskInode(d, j) == inodes[j]
  }

  lemma PutStored(d: Disk, inodes: seq<Inode>, k: nat)
    requires OthersStored(d, inodes, k) && k < |inodes| && InodeBlock(k) < |d|
    ensures InodesStored(PutInode(d, k, inodes[k]), inodes)
  {
    var e := PutInode(d, k, inodes[k]);
    forall j: nat | j < |inodes| ensures DiskInode(e, j) == inodes[j] {
      if j != k {
        assert DiskInode(d, j) == inodes[j];
        assert InodeBlock(j) == InodeBlock(k) ==> j % IPB != k % IPB;
      }
    }
  }

  /** The inode sectors are the same. */
  predicate SameInodeSectors(sb: Super, d: Disk, e: Disk) {
    |d| == |e| && BitBlock(sb, 0) <= |d| && forall p :: 0 <= p < BitBlock(sb, 0) ==> e[p] == d[p]
  }

  lemma InodeSectorBelow(sb: Super, k: nat)
    requires k < sb.ninodes
    ensures InodeBlock(k) < BitBlock(sb, 0)
  {
  }

  lemma StoredElsewhere(sb: Super, d: Disk, e: Disk, inodes: seq<Inode>, k: nat)
    requires |inodes| <= sb.ninodes && SameInodeSectors(sb, d, e) && OthersStored(d, inodes, k)
    ensures OthersStored(e, inodes, k)
  {
    forall j: nat | j < |inodes| && j != k ensures DiskInode(e, j) == inodes[j] {
      assert DiskInode(d, j) == inodes[j];
      InodeSectorBelow(sb, j);
    }
  }

  // ----- What soundness depends on -----

  /** The owned blocks are the same. */
  ghost predicate SameOwned(d: Disk, e: Disk, o: Owner) {
    forall b {:trigger At(e, b)} :: b in o ==> At(e, b) == At(d, b)
  }

  lemma PtrSameOwned(sb: Super, d: Disk, e: Disk, inodes: seq<Inode>, o: Owner, k: nat, s: Slot)
    requires Sound(sb, d, inodes, o) && SameOwned(d, e, o) && k < |inodes| && Legal(s)
    ensures Ptr(e, inodes[k], s) == Ptr(d, inodes[k], s)
  {
    if !InInode(s) {
      HomeOwned(sb, d, inodes, o, k, s);
      if s.Leaf? {
        HomeOwned(sb, d, inodes, o, k, HomeSlot(s));
      }
    }
  }

  lemma SoundElsewhere(sb: Super, d: Disk, e: Disk, inodes: seq<Inode>, o: Owner)
    requires Sound(sb, d, inodes, o) && |e| == sb.size && SameBits(sb, d, e) && SameOwned(d, e, o)
    ensures Sound(sb, e, inodes, o)
  {
    forall k, s | 0 <= k < |inodes| && Legal(s) ensures Ptr(e, inodes[k], s) == Ptr(d, inodes[k], s) {
      PtrSameOwned(sb, d, e, inodes, o, k, s);
    }
    forall b | b in o ensures OwnsAt(sb, e, inodes, o, b) {
      assert OwnsAt(sb, d, inodes, o, b);
      PtrSameOwned(sb, d, e, inodes, o, o[b].0, o[b].1);
    }
  }

  lemma HoldsElsewhere(sb: Super, d: Disk, e: Disk, inodes: seq<Inode>, o: Owner, j: nat, c: seq<Byte>)
    requires Sound(sb, d, inodes, o) && SameOwned(d, e, o) && j < |inodes| && Holds(d, inodes[j], c)
    ensures Holds(e, inodes[j], c)
  {
    forall bn | 0 <= bn && bn * BSIZE < |c|
      ensures Ptr(e, inodes[j], DataSlot(bn)) == Ptr(d, inodes[j], DataSlot(bn)) != 0
    {
      DataSlotFacts(bn);
      PtrSameOwned(sb, d, e, inodes, o, j, DataSlot(bn));
    }
    forall n | 0 <= n < |c| ensures ByteAt(e, inodes[j], n) == c[n] {
      DataSlotFacts(n / BSIZE);
      PtrSameOwned(sb, d, e, inodes, o, j, DataSlot(n / BSIZE));
      assert Ptr(d, inodes[j], DataSlot(n / BSIZE)) in o;
      assert ByteAt(d, inodes[j], n) == c[n];
    }
  }

  lemma OthersElsewhere(sb: Super, d: Disk, e: Disk, inodes: seq<Inode>, o: Owner, cs: seq<seq<Byte>>, k: nat)
    requires Sound(sb, d, inodes, o) && SameOwned(d, e, o) && OthersHold(d, inodes, cs, k)
    ensures OthersHold(e, inodes, cs, k)
  {
    forall j | 0 <= j < |cs| && j != k ensures Holds(e, inodes[j], cs[j]) {
      HoldsElsewhere(sb, d, e, inodes, o, j, cs[j]);
    }
  }

  lemma RefinesElsewhere(sb: Super, d: Disk, e: Disk, inodes: seq<Inode>, o: Owner, cs: seq<seq<Byte>>)
    requires Sound(sb, d, inodes, o) && SameOwned(d, e, o) && Refines(d, inodes, cs)
    ensures Refines(e, inodes, cs)
  {
    forall j | 0 <= j < |cs| ensures Holds(e, inodes[j], cs[j]) {
      HoldsElsewhere(sb, d, e, inodes, o, j, cs[j]);
    }
  }

  /** iupdate touches no owned block and no bit. */
  lemma PutElsewhere(sb: Super, d: Disk, inodes: seq<Inode>, o: Owner, k: nat, ip: Inode)
    requires Sound(sb, d, inodes, o) && k < sb.ninodes
    ensures InodeBlock(k) < |d|
    ensures var e := PutInode(d, k, ip); SameBits(sb, d, e) && SameOwned(d, e, o)
  {
    InodeSectorBelow(sb, k);
    var e := PutInode(d, k, ip);
    forall b | b in o ensures At(e, b) == At(d, b) {
      assert OwnsAt(sb, d, inodes, o, b);
    }
    forall x | 0 <= x < sb.size ensures Used(sb, e, x) == Used(sb, d, x) {
      assert BitBlock(sb, 0) <= BitBlock(sb, x) < DataStart(sb);
    }
  }

  lemma PtrIgnoresMeta(d: Disk, ip: Inode, meta: Meta, s: Slot)
    ensures Ptr(d, ip.(meta := meta), s) == Ptr(d, ip, s)
  {
  }

  lemma MetaSound(sb: Super, d: Disk, inodes: seq<Inode>, o: Owner, k: nat, meta: Meta)
    requires Sound(sb, d, inodes, o) && k < |inodes|
    ensures Sound(sb, d, inodes[k := inodes[k].(meta := meta)], o)
  {
    var inodes' := inodes[k := inodes[k].(meta := meta)];
    forall k', s | 0 <= k' < |inodes| ensures Ptr(d, inodes'[k'], s) == Ptr(d, inodes[k'], s) {
      PtrIgnoresMeta(d, inodes[k], meta, s);
    }
    forall b | b in o ensures OwnsAt(sb, d, inodes', o, b) {
      assert OwnsAt(sb, d, inodes, o, b);
      PtrIgnoresMeta(d, inodes[k], meta, o[b].1);
    }
  }

  // ----- An empty file system -----

  /** mkfs before it adds files: the bits of the first sectors are set. */
  function FreshBlock(sb: Super, p: nat): Block {
    if BitBlock(sb, 0) <= p < DataStart(sb)
    then Bits(seq(BPB, i => (p - BitBlock(sb, 0)) * BPB + i < DataStart(sb)))
    else Zero
  }

  function FreshDisk(sb: Super): Disk {
    seq(sb.size, (p: nat) => FreshBlock(sb, p))
  }

  lemma FreshSound(sb: Super, n: nat)
    requires DataStart(sb) <= sb.size
    ensures Sound(sb, FreshDisk(sb), InodesAt(FreshDisk(sb), n), map[])
    ensures Refines(FreshDisk(sb), InodesAt(FreshDisk(sb), n), seq(n, _ => []))
  {
    var d := FreshDisk(sb);
    forall k: nat | k < n ensures InodesAt(d, n)[k] == EMPTY_INODE {
    }
    forall b | 0 <= b < sb.size ensures Used(sb, d, b) <==> b < DataStart(sb) {
      var p := BitBlock(sb, b);
      assert p - BitBlock(sb, 0) == b / BPB && d[p] == FreshBlock(sb, p);
      assert b / BPB * BPB + b % BPB == b;
    }
  }
}

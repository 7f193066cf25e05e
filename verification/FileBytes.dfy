/** File contents over the pointer tree: which flat byte sequence a file represents, and
    how allocation and block writes change it. */
module FileBytes {
  import opened Blocks
  import opened Files

  /** Byte `n` of a file, as readi finds it. */
  function ByteAt(d: Disk, ip: Inode, n: nat): Byte {
    BytesOf(At(d, Ptr(d, ip, DataSlot(n / BSIZE))))[n % BSIZE]
  }

  /** The file has no holes below byte `n`. */
  ghost predicate Filled(d: Disk, ip: Inode, n: nat) {
    forall bn {:trigger DataSlot(bn)} :: 0 <= bn && bn * BSIZE < n ==> Ptr(d, ip, DataSlot(bn)) != 0
  }

  predicate BytesAre(d: Disk, ip: Inode, c: seq<Byte>) {
    forall n {:trigger ByteAt(d, ip, n)} :: 0 <= n < |c| ==> ByteAt(d, ip, n) == c[n]
  }

  /** The first |c| bytes of the file exist and are `c`. */
  ghost predicate Holds(d: Disk, ip: Inode, c: seq<Byte>) {
    |c| <= MAXFILE * BSIZE && Filled(d, ip, |c|) && BytesAre(d, ip, c)
  }

  /** `c` with `src` written at `off`, growing at the end if need be. */
  function Splice(c: seq<Byte>, off: nat, src: seq<Byte>): (r: seq<Byte>)
    requires off <= |c|
    ensures |r| == if off + |src| <= |c| then |c| else off + |src|
    ensures forall n :: 0 <= n < |r| ==> r[n] == if off <= n < off + |src| then src[n - off] else c[n]
  {
    c[..off] + src + (if off + |src| <= |c| then c[off + |src|..] else [])
  }

  lemma SpliceMore(c: seq<Byte>, off: nat, src: seq<Byte>, t: nat, m: nat)
    requires off <= |c| && t + m <= |src|
    ensures Splice(Splice(c, off, src[..t]), off + t, src[t..t + m]) == Splice(c, off, src[..t + m])
  {
  }

  /** What bmap may do to the tree: fill empty slots of inode `k` that lie in `path`,
      keep every other slot, and keep the data blocks. */
  ghost predicate Extends(d: Disk, inodes: seq<Inode>, e: Disk, inodes': seq<Inode>, k: nat, path: set<Slot>) {
    && |inodes| == |inodes'|
    && (forall k' {:trigger inodes'[k']} :: 0 <= k' < |inodes| ==> inodes'[k'].size == inodes[k'].size)
    && (forall k', s' {:trigger Ptr(e, inodes'[k'], s')} :: 0 <= k' < |inodes| && Legal(s') ==>
          || Ptr(e, inodes'[k'], s') == Ptr(d, inodes[k'], s')
          || (k' == k && s' in path && Ptr(d, inodes[k'], s') == 0))
    && (forall k', s' {:trigger Ptr(d, inodes[k'], s')} ::
          0 <= k' < |inodes| && Legal(s') && !HoldsPointers(s') && Ptr(d, inodes[k'], s') != 0 ==>
          At(e, Ptr(d, inodes[k'], s')) == At(d, Ptr(d, inodes[k'], s')))
  }

  lemma AllocExtends(sb: Super, d: Disk, inodes: seq<Inode>, o: Owner, k: nat, s: Slot, b: nat, path: set<Slot>)
    requires Sound(sb, d, inodes, o) && Vacant(d, inodes, k, s) && b < sb.size && !Used(sb, d, b) && s in path
    ensures var q := Home(d, inodes[k], s);
            DataStart(sb) <= b && q < sb.size
            && Extends(d, inodes, AllocDisk(sb, d, q, s, b), AllocInodes(inodes, k, s, b), k, path)
            && Ptr(AllocDisk(sb, d, q, s, b), AllocInodes(inodes, k, s, b)[k], s) == b
  {
    AllocSound(sb, d, inodes, o, k, s, b);
    var q := Home(d, inodes[k], s);
    if !InInode(s) {
      HomeOwned(sb, d, inodes, o, k, s);
    }
    AllocStored(sb, d, q, s, b);
    var e, inodes' := AllocDisk(sb, d, q, s, b), AllocInodes(inodes, k, s, b);
    forall k', s' | 0 <= k' < |inodes| && Legal(s')
      ensures Ptr(e, inodes'[k'], s') == if k' == k && s' == s then b else Ptr(d, inodes[k'], s')
    {
      PtrAfterAlloc(sb, d, e, inodes, o, k, s, b, k', s');
    }
    forall k', s' | 0 <= k' < |inodes| && Legal(s') && !HoldsPointers(s') && Ptr(d, inodes[k'], s') != 0
      ensures At(e, Ptr(d, inodes[k'], s')) == At(d, Ptr(d, inodes[k'], s'))
    {
      assert OwnsAt(sb, d, inodes, o, Ptr(d, inodes[k'], s'));
    }
  }

  lemma ExtendsTrans(d: Disk, i0: seq<Inode>, e: Disk, i1: seq<Inode>, f: Disk, i2: seq<Inode>, k: nat, path: set<Slot>)
    requires Extends(d, i0, e, i1, k, path) && Extends(e, i1, f, i2, k, path)
    ensures Extends(d, i0, f, i2, k, path)
  {
    forall k', s' | 0 <= k' < |i0| && Legal(s')
      ensures Ptr(f, i2[k'], s') == Ptr(d, i0[k'], s') || (k' == k && s' in path && Ptr(d, i0[k'], s') == 0)
      ensures !HoldsPointers(s') && Ptr(d, i0[k'], s') != 0 ==> At(f, Ptr(d, i0[k'], s')) == At(d, Ptr(d, i0[k'], s'))
    {
      assert Ptr(e, i1[k'], s') == Ptr(d, i0[k'], s') || Ptr(d, i0[k'], s') == 0;
    }
  }

  /** Allocation changes no file's bytes. */
  lemma ExtendsHolds(d: Disk, inodes: seq<Inode>, e: Disk, inodes': seq<Inode>, k: nat, path: set<Slot>, j: nat,
                     c: seq<Byte>)
    requires Extends(d, inodes, e, inodes', k, path) && j < |inodes| && Holds(d, inodes[j], c)
    ensures Holds(e, inodes'[j], c)
  {
    forall bn | 0 <= bn && bn * BSIZE < |c|
      ensures Ptr(e, inodes'[j], DataSlot(bn)) == Ptr(d, inodes[j], DataSlot(bn)) != 0
    {
      DataSlotFacts(bn);
    }
    forall n | 0 <= n < |c|
      ensures ByteAt(e, inodes'[j], n) == c[n]
    {
      DataSlotFacts(n / BSIZE);
      assert ByteAt(d, inodes[j], n) == c[n];
    }
  }

  // ----- Writing a data block -----

  /** Overwriting a data block changes no slot. */
  lemma PtrAfterWrite(sb: Super, d: Disk, inodes: seq<Inode>, o: Owner, k: nat, s: Slot, bytes: seq<Byte>, k': nat,
                      s': Slot)
    requires Sound(sb, d, inodes, o) && k < |inodes| && Legal(s) && !HoldsPointers(s)
    requires 0 < Ptr(d, inodes[k], s) < sb.size
    requires k' < |inodes| && Legal(s')
    ensures Ptr(d[Ptr(d, inodes[k], s) := Data(bytes)], inodes[k'], s') == Ptr(d, inodes[k'], s')
  {
    if !InInode(s') {
      HomeOwned(sb, d, inodes, o, k', s');
      if s'.Leaf? {
        HomeOwned(sb, d, inodes, o, k', HomeSlot(s'));
      }
    }
  }

  lemma WriteSound(sb: Super, d: Disk, inodes: seq<Inode>, o: Owner, k: nat, s: Slot, bytes: seq<Byte>)
    requires Sound(sb, d, inodes, o) && k < |inodes| && Legal(s) && !HoldsPointers(s) && Ptr(d, inodes[k], s) != 0
    ensures DataStart(sb) <= Ptr(d, inodes[k], s) < sb.size
    ensures Sound(sb, d[Ptr(d, inodes[k], s) := Data(bytes)], inodes, o)
  {
    var p := Ptr(d, inodes[k], s);
    assert OwnsAt(sb, d, inodes, o, p);
    var e := d[p := Data(bytes)];
    forall k', s' | 0 <= k' < |inodes| && Legal(s')
      ensures Ptr(e, inodes[k'], s') == Ptr(d, inodes[k'], s')
    {
      PtrAfterWrite(sb, d, inodes, o, k, s, bytes, k', s');
    }
    forall x | x in o
      ensures OwnsAt(sb, e, inodes, o, x)
    {
      assert OwnsAt(sb, d, inodes, o, x);
      PtrAfterWrite(sb, d, inodes, o, k, s, bytes, o[x].0, o[x].1);
    }
    DataWriteKeepsBits(sb, d, e);
  }

  /** Overwriting the block of (k, bn) changes exactly those bytes of that file. */
  lemma ByteAfterWrite(sb: Super, d: Disk, inodes: seq<Inode>, o: Owner, k: nat, bn: nat, bytes: seq<Byte>, j: nat,
                       n: nat)
    requires Sound(sb, d, inodes, o) && k < |inodes| && bn < MAXFILE && 0 < Ptr(d, inodes[k], DataSlot(bn)) < sb.size
    requires |bytes| == BSIZE && j < |inodes| && n < MAXFILE * BSIZE && Ptr(d, inodes[j], DataSlot(n / BSIZE)) != 0
    ensures ByteAt(d[Ptr(d, inodes[k], DataSlot(bn)) := Data(bytes)], inodes[j], n) ==
            if j == k && n / BSIZE == bn then bytes[n % BSIZE] else ByteAt(d, inodes[j], n)
  {
    DataSlotFacts(bn);
    DataSlotFacts(n / BSIZE);
    PtrAfterWrite(sb, d, inodes, o, k, DataSlot(bn), bytes, j, DataSlot(n / BSIZE));
    if Ptr(d, inodes[j], DataSlot(n / BSIZE)) == Ptr(d, inodes[k], DataSlot(bn)) {
      SlotsDisjoint(sb, d, inodes, o, k, DataSlot(bn), j, DataSlot(n / BSIZE));
    }
  }

  /** The new block that writei's memmove builds. */
  function Patched(b: Block, at: nat, src: seq<Byte>): (r: seq<Byte>)
    requires at + |src| <= BSIZE
    ensures |r| == BSIZE
    ensures forall i :: 0 <= i < BSIZE ==> r[i] == if at <= i < at + |src| then src[i - at] else BytesOf(b)[i]
  {
    BytesOf(b)[..at] + src + BytesOf(b)[at + |src|..]
  }

  /** Other files keep their bytes. */
  lemma WriteHoldsOther(sb: Super, d: Disk, inodes: seq<Inode>, o: Owner, k: nat, bn: nat, bytes: seq<Byte>, j: nat,
                        c: seq<Byte>)
    requires Sound(sb, d, inodes, o) && k < |inodes| && bn < MAXFILE && 0 < Ptr(d, inodes[k], DataSlot(bn)) < sb.size
    requires |bytes| == BSIZE && j < |inodes| && j != k && Holds(d, inodes[j], c)
    ensures Holds(d[Ptr(d, inodes[k], DataSlot(bn)) := Data(bytes)], inodes[j], c)
  {
    var e := d[Ptr(d, inodes[k], DataSlot(bn)) := Data(bytes)];
    forall m | 0 <= m && m * BSIZE < |c|
      ensures Ptr(e, inodes[j], DataSlot(m)) != 0
    {
      DataSlotFacts(m);
      DataSlotFacts(bn);
      PtrAfterWrite(sb, d, inodes, o, k, DataSlot(bn), bytes, j, DataSlot(m));
    }
    forall n | 0 <= n < |c|
      ensures ByteAt(e, inodes[j], n) == c[n]
    {
      assert Ptr(d, inodes[j], DataSlot(n / BSIZE)) != 0;
      ByteAfterWrite(sb, d, inodes, o, k, bn, bytes, j, n);
      assert ByteAt(d, inodes[j], n) == c[n];
    }
  }

  /** Writing `src` at `off`, inside one block, splices it into the represented bytes. */
  lemma WriteHolds(sb: Super, d: Disk, inodes: seq<Inode>, o: Owner, k: nat, c: seq<Byte>, off: nat, src: seq<Byte>)
    requires Sound(sb, d, inodes, o) && k < |inodes| && Holds(d, inodes[k], c) && off <= |c|
    requires off % BSIZE + |src| <= BSIZE && off + |src| <= MAXFILE * BSIZE && 0 < |src|
    requires 0 < Ptr(d, inodes[k], DataSlot(off / BSIZE)) < sb.size
    ensures var p := Ptr(d, inodes[k], DataSlot(off / BSIZE));
            Holds(d[p := Data(Patched(d[p], off % BSIZE, src))], inodes[k], Splice(c, off, src))
  {
    var bn := off / BSIZE;
    var p := Ptr(d, inodes[k], DataSlot(bn));
    var bytes := Patched(d[p], off % BSIZE, src);
    var e := d[p := Data(bytes)];
    var r := Splice(c, off, src);
    DataSlotFacts(bn);
    forall m | 0 <= m && m * BSIZE < |r|
      ensures Ptr(d, inodes[k], DataSlot(m)) != 0 && Ptr(e, inodes[k], DataSlot(m)) != 0
    {
      DataSlotFacts(m);
      assert m == bn || m * BSIZE < |c|;
      PtrAfterWrite(sb, d, inodes, o, k, DataSlot(bn), bytes, k, DataSlot(m));
    }
    forall n | 0 <= n < |r|
      ensures ByteAt(e, inodes[k], n) == r[n]
    {
      assert (n / BSIZE) * BSIZE < |r| && Ptr(d, inodes[k], DataSlot(n / BSIZE)) != 0;
      ByteAfterWrite(sb, d, inodes, o, k, bn, bytes, k, n);
      if !(off <= n < off + |src|) {
        assert ByteAt(d, inodes[k], n) == c[n];
      }
    }
  }

  // ----- All files at once -----

  /** Every inode's tree refines the flat byte sequence recorded for it. */
  ghost predicate Refines(d: Disk, inodes: seq<Inode>, cs: seq<seq<Byte>>) {
    && |cs| == |inodes|
    && forall j {:trigger cs[j]} :: 0 <= j < |cs| ==> |cs[j]| == inodes[j].size && Holds(d, inodes[j], cs[j])
  }

  // ----- Truncation -----

  /** The rank of the first slot below entry `i` of the double-indirect block. */
  function DoubleRank(i: nat): nat {
    NDIRECT + NINDIRECT + 1 + (NINDIRECT + 1) * i
  }

  /** The order in which itrunc visits the slots of an inode. */
  function Rank(s: Slot): nat {
    match s
    case Direct(i) => i
    case SingleEntry(i) => NDIRECT + i
    case Single => NDIRECT + NINDIRECT
    case Leaf(i, j) => DoubleRank(i) + j
    case DoubleEntry(i) => DoubleRank(i) + NINDIRECT
    case Double => DoubleRank(NINDIRECT)
  }

  const RANKS := DoubleRank(NINDIRECT) + 1

  lemma RankInjective(s: Slot, s': Slot)
    requires Legal(s) && Legal(s') && Rank(s) == Rank(s')
    ensures s == s'
  {
  }

  /** `e` is `d` with the bits of inode `k`'s blocks cleared for the slots before rank `r`. */
  ghost predicate FreedBelow(sb: Super, d: Disk, e: Disk, o: Owner, k: nat, r: nat) {
    && |d| == |e| == sb.size && DataStart(sb) <= sb.size
    && (forall p :: DataStart(sb) <= p < sb.size ==> e[p] == d[p])
    && (forall p :: 0 <= p < BitBlock(sb, 0) ==> e[p] == d[p])
    && (forall b {:trigger Used(sb, e, b)} :: 0 <= b < sb.size ==>
          (Used(sb, e, b) <==> Used(sb, d, b) && !(b in o && o[b].0 == k && Rank(o[b].1) < r)))
  }

  /** Empty slots need no freeing. */
  lemma FreeSkip(sb: Super, d: Disk, e: Disk, inodes: seq<Inode>, o: Owner, k: nat, r: nat, r': nat)
    requires Sound(sb, d, inodes, o) && k < |inodes| && FreedBelow(sb, d, e, o, k, r) && r <= r'
    requires forall s :: Legal(s) && r <= Rank(s) < r' ==> Ptr(d, inodes[k], s) == 0
    ensures FreedBelow(sb, d, e, o, k, r')
  {
    forall b | 0 <= b < sb.size
      ensures Used(sb, e, b) <==> Used(sb, d, b) && !(b in o && o[b].0 == k && Rank(o[b].1) < r')
    {
      if b in o {
        assert OwnsAt(sb, d, inodes, o, b);
      }
    }
  }

  /** bfree on the block of the next slot: its bit is set, and clearing it frees that slot. */
  lemma FreeStep(sb: Super, d: Disk, e: Disk, inodes: seq<Inode>, o: Owner, k: nat, s: Slot)
    requires Sound(sb, d, inodes, o) && k < |inodes| && Legal(s) && FreedBelow(sb, d, e, o, k, Rank(s))
    requires Ptr(d, inodes[k], s) != 0
    ensures var p := Ptr(d, inodes[k], s);
            DataStart(sb) <= p < sb.size && Used(sb, e, p)
            && FreedBelow(sb, d, SetUsed(sb, e, p, false), o, k, Rank(s) + 1)
  {
    var p := Ptr(d, inodes[k], s);
    assert OwnsAt(sb, d, inodes, o, p);
    UsedAfter(sb, e, p, false);
    assert Used(sb, d, p) && Used(sb, e, p);
    var f := SetUsed(sb, e, p, false);
    forall b | 0 <= b < sb.size
      ensures Used(sb, f, b) <==> Used(sb, d, b) && !(b in o && o[b].0 == k && Rank(o[b].1) < Rank(s) + 1)
    {
      if b in o && o[b].0 == k && Rank(o[b].1) == Rank(s) {
        assert OwnsAt(sb, d, inodes, o, b);
        RankInjective(o[b].1, s);
      }
    }
  }

  function Others(o: Owner, k: nat): Owner {
    map b | b in o && o[b].0 != k :: o[b]
  }

  lemma PtrSameData(sb: Super, d: Disk, e: Disk, inodes: seq<Inode>, o: Owner, k: nat, s: Slot)
    requires Sound(sb, d, inodes, o) && |e| == sb.size && k < |inodes| && Legal(s)
    requires forall p :: DataStart(sb) <= p < sb.size ==> e[p] == d[p]
    ensures Ptr(e, inodes[k], s) == Ptr(d, inodes[k], s)
  {
    if !InInode(s) {
      HomeOwned(sb, d, inodes, o, k, s);
      if s.Leaf? {
        HomeOwned(sb, d, inodes, o, k, HomeSlot(s));
      }
    }
  }

  /** itrunc clears exactly the bits its inode owned, and the other inodes keep theirs. */
  lemma TruncSound(sb: Super, d: Disk, e: Disk, inodes: seq<Inode>, o: Owner, k: nat)
    requires Sound(sb, d, inodes, o) && k < |inodes| && FreedBelow(sb, d, e, o, k, RANKS)
    ensures Sound(sb, e, inodes[k := Emptied(inodes[k])], Others(o, k))
  {
    var inodes', o' := inodes[k := Emptied(inodes[k])], Others(o, k);
    forall k', s' | 0 <= k' < |inodes| && Legal(s')
      ensures Ptr(e, inodes'[k'], s') == if k' == k then 0 else Ptr(d, inodes[k'], s')
    {
      if k' != k {
        PtrSameData(sb, d, e, inodes, o, k', s');
      }
    }
    forall b | b in o'
      ensures OwnsAt(sb, e, inodes', o', b)
    {
      assert OwnsAt(sb, d, inodes, o, b);
      PtrSameData(sb, d, e, inodes, o, o[b].0, o[b].1);
    }
    TruncBits(sb, d, e, inodes, o, k);
  }

  lemma TruncBits(sb: Super, d: Disk, e: Disk, inodes: seq<Inode>, o: Owner, k: nat)
    requires Sound(sb, d, inodes, o) && k < |inodes| && FreedBelow(sb, d, e, o, k, RANKS)
    ensures BitsAgree(sb, e, Others(o, k)) && Typed(e, Others(o, k))
  {
    forall b | 0 <= b < sb.size
      ensures Used(sb, e, b) <==> b < DataStart(sb) || b in Others(o, k)
    {
      if b in o {
        assert OwnsAt(sb, d, inodes, o, b);
        assert Rank(o[b].1) < RANKS;
      }
    }
    forall b | b in Others(o, k)
      ensures At(e, b) == At(d, b) && b in o && Others(o, k)[b] == o[b]
    {
      assert OwnsAt(sb, d, inodes, o, b);
    }
  }

  lemma TruncHolds(sb: Super, d: Disk, e: Disk, inodes: seq<Inode>, o: Owner, k: nat, j: nat, c: seq<Byte>)
    requires Sound(sb, d, inodes, o) && |e| == sb.size && j < |inodes| && Holds(d, inodes[j], c)
    requires forall p :: DataStart(sb) <= p < sb.size ==> e[p] == d[p]
    ensures Holds(e, inodes[j], c)
  {
    forall bn | 0 <= bn && bn * BSIZE < |c|
      ensures Ptr(e, inodes[j], DataSlot(bn)) == Ptr(d, inodes[j], DataSlot(bn)) != 0
    {
      DataSlotFacts(bn);
      PtrSameData(sb, d, e, inodes, o, j, DataSlot(bn));
    }
    forall n | 0 <= n < |c|
      ensures ByteAt(e, inodes[j], n) == c[n]
    {
      DataSlotFacts(n / BSIZE);
      PtrSameData(sb, d, e, inodes, o, j, DataSlot(n / BSIZE));
      assert Ptr(d, inodes[j], DataSlot(n / BSIZE)) != 0;
      assert OwnsAt(sb, d, inodes, o, Ptr(d, inodes[j], DataSlot(n / BSIZE)));
      assert ByteAt(d, inodes[j], n) == c[n];
    }
  }
}

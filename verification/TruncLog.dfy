/** itrunc and iupdate as functions on images, like the calls in FileLog: which sectors a truncation
    logs, and in which order. */
module TruncLog {
  import opened Blocks
  import opened Files
  import opened FileBytes
  import opened FileSteps
  import opened DiskInodes
  import opened FileLog
  import opened Buffers
  import opened Sealed
  import Log

  // ----- The blocks in itrunc's order -----

  /** What hangs below the second-level block `q`, and the block itself. */
  function EntryBlocks(d: Disk, q: nat): seq<nat> {
    if q == 0 then [] else WordsOf(At(d, q)) + [q]
  }

  function SecondLevel(d: Disk, qs: seq<nat>): seq<nat> {
    if qs == [] then [] else SecondLevel(d, qs[..|qs| - 1]) + EntryBlocks(d, qs[|qs| - 1])
  }

  function DoubleBlocks(d: Disk, q: nat): seq<nat> {
    if q == 0 then [] else SecondLevel(d, WordsOf(At(d, q))) + [q]
  }

  /** All block numbers in the tree of an inode, with 0 where there is none. */
  function TreeBlocks(d: Disk, ip: Inode): seq<nat> {
    (if |ip.addrs| == NDIRECT + 1 then ip.addrs[..NDIRECT] + EntryBlocks(d, ip.addrs[NDIRECT]) else []) +
    DoubleBlocks(d, ip.indirect2)
  }

  // ----- The buffers in itrunc -----

  /** bfree: the super block, and the sector with the bit. */
  function FreeOn(tr: Trail, sb: Super, p: nat): Trail {
    if p == 0 then tr else Then(Then(tr, Read(1)), Store(BitBlock(sb, p)))
  }

  function FreesOn(tr: Trail, sb: Super, ps: seq<nat>): Trail {
    if ps == [] then tr else FreeOn(FreesOn(tr, sb, ps[..|ps| - 1]), sb, ps[|ps| - 1])
  }

  /** A pointer block is held while the blocks below it are freed, and freed after that. */
  function EntryOn(tr: Trail, sb: Super, d: Disk, q: nat): Trail {
    if q == 0 then tr else FreeOn(Then(tr, Under(q, FreesOn(Start, sb, WordsOf(At(d, q))), false)), sb, q)
  }

  function SecondOn(tr: Trail, sb: Super, d: Disk, qs: seq<nat>): Trail {
    if qs == [] then tr else EntryOn(SecondOn(tr, sb, d, qs[..|qs| - 1]), sb, d, qs[|qs| - 1])
  }

  function DoubleOn(tr: Trail, sb: Super, d: Disk, q: nat): Trail {
    if q == 0 then tr else FreeOn(Then(tr, Under(q, SecondOn(Start, sb, d, WordsOf(At(d, q))), false)), sb, q)
  }

  function TreeOn(tr: Trail, sb: Super, d: Disk, ip: Inode): Trail {
    var single :=
      if |ip.addrs| == NDIRECT + 1 then EntryOn(FreesOn(tr, sb, ip.addrs[..NDIRECT]), sb, d, ip.addrs[NDIRECT]) else tr;
    DoubleOn(single, sb, d, ip.indirect2)
  }

  // ----- The calls -----

  /** `if(p) bfree(p)` */
  function FreeOne(sb: Super, e: Image, p: nat): Image {
    if !e.ok || p == 0 then e
    else if |e.d| != sb.size || DataStart(sb) > sb.size || p >= sb.size || !Used(sb, e.d, p) then e.(ok := false)
    else
      var d := SetUsed(sb, e.d, p, false);
      e.(d := d, log := e.log + [Log.Write(BitBlock(sb, p), d[BitBlock(sb, p)])])
  }

  function FreeList(sb: Super, e: Image, ps: seq<nat>): Image {
    if ps == [] then e else FreeOne(sb, FreeList(sb, e, ps[..|ps| - 1]), ps[|ps| - 1])
  }

  /** iupdate */
  function AfterUpdate(e: Image, k: nat): Image {
    if !e.ok || k >= |e.inodes| || InodeBlock(k) >= |e.d| then e
    else
      var d := PutInode(e.d, k, e.inodes[k]);
      Image(d, e.inodes, e.log + [Log.Write(InodeBlock(k), d[InodeBlock(k)])], true,
            Then(e.trail, Store(InodeBlock(k))))
  }

  /** itrunc */
  function AfterTrunc(sb: Super, e: Image, k: nat): Image {
    if !e.ok || k >= |e.inodes| then e
    else
      var f := FreeList(sb, e, TreeBlocks(e.d, e.inodes[k]));
      if !f.ok then e.(ok := false)
      else
        var tr := TreeOn(e.trail, sb, e.d, e.inodes[k]);
        AfterUpdate(f.(inodes := e.inodes[k := Emptied(e.inodes[k])], trail := tr), k)
  }

  lemma FreeMore(sb: Super, e: Image, ps: seq<nat>, p: nat)
    ensures FreeList(sb, e, ps + [p]) == FreeOne(sb, FreeList(sb, e, ps), p)
  {
    assert (ps + [p])[..|ps|] == ps;
  }

  lemma {:induction false} FreeInodes(sb: Super, e: Image, ps: seq<nat>)
    ensures FreeList(sb, e, ps).inodes == e.inodes
  {
    if ps != [] {
      FreeInodes(sb, e, ps[..|ps| - 1]);
    }
  }

  lemma SecondMore(d: Disk, qs: seq<nat>, q: nat)
    ensures SecondLevel(d, qs + [q]) == SecondLevel(d, qs) + EntryBlocks(d, q)
  {
    assert (qs + [q])[..|qs|] == qs;
  }

  // ----- The log is the difference -----

  lemma UpdateApplied(d: Disk, e: Image, k: nat)
    requires Applied(d, e)
    ensures Applied(d, AfterUpdate(e, k))
  {
    if e.ok && k < |e.inodes| && InodeBlock(k) < |e.d| {
      ApplyOne(d, e.log, Log.Write(InodeBlock(k), PutInode(e.d, k, e.inodes[k])[InodeBlock(k)]));
    }
  }

  lemma FreeApplied(sb: Super, d: Disk, e: Image, p: nat)
    requires Applied(d, e)
    ensures Applied(d, FreeOne(sb, e, p))
  {
    if e.ok && p != 0 && |e.d| == sb.size && DataStart(sb) <= sb.size && p < sb.size && Used(sb, e.d, p) {
      ApplyOne(d, e.log, Log.Write(BitBlock(sb, p), SetUsed(sb, e.d, p, false)[BitBlock(sb, p)]));
    }
  }

  lemma {:induction false} ListApplied(sb: Super, d: Disk, e: Image, ps: seq<nat>)
    requires Applied(d, e)
    ensures Applied(d, FreeList(sb, e, ps))
  {
    if ps != [] {
      ListApplied(sb, d, e, ps[..|ps| - 1]);
      FreeApplied(sb, d, FreeList(sb, e, ps[..|ps| - 1]), ps[|ps| - 1]);
    }
  }

  lemma TruncApplied(sb: Super, d: Disk, e: Image, k: nat)
    requires Applied(d, e)
    ensures Applied(d, AfterTrunc(sb, e, k))
  {
    if e.ok && k < |e.inodes| {
      var f := FreeList(sb, e, TreeBlocks(e.d, e.inodes[k]));
      ListApplied(sb, d, e, TreeBlocks(e.d, e.inodes[k]));
      UpdateApplied(d, f.(inodes := e.inodes[k := Emptied(e.inodes[k])],
                          trail := TreeOn(e.trail, sb, e.d, e.inodes[k])), k);
    }
  }

  lemma {:induction false} FreeExtends(sb: Super, e: Image, ps: seq<nat>)
    ensures var t := FreeList(sb, e, ps).log; |e.log| <= |t| && t[..|e.log|] == e.log
  {
    if ps != [] {
      FreeExtends(sb, e, ps[..|ps| - 1]);
    }
  }

  lemma TruncExtends(sb: Super, e: Image, k: nat)
    ensures var t := AfterTrunc(sb, e, k).log; |e.log| <= |t| && t[..|e.log|] == e.log
  {
    if k < |e.inodes| {
      FreeExtends(sb, e, TreeBlocks(e.d, e.inodes[k]));
    }
  }

  // ----- Which sectors -----

  /** The sectors with the bits of these blocks, one for each block that is freed. */
  function BitSectors(sb: Super, ps: seq<nat>): seq<nat> {
    if ps == [] then []
    else
      var p := ps[|ps| - 1];
      BitSectors(sb, ps[..|ps| - 1]) + if p == 0 then [] else [BitBlock(sb, p)]
  }

  lemma {:induction false} FreeListed(sb: Super, e: Image, ps: seq<nat>)
    requires FreeList(sb, e, ps).ok
    ensures SectorList(FreeList(sb, e, ps).log) == SectorList(e.log) + BitSectors(sb, ps)
  {
    if ps != [] {
      var f, p := FreeList(sb, e, ps[..|ps| - 1]), ps[|ps| - 1];
      FreeListed(sb, e, ps[..|ps| - 1]);
      if p != 0 {
        ListOf(f.log, [Log.Write(BitBlock(sb, p), SetUsed(sb, f.d, p, false)[BitBlock(sb, p)])]);
      }
    }
  }

  /** A truncation logs the sectors with the bits, and then the one with the inode. */
  lemma TruncListed(sb: Super, e: Image, k: nat)
    requires e.ok && k < |e.inodes| && AfterTrunc(sb, e, k).ok && InodeBlock(k) < |e.d| && |e.d| == sb.size
    ensures SectorList(AfterTrunc(sb, e, k).log) ==
            SectorList(e.log) + BitSectors(sb, TreeBlocks(e.d, e.inodes[k])) + [InodeBlock(k)]
  {
    var ps := TreeBlocks(e.d, e.inodes[k]);
    var f := FreeList(sb, e, ps);
    FreeListed(sb, e, ps);
    FreeSize(sb, e, ps);
    var ip := Emptied(e.inodes[k]);
    ListOf(f.log, [Log.Write(InodeBlock(k), PutInode(f.d, k, ip)[InodeBlock(k)])]);
  }

  lemma {:induction false} FreeSize(sb: Super, e: Image, ps: seq<nat>)
    ensures |FreeList(sb, e, ps).d| == |e.d|
  {
    if ps != [] {
      FreeSize(sb, e, ps[..|ps| - 1]);
    }
  }

  // ----- No block is freed twice -----

  predicate NoRepeat(ps: seq<nat>) {
    forall i, j :: 0 <= i < j < |ps| && ps[i] != 0 ==> ps[i] != ps[j]
  }

  lemma NoRepeatJoin(a: seq<nat>, b: seq<nat>)
    requires NoRepeat(a) && NoRepeat(b) && forall x :: x in a && x in b ==> x == 0
    ensures NoRepeat(a + b)
  {
    forall i, j | 0 <= i < j < |a + b| && (a + b)[i] != 0 ensures (a + b)[i] != (a + b)[j] {
      assert i < |a| ==> (a + b)[i] in a;
      assert j >= |a| ==> (a + b)[j] in b;
    }
  }

  /** The numbers in the list belong to inode `k`, in slots that are at most this far in itrunc's order. */
  ghost predicate Belong(ps: seq<nat>, o: Owner, k: nat, lo: nat, hi: nat) {
    forall x {:trigger x in ps} :: x in ps && x != 0 ==> x in o && o[x].0 == k && lo <= Rank(o[x].1) < hi
  }

  /** Both, as one fact. */
  ghost function OnceOf(ps: seq<nat>, o: Owner, k: nat, lo: nat, hi: nat): Seal {
    if forall z: nat {:trigger Open(z)} :: Open(z) ==> NoRepeat(ps) && Belong(ps, o, k, lo, hi) then Known else Unknown
  }

  lemma OnceIs(ps: seq<nat>, o: Owner, k: nat, lo: nat, hi: nat)
    requires OnceOf(ps, o, k, lo, hi) == Known
    ensures NoRepeat(ps) && Belong(ps, o, k, lo, hi)
  {
    assert Open(0);
  }

  lemma JoinOnce(a: seq<nat>, b: seq<nat>, o: Owner, k: nat, lo: nat, mid: nat, hi: nat)
    requires OnceOf(a, o, k, lo, mid) == Known && OnceOf(b, o, k, mid, hi) == Known && lo <= mid <= hi
    ensures OnceOf(a + b, o, k, lo, hi) == Known
  {
    OnceIs(a, o, k, lo, mid);
    OnceIs(b, o, k, mid, hi);
    forall x | x in a && x in b ensures x == 0 {
    }
    NoRepeatJoin(a, b);
  }

  lemma NoneOnce(o: Owner, k: nat, lo: nat, hi: nat)
    ensures OnceOf([], o, k, lo, hi) == Known
  {
  }

  /** A list of numbers from different slots. */
  lemma SlotsOnce(sb: Super, d: Disk, inodes: seq<Inode>, o: Owner, k: nat, ps: seq<nat>, ss: seq<Slot>, lo: nat,
                  hi: nat)
    requires Sound(sb, d, inodes, o) && k < |inodes| && |ps| == |ss|
    requires forall i, j :: 0 <= i < j < |ss| ==> ss[i] != ss[j]
    requires forall i :: 0 <= i < |ss| ==> Legal(ss[i]) && ps[i] == Ptr(d, inodes[k], ss[i]) && lo <= Rank(ss[i]) < hi
    ensures OnceOf(ps, o, k, lo, hi) == Known
  {
  }

  function LeafSlots(i: nat): (ss: seq<Slot>)
    ensures |ss| == NINDIRECT + 1 && ss[NINDIRECT] == DoubleEntry(i)
    ensures forall j :: 0 <= j < NINDIRECT ==> ss[j] == Leaf(i, j)
  {
    seq(NINDIRECT + 1, (j: nat) => if j < NINDIRECT then Leaf(i, j) else DoubleEntry(i))
  }

  function SingleSlots(): (ss: seq<Slot>)
    ensures |ss| == NINDIRECT + 1 && ss[NINDIRECT] == Single
    ensures forall j :: 0 <= j < NINDIRECT ==> ss[j] == SingleEntry(j)
  {
    seq(NINDIRECT + 1, (j: nat) => if j < NINDIRECT then SingleEntry(j) else Single)
  }

  lemma EntryOnce(sb: Super, d: Disk, inodes: seq<Inode>, o: Owner, k: nat, i: nat)
    requires Sound(sb, d, inodes, o) && k < |inodes| && i < NINDIRECT
    ensures OnceOf(EntryBlocks(d, Ptr(d, inodes[k], DoubleEntry(i))), o, k, DoubleRank(i), DoubleRank(i + 1)) == Known
  {
    var q := Ptr(d, inodes[k], DoubleEntry(i));
    if q != 0 {
      SlotsOnce(sb, d, inodes, o, k, EntryBlocks(d, q), LeafSlots(i), DoubleRank(i), DoubleRank(i + 1));
    }
  }

  lemma {:induction false} SecondOnce(sb: Super, d: Disk, inodes: seq<Inode>, o: Owner, k: nat, qs: seq<nat>)
    requires Sound(sb, d, inodes, o) && k < |inodes| && |qs| <= NINDIRECT
    requires forall i: nat :: i < |qs| ==> qs[i] == Ptr(d, inodes[k], DoubleEntry(i))
    ensures OnceOf(SecondLevel(d, qs), o, k, DoubleRank(0), DoubleRank(|qs|)) == Known
  {
    if qs == [] {
      NoneOnce(o, k, DoubleRank(0), DoubleRank(0));
    } else {
      var n := |qs| - 1;
      SecondOnce(sb, d, inodes, o, k, qs[..n]);
      EntryOnce(sb, d, inodes, o, k, n);
      JoinOnce(SecondLevel(d, qs[..n]), EntryBlocks(d, qs[n]), o, k, DoubleRank(0), DoubleRank(n), DoubleRank(n + 1));
    }
  }

  lemma DoubleOnce(sb: Super, d: Disk, inodes: seq<Inode>, o: Owner, k: nat)
    requires Sound(sb, d, inodes, o) && k < |inodes|
    ensures OnceOf(DoubleBlocks(d, inodes[k].indirect2), o, k, DoubleRank(0), RANKS) == Known
  {
    var q := inodes[k].indirect2;
    if q == 0 {
      NoneOnce(o, k, DoubleRank(0), RANKS);
    } else {
      var ws := WordsOf(At(d, q));
      SecondOnce(sb, d, inodes, o, k, ws);
      SlotsOnce(sb, d, inodes, o, k, [q], [Double], DoubleRank(NINDIRECT), RANKS);
      JoinOnce(SecondLevel(d, ws), [q], o, k, DoubleRank(0), DoubleRank(NINDIRECT), RANKS);
    }
  }

  lemma DirectOnce(sb: Super, d: Disk, inodes: seq<Inode>, o: Owner, k: nat)
    requires Sound(sb, d, inodes, o) && k < |inodes|
    ensures OnceOf(inodes[k].addrs[..NDIRECT], o, k, 0, NDIRECT) == Known
  {
    SlotsOnce(sb, d, inodes, o, k, inodes[k].addrs[..NDIRECT], seq(NDIRECT, (i: nat) => Direct(i)), 0, NDIRECT);
  }

  lemma SingleOnce(sb: Super, d: Disk, inodes: seq<Inode>, o: Owner, k: nat)
    requires Sound(sb, d, inodes, o) && k < |inodes|
    ensures OnceOf(EntryBlocks(d, inodes[k].addrs[NDIRECT]), o, k, NDIRECT, DoubleRank(0)) == Known
  {
    var q := inodes[k].addrs[NDIRECT];
    if q == 0 {
      NoneOnce(o, k, NDIRECT, DoubleRank(0));
    } else {
      SlotsOnce(sb, d, inodes, o, k, EntryBlocks(d, q), SingleSlots(), NDIRECT, DoubleRank(0));
    }
  }

  /** Every block of the tree is in itrunc's list once. */
  lemma TreeOnce(sb: Super, d: Disk, inodes: seq<Inode>, o: Owner, k: nat)
    requires Sound(sb, d, inodes, o) && k < |inodes|
    ensures var ps := TreeBlocks(d, inodes[k]); NoRepeat(ps) && Belong(ps, o, k, 0, RANKS)
  {
    var ip := inodes[k];
    DirectOnce(sb, d, inodes, o, k);
    SingleOnce(sb, d, inodes, o, k);
    DoubleOnce(sb, d, inodes, o, k);
    JoinOnce(ip.addrs[..NDIRECT], EntryBlocks(d, ip.addrs[NDIRECT]), o, k, 0, NDIRECT, DoubleRank(0));
    JoinOnce(ip.addrs[..NDIRECT] + EntryBlocks(d, ip.addrs[NDIRECT]), DoubleBlocks(d, ip.indirect2), o, k,
             0, DoubleRank(0), RANKS);
    OnceIs(TreeBlocks(d, ip), o, k, 0, RANKS);
  }

  ghost predicate UsedAll(sb: Super, d: Disk, ps: seq<nat>) {
    && |d| == sb.size && DataStart(sb) <= sb.size
    && forall x {:trigger x in ps} :: x in ps && x != 0 ==> x < sb.size && Used(sb, d, x)
  }

  /** bfree does not panic, and no bit changes but those of the list. */
  lemma {:induction false} FreeOk(sb: Super, e: Image, ps: seq<nat>, n: nat)
    requires e.ok && UsedAll(sb, e.d, ps) && NoRepeat(ps) && n <= |ps|
    ensures var f := FreeList(sb, e, ps[..n]);
            && f.ok && |f.d| == |e.d|
            && forall x {:trigger Used(sb, f.d, x)} :: 0 <= x < sb.size ==>
                 (Used(sb, f.d, x) <==> Used(sb, e.d, x) && !(x != 0 && x in ps[..n]))
  {
    if n > 0 {
      FreeOk(sb, e, ps, n - 1);
      var p := ps[n - 1];
      assert ps[..n] == ps[..n - 1] + [p];
      FreeMore(sb, e, ps[..n - 1], p);
      if p != 0 {
        assert p in ps;
        UsedAfter(sb, FreeList(sb, e, ps[..n - 1]).d, p, false);
      }
    }
  }

  /** The panic for a free block is unreachable in itrunc. */
  lemma TruncOk(sb: Super, e: Image, o: Owner, k: nat)
    requires e.ok && Sound(sb, e.d, e.inodes, o) && k < |e.inodes|
    ensures AfterTrunc(sb, e, k).ok
  {
    var ps := TreeBlocks(e.d, e.inodes[k]);
    TreeOnce(sb, e.d, e.inodes, o, k);
    forall x | x in ps && x != 0 ensures x < sb.size && Used(sb, e.d, x) {
      assert OwnsAt(sb, e.d, e.inodes, o, x);
    }
    FreeOk(sb, e, ps, |ps|);
    assert ps[..|ps|] == ps;
  }
}

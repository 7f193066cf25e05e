/** How itrunc uses the buffers.  One or two pointer blocks are held while bfree logs the sectors of the
    free map, and the buffers of these cannot be recycled either; so itrunc can run out of buffers while
    the log still has room, and whether it does depends on where the blocks of the file lie. */
module TruncTrail {
  import opened Blocks
  import opened Counting
  import opened Files
  import opened FileBytes
  import opened FileSteps
  import opened DiskInodes
  import opened FileLog
  import opened Buffers
  import opened FileTrail
  import opened TruncLog
  import opened Sealed
  import Log

  // ----- The log_writes -----

  lemma {:induction false} BitsJoin(sb: Super, a: seq<nat>, b: seq<nat>)
    ensures BitSectors(sb, a + b) == BitSectors(sb, a) + BitSectors(sb, b)
  {
    if b == [] {
      assert a + b == a;
    } else {
      var n := |b| - 1;
      BitsJoin(sb, a, b[..n]);
      assert (a + b)[..|a + b| - 1] == a + b[..n];
    }
  }

  lemma OneBit(sb: Super, p: nat)
    ensures BitSectors(sb, [p]) == if p == 0 then [] else [BitBlock(sb, p)]
  {
    assert [p][..0] == [];
    assert BitSectors(sb, [p][..0]) == [];
  }

  lemma FreePuts(tr: Trail, sb: Super, p: nat)
    ensures Puts(FreeOn(tr, sb, p)) == Puts(tr) + BitSectors(sb, [p])
  {
    OneBit(sb, p);
    assert Puts(Then(tr, Read(1))) == Puts(tr);
  }

  lemma {:induction false} FreesPuts(tr: Trail, sb: Super, ps: seq<nat>)
    ensures Puts(FreesOn(tr, sb, ps)) == Puts(tr) + BitSectors(sb, ps)
  {
    if ps != [] {
      var n := |ps| - 1;
      FreesPuts(tr, sb, ps[..n]);
      FreePuts(FreesOn(tr, sb, ps[..n]), sb, ps[n]);
      BitsJoin(sb, ps[..n], [ps[n]]);
      assert ps == ps[..n] + [ps[n]];
    }
  }

  lemma HeldPuts(tr: Trail, sb: Super, q: nat, inner: Trail, ps: seq<nat>)
    requires Puts(inner) == BitSectors(sb, ps)
    ensures Puts(FreeOn(Then(tr, Under(q, inner, false)), sb, q)) == Puts(tr) + BitSectors(sb, ps + [q])
  {
    FreePuts(Then(tr, Under(q, inner, false)), sb, q);
    BitsJoin(sb, ps, [q]);
  }

  lemma EntryPuts(tr: Trail, sb: Super, d: Disk, q: nat)
    ensures Puts(EntryOn(tr, sb, d, q)) == Puts(tr) + BitSectors(sb, EntryBlocks(d, q))
  {
    if q != 0 {
      FreesPuts(Start, sb, WordsOf(At(d, q)));
      HeldPuts(tr, sb, q, FreesOn(Start, sb, WordsOf(At(d, q))), WordsOf(At(d, q)));
    }
  }

  lemma {:induction false} SecondPuts(tr: Trail, sb: Super, d: Disk, qs: seq<nat>)
    ensures Puts(SecondOn(tr, sb, d, qs)) == Puts(tr) + BitSectors(sb, SecondLevel(d, qs))
  {
    if qs != [] {
      var n := |qs| - 1;
      SecondPuts(tr, sb, d, qs[..n]);
      EntryPuts(SecondOn(tr, sb, d, qs[..n]), sb, d, qs[n]);
      BitsJoin(sb, SecondLevel(d, qs[..n]), EntryBlocks(d, qs[n]));
    }
  }

  lemma DoublePuts(tr: Trail, sb: Super, d: Disk, q: nat)
    ensures Puts(DoubleOn(tr, sb, d, q)) == Puts(tr) + BitSectors(sb, DoubleBlocks(d, q))
  {
    if q != 0 {
      SecondPuts(Start, sb, d, WordsOf(At(d, q)));
      HeldPuts(tr, sb, q, SecondOn(Start, sb, d, WordsOf(At(d, q))), SecondLevel(d, WordsOf(At(d, q))));
    }
  }

  /** itrunc's log_writes are those of its list of blocks. */
  lemma TreePuts(tr: Trail, sb: Super, d: Disk, ip: Inode)
    ensures Puts(TreeOn(tr, sb, d, ip)) == Puts(tr) + BitSectors(sb, TreeBlocks(d, ip))
  {
    var ds := DoubleBlocks(d, ip.indirect2);
    if |ip.addrs| == NDIRECT + 1 {
      var direct, q := ip.addrs[..NDIRECT], ip.addrs[NDIRECT];
      SinglePuts(tr, sb, d, direct, q);
      DoublePuts(EntryOn(FreesOn(tr, sb, direct), sb, d, q), sb, d, ip.indirect2);
      BitsJoin(sb, direct + EntryBlocks(d, q), ds);
    } else {
      DoublePuts(tr, sb, d, ip.indirect2);
      assert TreeBlocks(d, ip) == ds;
    }
  }

  lemma SinglePuts(tr: Trail, sb: Super, d: Disk, direct: seq<nat>, q: nat)
    ensures Puts(EntryOn(FreesOn(tr, sb, direct), sb, d, q)) ==
            Puts(tr) + BitSectors(sb, direct + EntryBlocks(d, q))
  {
    FreesPuts(tr, sb, direct);
    EntryPuts(FreesOn(tr, sb, direct), sb, d, q);
    BitsJoin(sb, direct, EntryBlocks(d, q));
  }

  // ----- Which sectors, and how many buffers -----

  /** The pointer blocks that are held while the block in this slot is freed. */
  function Depth(s: Slot): nat {
    match s
    case Leaf(_, _) => 2
    case SingleEntry(_) => 1
    case DoubleEntry(_) => 1
    case _ => 0
  }

  /** Inode `k`'s blocks are freed, with `nbuf` buffers, when the sectors `start` have been logged. */
  datatype Drop = Drop(nbuf: nat, sb: Super, o: Owner, k: nat, start: set<nat>)

  /** The sectors with the bits of the inode's blocks in slots before place `r` in itrunc's order. */
  ghost function BitsBelow(c: Drop, r: nat): set<nat> {
    set b | b in c.o && c.o[b].0 == c.k && Rank(c.o[b].1) < r :: BitBlock(c.sb, b)
  }

  /** The sectors that are logged when that place is reached. */
  ghost function LoggedBelow(c: Drop, r: nat): set<nat> {
    c.start + BitsBelow(c, r)
  }

  /** When block `b` is freed there is a buffer besides those of the sectors logged so far and its own,
      and of the pointer blocks that are held. */
  ghost predicate RoomAt(c: Drop, b: nat)
    requires b in c.o
  {
    |LoggedBelow(c, Rank(c.o[b].1) + 1)| + Depth(c.o[b].1) + 1 <= c.nbuf
  }

  ghost predicate RoomBetween(c: Drop, lo: nat, hi: nat) {
    forall b {:trigger RoomAt(c, b)} ::
      b in c.o && c.o[b].0 == c.k && lo <= Rank(c.o[b].1) < hi ==> RoomAt(c, b)
  }

  /** And so for all of its blocks. */
  ghost predicate RoomForAll(c: Drop) {
    forall b {:trigger RoomAt(c, b)} :: b in c.o && c.o[b].0 == c.k ==> RoomAt(c, b)
  }

  /** Number `p` is what the inode has at place `r`, under `h` pointer blocks. */
  ghost predicate OnlyAt(c: Drop, r: nat, p: nat, h: nat) {
    && (p != 0 ==> p in c.o && c.o[p].0 == c.k && Rank(c.o[p].1) == r && Depth(c.o[p].1) == h)
    && forall b {:trigger c.o[b]} :: b in c.o && c.o[b].0 == c.k && Rank(c.o[b].1) == r ==> b == p && p != 0
  }

  ghost function PlaceAt(c: Drop, r: nat, p: nat, h: nat): Seal {
    if forall z: nat {:trigger OpenPlace(z, r, p)} :: OpenPlace(z, r, p) ==> OnlyAt(c, r, p, h) then Known else Unknown
  }

  predicate OpenPlace(z: nat, r: nat, p: nat) {
    true
  }

  lemma PlaceIs(c: Drop, r: nat, p: nat, h: nat)
    requires PlaceAt(c, r, p, h) == Known
    ensures OnlyAt(c, r, p, h)
  {
    assert OpenPlace(0, r, p);
  }

  /** The bits are in front of the data, and the held pointer blocks are not among the logged sectors. */
  ghost predicate Apart(c: Drop, held: set<nat>) {
    && (forall b {:trigger c.o[b]} :: b in c.o && c.o[b].0 == c.k ==> BitBlock(c.sb, b) < DataStart(c.sb))
    && forall x :: x in held ==> DataStart(c.sb) <= x && x !in c.start
  }

  ghost function ApartOf(c: Drop, held: set<nat>): Seal {
    if forall z: nat {:trigger OpenHeld(z, held)} :: OpenHeld(z, held) ==> Apart(c, held) then Known else Unknown
  }

  predicate OpenHeld(z: nat, held: set<nat>) {
    true
  }

  lemma ApartIs(c: Drop, held: set<nat>)
    requires ApartOf(c, held) == Known
    ensures Apart(c, held)
  {
    assert OpenHeld(0, held);
  }

  /** The places lo..hi are visited at the end of this trail; before that all went well if `base` holds. */
  ghost predicate Visits(c: Drop, t: seq<nat>, held: set<nat>, tr: Trail, base: bool, lo: nat, hi: nat) {
    && Elements(t + Puts(tr)) == LoggedBelow(c, hi)
    && (Slots(c.nbuf, t, held, tr) <==> base && RoomBetween(c, lo, hi))
  }

  ghost function Segment(c: Drop, t: seq<nat>, held: set<nat>, tr: Trail, base: bool, lo: nat, hi: nat): Seal {
    if forall z: nat {:trigger OpenPart(z, tr, hi)} :: OpenPart(z, tr, hi) ==> Visits(c, t, held, tr, base, lo, hi)
    then Known else Unknown
  }

  predicate OpenPart(z: nat, tr: Trail, hi: nat) {
    true
  }

  lemma SegmentIs(c: Drop, t: seq<nat>, held: set<nat>, tr: Trail, base: bool, lo: nat, hi: nat)
    requires Segment(c, t, held, tr, base, lo, hi) == Known
    ensures Visits(c, t, held, tr, base, lo, hi)
  {
    assert OpenPart(0, tr, hi);
  }

  lemma LoggedNext(c: Drop, r: nat, p: nat, h: nat)
    requires PlaceAt(c, r, p, h) == Known
    ensures LoggedBelow(c, r + 1) == LoggedBelow(c, r) + if p == 0 then {} else {BitBlock(c.sb, p)}
  {
    PlaceIs(c, r, p, h);
    forall x | x in BitsBelow(c, r + 1) ensures x in BitsBelow(c, r) || (p != 0 && x == BitBlock(c.sb, p)) {
      var b :| b in c.o && c.o[b].0 == c.k && Rank(c.o[b].1) < r + 1 && x == BitBlock(c.sb, b);
    }
    if p != 0 {
      assert p in c.o;
    }
  }

  lemma RoomNext(c: Drop, lo: nat, r: nat, p: nat, h: nat)
    requires PlaceAt(c, r, p, h) == Known && lo <= r
    ensures p != 0 ==> p in c.o
    ensures RoomBetween(c, lo, r + 1) <==> RoomBetween(c, lo, r) && (p != 0 ==> RoomAt(c, p))
  {
    PlaceIs(c, r, p, h);
    if RoomBetween(c, lo, r + 1) && p != 0 {
      assert p in c.o;
    }
  }

  lemma BitsApart(c: Drop, held: set<nat>, r: nat)
    requires Apart(c, held)
    ensures |LoggedBelow(c, r) + held| == |LoggedBelow(c, r)| + |held|
  {
    forall x | x in BitsBelow(c, r) ensures x !in held {
      var b :| b in c.o && c.o[b].0 == c.k && Rank(c.o[b].1) < r && x == BitBlock(c.sb, b);
    }
    assert LoggedBelow(c, r) !! held;
  }

  /** The buffers that bfree of `p` needs. */
  lemma SlotNeeds(c: Drop, u: seq<nat>, held: set<nat>, r: nat, p: nat)
    requires PlaceAt(c, r, p, |held|) == Known && p != 0 && ApartOf(c, held) == Known
    requires Elements(u) == LoggedBelow(c, r)
    ensures p in c.o && (FindsSlot(c.nbuf, u, held + {BitBlock(c.sb, p)}) <==> RoomAt(c, p))
  {
    PlaceIs(c, r, p, |held|);
    ApartIs(c, held);
    LoggedNext(c, r, p, |held|);
    BitsApart(c, held, r + 1);
    assert c.o[p].0 == c.k && Rank(c.o[p].1) == r && Depth(c.o[p].1) == |held|;
    assert Elements(u) + (held + {BitBlock(c.sb, p)}) == LoggedBelow(c, r + 1) + held;
  }

  lemma FreeVisit(c: Drop, t: seq<nat>, held: set<nat>, tr: Trail, base: bool, lo: nat, r: nat, p: nat)
    requires Segment(c, t, held, tr, base, lo, r) == Known && lo <= r
    requires PlaceAt(c, r, p, |held|) == Known && ApartOf(c, held) == Known
    ensures Segment(c, t, held, FreeOn(tr, c.sb, p), base, lo, r + 1) == Known
  {
    SegmentIs(c, t, held, tr, base, lo, r);
    LoggedNext(c, r, p, |held|);
    RoomNext(c, lo, r, p, |held|);
    if p != 0 {
      SlotNeeds(c, t + Puts(tr), held, r, p);
      FreeSlots(c.nbuf, t, held, tr, BitBlock(c.sb, p));
      FreeElements(t, tr, BitBlock(c.sb, p));
    }
  }

  lemma FreeElements(t: seq<nat>, tr: Trail, x: nat)
    ensures Elements(t + Puts(Then(Then(tr, Read(1)), Store(x)))) == Elements(t + Puts(tr)) + {x}
  {
    assert Puts(Then(tr, Read(1))) == Puts(tr);
    assert Puts(Then(Then(tr, Read(1)), Store(x))) == Puts(tr) + [x];
  }

  lemma FreeSlots(nbuf: nat, t: seq<nat>, held: set<nat>, tr: Trail, x: nat)
    ensures Slots(nbuf, t, held, Then(Then(tr, Read(1)), Store(x))) <==>
            Slots(nbuf, t, held, tr) && FindsSlot(nbuf, t + Puts(tr), held + {x})
  {
    var tr1 := Then(tr, Read(1));
    assert Puts(tr1) == Puts(tr);
    assert Slots(nbuf, t, held, tr1) <==> Slots(nbuf, t, held, tr);
    assert Slots(nbuf, t, held, Then(tr1, Store(x))) <==>
           Slots(nbuf, t, held, tr1) && SlotsOf(nbuf, t + Puts(tr1), held, Store(x));
  }

  lemma UnderSlots(nbuf: nat, t: seq<nat>, held: set<nat>, tr: Trail, q: nat, inner: Trail)
    ensures Slots(nbuf, t, held, Then(tr, Under(q, inner, false))) <==>
            Slots(nbuf, t, held, tr) && Slots(nbuf, t + Puts(tr), held + {q}, inner)
  {
    assert SlotsOf(nbuf, t + Puts(tr), held, Under(q, inner, false)) <==>
           Slots(nbuf, t + Puts(tr), held + {q}, inner);
  }

  lemma {:induction false} FreesSegment(c: Drop, t: seq<nat>, held: set<nat>, tr: Trail, base: bool, lo: nat, r: nat,
                                        ps: seq<nat>)
    requires Segment(c, t, held, tr, base, lo, r) == Known && lo <= r && ApartOf(c, held) == Known
    requires forall i {:trigger ps[i]} :: 0 <= i < |ps| ==> PlaceAt(c, r + i, ps[i], |held|) == Known
    ensures Segment(c, t, held, FreesOn(tr, c.sb, ps), base, lo, r + |ps|) == Known
  {
    if ps != [] {
      var n := |ps| - 1;
      forall i | 0 <= i < n ensures PlaceAt(c, r + i, ps[..n][i], |held|) == Known {
        assert ps[..n][i] == ps[i];
      }
      FreesSegment(c, t, held, tr, base, lo, r, ps[..n]);
      FreeVisit(c, t, held, FreesOn(tr, c.sb, ps[..n]), base, lo, r + n, ps[n]);
    }
  }

  lemma UnderSegment(c: Drop, t: seq<nat>, held: set<nat>, tr: Trail, base: bool, q: nat, inner: Trail,
                     lo: nat, mid: nat, hi: nat)
    requires Segment(c, t, held, tr, base, lo, mid) == Known && lo <= mid <= hi
    requires Segment(c, t + Puts(tr), held + {q}, inner, true, mid, hi) == Known
    ensures Segment(c, t, held, Then(tr, Under(q, inner, false)), base, lo, hi) == Known
  {
    SegmentIs(c, t, held, tr, base, lo, mid);
    SegmentIs(c, t + Puts(tr), held + {q}, inner, true, mid, hi);
    UnderSlots(c.nbuf, t, held, tr, q, inner);
    assert t + Puts(Then(tr, Under(q, inner, false))) == t + Puts(tr) + Puts(inner);
    assert RoomBetween(c, lo, hi) <==> RoomBetween(c, lo, mid) && RoomBetween(c, mid, hi);
  }

  /** Nothing is at these places. */
  ghost predicate Gap(c: Drop, lo: nat, hi: nat) {
    forall b {:trigger c.o[b]} :: b in c.o && c.o[b].0 == c.k ==> !(lo <= Rank(c.o[b].1) < hi)
  }

  lemma GapSegment(c: Drop, t: seq<nat>, held: set<nat>, tr: Trail, base: bool, lo: nat, mid: nat, hi: nat)
    requires Segment(c, t, held, tr, base, lo, mid) == Known && lo <= mid <= hi && Gap(c, mid, hi)
    ensures Segment(c, t, held, tr, base, lo, hi) == Known
  {
    SegmentIs(c, t, held, tr, base, lo, mid);
    forall x | x in BitsBelow(c, hi) ensures x in BitsBelow(c, mid) {
      var b :| b in c.o && c.o[b].0 == c.k && Rank(c.o[b].1) < hi && x == BitBlock(c.sb, b);
    }
    forall x | x in BitsBelow(c, mid) ensures x in BitsBelow(c, hi) {
      var b :| b in c.o && c.o[b].0 == c.k && Rank(c.o[b].1) < mid && x == BitBlock(c.sb, b);
    }
    assert RoomBetween(c, lo, hi) <==> RoomBetween(c, lo, mid);
  }

  lemma EmptySegment(c: Drop, t: seq<nat>, held: set<nat>, tr: Trail, r: nat)
    requires Elements(t + Puts(tr)) == LoggedBelow(c, r)
    ensures Segment(c, t, held, tr, Slots(c.nbuf, t, held, tr), r, r) == Known
  {
  }

  /** What comes after a trail starts where the trail ends. */
  lemma InnerSegment(c: Drop, t: seq<nat>, held: set<nat>, tr: Trail, base: bool, lo: nat, r: nat, held': set<nat>)
    requires Segment(c, t, held, tr, base, lo, r) == Known
    ensures Segment(c, t + Puts(tr), held', Start, true, r, r) == Known
  {
    SegmentIs(c, t, held, tr, base, lo, r);
    assert t + Puts(tr) + Puts(Start) == t + Puts(tr);
    EmptySegment(c, t + Puts(tr), held', Start, r);
  }

  /** A pointer block at place `r + |ps|` and the blocks below it. */
  lemma HeldSegment(c: Drop, t: seq<nat>, held: set<nat>, tr: Trail, base: bool, lo: nat, r: nat, q: nat,
                    ps: seq<nat>)
    requires Segment(c, t, held, tr, base, lo, r) == Known && lo <= r
    requires ApartOf(c, held) == Known && ApartOf(c, held + {q}) == Known && q !in held
    requires forall i {:trigger ps[i]} :: 0 <= i < |ps| ==> PlaceAt(c, r + i, ps[i], |held| + 1) == Known
    requires PlaceAt(c, r + |ps|, q, |held|) == Known
    ensures Segment(c, t, held, FreeOn(Then(tr, Under(q, FreesOn(Start, c.sb, ps), false)), c.sb, q), base, lo,
                    r + |ps| + 1) == Known
  {
    InnerSegment(c, t, held, tr, base, lo, r, held + {q});
    FreesSegment(c, t + Puts(tr), held + {q}, Start, true, r, r, ps);
    UnderSegment(c, t, held, tr, base, q, FreesOn(Start, c.sb, ps), lo, r, r + |ps|);
    FreeVisit(c, t, held, Then(tr, Under(q, FreesOn(Start, c.sb, ps), false)), base, lo, r + |ps|, q);
  }

  // ----- The whole tree -----

  /** A sound file system in which none of the pointer blocks has been logged. */
  ghost predicate Ready(c: Drop, d: Disk, inodes: seq<Inode>) {
    && Sound(c.sb, d, inodes, c.o) && c.k < |inodes|
    && forall b {:trigger c.o[b]} :: b in c.o && HoldsPointers(c.o[b].1) ==> b !in c.start
  }

  lemma PlaceOfSlot(c: Drop, d: Disk, inodes: seq<Inode>, s: Slot)
    requires Ready(c, d, inodes) && Legal(s)
    ensures PlaceAt(c, Rank(s), Ptr(d, inodes[c.k], s), Depth(s)) == Known
  {
    forall b | b in c.o && c.o[b].0 == c.k && Rank(c.o[b].1) == Rank(s) ensures b == Ptr(d, inodes[c.k], s) != 0 {
      assert OwnsAt(c.sb, d, inodes, c.o, b);
      RankInjective(c.o[b].1, s);
    }
  }

  lemma HeldApart(c: Drop, d: Disk, inodes: seq<Inode>, held: set<nat>)
    requires Ready(c, d, inodes) && forall x :: x in held ==> x in c.o && HoldsPointers(c.o[x].1)
    ensures ApartOf(c, held) == Known
  {
    forall b | b in c.o ensures DataStart(c.sb) <= b && BitBlock(c.sb, b) < DataStart(c.sb) {
      assert OwnsAt(c.sb, d, inodes, c.o, b);
    }
  }

  lemma SlotGap(c: Drop, d: Disk, inodes: seq<Inode>, lo: nat, hi: nat)
    requires Ready(c, d, inodes)
    requires forall s {:trigger Rank(s)} :: Legal(s) && lo <= Rank(s) < hi ==> Ptr(d, inodes[c.k], s) == 0
    ensures Gap(c, lo, hi)
  {
    forall b | b in c.o && c.o[b].0 == c.k ensures !(lo <= Rank(c.o[b].1) < hi) {
      assert OwnsAt(c.sb, d, inodes, c.o, b);
    }
  }

  lemma PlaceOwned(c: Drop, d: Disk, inodes: seq<Inode>, s: Slot)
    requires Ready(c, d, inodes) && Legal(s) && Ptr(d, inodes[c.k], s) != 0
    ensures Ptr(d, inodes[c.k], s) in c.o && c.o[Ptr(d, inodes[c.k], s)] == (c.k, s)
  {
  }

  lemma DirectSegment(c: Drop, d: Disk, inodes: seq<Inode>, t: seq<nat>, tr: Trail, base: bool)
    requires Ready(c, d, inodes) && Segment(c, t, {}, tr, base, 0, 0) == Known
    ensures Segment(c, t, {}, FreesOn(tr, c.sb, inodes[c.k].addrs[..NDIRECT]), base, 0, NDIRECT) == Known
  {
    var ps := inodes[c.k].addrs[..NDIRECT];
    HeldApart(c, d, inodes, {});
    forall i | 0 <= i < |ps| ensures PlaceAt(c, 0 + i, ps[i], 0) == Known {
      PlaceOfSlot(c, d, inodes, Direct(i));
    }
    FreesSegment(c, t, {}, tr, base, 0, 0, ps);
  }

  lemma SingleSegment(c: Drop, d: Disk, inodes: seq<Inode>, t: seq<nat>, tr: Trail, base: bool)
    requires Ready(c, d, inodes) && Segment(c, t, {}, tr, base, 0, NDIRECT) == Known
    ensures Segment(c, t, {}, EntryOn(tr, c.sb, d, inodes[c.k].addrs[NDIRECT]), base, 0, DoubleRank(0)) == Known
  {
    var q := inodes[c.k].addrs[NDIRECT];
    assert q == Ptr(d, inodes[c.k], Single);
    if q == 0 {
      forall s | Legal(s) && NDIRECT <= Rank(s) < DoubleRank(0) ensures Ptr(d, inodes[c.k], s) == 0 {
      }
      SlotGap(c, d, inodes, NDIRECT, DoubleRank(0));
      GapSegment(c, t, {}, tr, base, 0, NDIRECT, DoubleRank(0));
    } else {
      var ps := WordsOf(At(d, q));
      PlaceOwned(c, d, inodes, Single);
      HeldApart(c, d, inodes, {});
      HeldApart(c, d, inodes, {} + {q});
      PlaceOfSlot(c, d, inodes, Single);
      forall i | 0 <= i < |ps| ensures PlaceAt(c, NDIRECT + i, ps[i], 1) == Known {
        PlaceOfSlot(c, d, inodes, SingleEntry(i));
      }
      HeldSegment(c, t, {}, tr, base, 0, NDIRECT, q, ps);
    }
  }

  lemma EntrySegment(c: Drop, d: Disk, inodes: seq<Inode>, t: seq<nat>, q2: nat, tr: Trail, lo: nat, i: nat)
    requires Ready(c, d, inodes) && i < NINDIRECT && q2 == Ptr(d, inodes[c.k], Double) != 0 && lo <= DoubleRank(i)
    requires Segment(c, t, {q2}, tr, true, lo, DoubleRank(i)) == Known
    ensures Segment(c, t, {q2}, EntryOn(tr, c.sb, d, Ptr(d, inodes[c.k], DoubleEntry(i))), true, lo,
                    DoubleRank(i + 1)) == Known
  {
    var q := Ptr(d, inodes[c.k], DoubleEntry(i));
    if q == 0 {
      LeafGap(c, d, inodes, i);
      GapSegment(c, t, {q2}, tr, true, lo, DoubleRank(i), DoubleRank(i + 1));
    } else {
      var ps := WordsOf(At(d, q));
      PlaceOwned(c, d, inodes, Double);
      PlaceOwned(c, d, inodes, DoubleEntry(i));
      HeldApart(c, d, inodes, {q2});
      HeldApart(c, d, inodes, {q2} + {q});
      PlaceOfSlot(c, d, inodes, DoubleEntry(i));
      forall j | 0 <= j < |ps| ensures PlaceAt(c, DoubleRank(i) + j, ps[j], |{q2}| + 1) == Known {
        PlaceOfSlot(c, d, inodes, Leaf(i, j));
      }
      HeldSegment(c, t, {q2}, tr, true, lo, DoubleRank(i), q, ps);
    }
  }

  lemma LeafGap(c: Drop, d: Disk, inodes: seq<Inode>, i: nat)
    requires Ready(c, d, inodes) && i < NINDIRECT && Ptr(d, inodes[c.k], DoubleEntry(i)) == 0
    ensures Gap(c, DoubleRank(i), DoubleRank(i + 1))
  {
    forall s | Legal(s) && DoubleRank(i) <= Rank(s) < DoubleRank(i + 1) ensures Ptr(d, inodes[c.k], s) == 0 {
      assert s == DoubleEntry(i) || (s.Leaf? && s.i == i);
    }
    SlotGap(c, d, inodes, DoubleRank(i), DoubleRank(i + 1));
  }

  lemma {:induction false} SecondSegment(c: Drop, d: Disk, inodes: seq<Inode>, t: seq<nat>, q2: nat, qs: seq<nat>)
    requires Ready(c, d, inodes) && |qs| <= NINDIRECT && q2 == Ptr(d, inodes[c.k], Double) != 0
    requires forall i: nat {:trigger qs[i]} :: i < |qs| ==> qs[i] == Ptr(d, inodes[c.k], DoubleEntry(i))
    requires Segment(c, t, {q2}, Start, true, DoubleRank(0), DoubleRank(0)) == Known
    ensures Segment(c, t, {q2}, SecondOn(Start, c.sb, d, qs), true, DoubleRank(0), DoubleRank(|qs|)) == Known
  {
    if qs != [] {
      var n := |qs| - 1;
      SecondSegment(c, d, inodes, t, q2, qs[..n]);
      EntrySegment(c, d, inodes, t, q2, SecondOn(Start, c.sb, d, qs[..n]), DoubleRank(0), n);
    }
  }

  lemma DoubleGap(c: Drop, d: Disk, inodes: seq<Inode>)
    requires Ready(c, d, inodes) && inodes[c.k].indirect2 == 0
    ensures Gap(c, DoubleRank(0), RANKS)
  {
    forall s | Legal(s) && DoubleRank(0) <= Rank(s) < RANKS ensures Ptr(d, inodes[c.k], s) == 0 {
      assert s.Double? || s.DoubleEntry? || s.Leaf?;
    }
    SlotGap(c, d, inodes, DoubleRank(0), RANKS);
  }

  lemma DoubleSegment(c: Drop, d: Disk, inodes: seq<Inode>, t: seq<nat>, tr: Trail, base: bool)
    requires Ready(c, d, inodes) && Segment(c, t, {}, tr, base, 0, DoubleRank(0)) == Known
    ensures Segment(c, t, {}, DoubleOn(tr, c.sb, d, inodes[c.k].indirect2), base, 0, RANKS) == Known
  {
    var q := inodes[c.k].indirect2;
    if q == 0 {
      DoubleGap(c, d, inodes);
      GapSegment(c, t, {}, tr, base, 0, DoubleRank(0), RANKS);
    } else {
      var inner := SecondOn(Start, c.sb, d, WordsOf(At(d, q)));
      DoubleUnder(c, d, inodes, t, tr, base);
      HeldApart(c, d, inodes, {});
      PlaceOfSlot(c, d, inodes, Double);
      FreeVisit(c, t, {}, Then(tr, Under(q, inner, false)), base, 0, DoubleRank(NINDIRECT), q);
    }
  }

  lemma DoubleUnder(c: Drop, d: Disk, inodes: seq<Inode>, t: seq<nat>, tr: Trail, base: bool)
    requires Ready(c, d, inodes) && inodes[c.k].indirect2 != 0
    requires Segment(c, t, {}, tr, base, 0, DoubleRank(0)) == Known
    ensures var q := inodes[c.k].indirect2;
            Segment(c, t, {}, Then(tr, Under(q, SecondOn(Start, c.sb, d, WordsOf(At(d, q))), false)), base, 0,
                    DoubleRank(NINDIRECT)) == Known
  {
    var q := inodes[c.k].indirect2;
    var qs := WordsOf(At(d, q));
    InnerSegment(c, t, {}, tr, base, 0, DoubleRank(0), {q});
    forall i: nat | i < |qs| ensures qs[i] == Ptr(d, inodes[c.k], DoubleEntry(i)) {
    }
    SecondSegment(c, d, inodes, t + Puts(tr), q, qs);
    assert {} + {q} == {q};
    UnderSegment(c, t, {}, tr, base, q, SecondOn(Start, c.sb, d, qs), 0, DoubleRank(0), DoubleRank(NINDIRECT));
  }

  /** The sectors of the free map that have bits of inode `k`'s blocks. */
  ghost function BitsOwned(sb: Super, o: Owner, k: nat): set<nat> {
    set b | b in o && o[b].0 == k :: BitBlock(sb, b)
  }

  lemma AllBelow(c: Drop, d: Disk, inodes: seq<Inode>)
    requires Sound(c.sb, d, inodes, c.o)
    ensures BitsBelow(c, RANKS) == BitsOwned(c.sb, c.o, c.k)
    ensures forall b :: b in c.o ==> Rank(c.o[b].1) < RANKS
  {
    forall b | b in c.o ensures Rank(c.o[b].1) < RANKS {
      assert OwnsAt(c.sb, d, inodes, c.o, b);
    }
  }

  /** itrunc after the log_writes in `tr`: there is a buffer at each of its log_writes if and only if
      there is one for each of the inode's blocks. */
  lemma TreeSegment(c: Drop, d: Disk, inodes: seq<Inode>, tr: Trail)
    requires Ready(c, d, inodes) && c.start == Elements(Puts(tr))
    ensures var tr' := TreeOn(tr, c.sb, d, inodes[c.k]);
            && (Slots(c.nbuf, [], {}, tr') <==> Slots(c.nbuf, [], {}, tr) && RoomForAll(c))
            && Elements(Puts(tr')) == c.start + BitsOwned(c.sb, c.o, c.k)
  {
    var base, ip := Slots(c.nbuf, [], {}, tr), inodes[c.k];
    assert [] + Puts(tr) == Puts(tr);
    assert BitsBelow(c, 0) == {};
    EmptySegment(c, [], {}, tr, 0);
    DirectSegment(c, d, inodes, [], tr, base);
    SingleSegment(c, d, inodes, [], FreesOn(tr, c.sb, ip.addrs[..NDIRECT]), base);
    DoubleSegment(c, d, inodes, [], EntryOn(FreesOn(tr, c.sb, ip.addrs[..NDIRECT]), c.sb, d, ip.addrs[NDIRECT]), base);
    var tr' := TreeOn(tr, c.sb, d, ip);
    SegmentIs(c, [], {}, tr', base, 0, RANKS);
    AllBelow(c, d, inodes);
    assert [] + Puts(tr') == Puts(tr');
  }

  /** The bits that itrunc clears are those of the blocks the inode owns. */
  lemma BitsCleared(sb: Super, d: Disk, inodes: seq<Inode>, o: Owner, k: nat)
    requires Sound(sb, d, inodes, o) && k < |inodes|
    ensures Elements(BitSectors(sb, TreeBlocks(d, inodes[k]))) == BitsOwned(sb, o, k)
  {
    var c := Drop(0, sb, o, k, {});
    TreePuts(Start, sb, d, inodes[k]);
    assert Elements(Puts(Start)) == {};
    TreeSegment(c, d, inodes, Start);
    assert Puts(TreeOn(Start, sb, d, inodes[k])) == BitSectors(sb, TreeBlocks(d, inodes[k]));
  }

  /** itrunc and two iupdates of the inode, whose sector is `ib`: no bget panics if and only if there is
      a buffer at each bfree and, when all are done, for the two. */
  lemma DropRooms(c: Drop, d: Disk, inodes: seq<Inode>, tr: Trail, ib: nat)
    requires Ready(c, d, inodes) && c.start == Elements(Puts(tr)) && InnerEnds(tr) && Slots(c.nbuf, [], {}, tr)
    ensures var tr' := Then(Then(TreeOn(tr, c.sb, d, inodes[c.k]), Store(ib)), Store(ib));
            Rooms(c.nbuf, [], {}, tr') <==>
            RoomForAll(c) && |c.start + BitsOwned(c.sb, c.o, c.k) + {ib}| < c.nbuf
  {
    TreeSegment(c, d, inodes, tr);
    TreeEnd(tr, c.sb, d, inodes[c.k]);
    TwoStores(c.nbuf, TreeOn(tr, c.sb, d, inodes[c.k]), ib);
  }

  lemma TwoStores(nbuf: nat, tr: Trail, x: nat)
    requires InnerEnds(tr)
    ensures Rooms(nbuf, [], {}, Then(Then(tr, Store(x)), Store(x))) <==>
            Slots(nbuf, [], {}, tr) && |Elements(Puts(tr)) + {x}| < nbuf
  {
    var tr1 := Then(tr, Store(x));
    assert InnerEnds(tr1);
    RoomsIff(nbuf, [], {}, Then(tr1, Store(x)));
    StoreSlots(nbuf, tr, x);
    StoreSlots(nbuf, tr1, x);
    assert Elements(Puts(tr1)) + {x} == Elements(Puts(tr)) + {x};
  }

  lemma StoreSlots(nbuf: nat, tr: Trail, x: nat)
    ensures Slots(nbuf, [], {}, Then(tr, Store(x))) <==>
            Slots(nbuf, [], {}, tr) && |Elements(Puts(tr)) + {x}| < nbuf
  {
    assert [] + Puts(tr) == Puts(tr);
    assert {} + {x} == {x};
    assert SlotsOf(nbuf, [] + Puts(tr), {}, Store(x)) <==> FindsSlot(nbuf, [] + Puts(tr), {} + {x});
  }

  // ----- Every pointer block is held until a log_write -----

  lemma {:induction false} FreesEnd(tr: Trail, sb: Super, ps: seq<nat>)
    requires InnerEnds(tr)
    ensures InnerEnds(FreesOn(tr, sb, ps)) && (Ended(tr) ==> Ended(FreesOn(tr, sb, ps)))
  {
    if ps != [] {
      FreesEnd(tr, sb, ps[..|ps| - 1]);
    }
  }

  lemma EntryEnd(tr: Trail, sb: Super, d: Disk, q: nat)
    requires InnerEnds(tr)
    ensures InnerEnds(EntryOn(tr, sb, d, q)) && (Ended(tr) ==> Ended(EntryOn(tr, sb, d, q)))
  {
    FreesEnd(Start, sb, WordsOf(At(d, q)));
  }

  lemma {:induction false} SecondEnd(sb: Super, d: Disk, qs: seq<nat>)
    ensures Ended(SecondOn(Start, sb, d, qs))
  {
    if qs != [] {
      SecondEnd(sb, d, qs[..|qs| - 1]);
      EntryEnd(SecondOn(Start, sb, d, qs[..|qs| - 1]), sb, d, qs[|qs| - 1]);
    }
  }

  lemma TreeEnd(tr: Trail, sb: Super, d: Disk, ip: Inode)
    requires InnerEnds(tr)
    ensures InnerEnds(TreeOn(tr, sb, d, ip))
  {
    var single := tr;
    if |ip.addrs| == NDIRECT + 1 {
      FreesEnd(tr, sb, ip.addrs[..NDIRECT]);
      EntryEnd(FreesOn(tr, sb, ip.addrs[..NDIRECT]), sb, d, ip.addrs[NDIRECT]);
      single := EntryOn(FreesOn(tr, sb, ip.addrs[..NDIRECT]), sb, d, ip.addrs[NDIRECT]);
    }
    SecondEnd(sb, d, WordsOf(At(d, ip.indirect2)));
    assert ip.indirect2 != 0 ==>
           InnerEnds(Then(single, Under(ip.indirect2, SecondOn(Start, sb, d, WordsOf(At(d, ip.indirect2))), false)));
  }

  // ----- No sector is taken twice -----

  /** The bits of these blocks are in front of the data. */
  predicate Inside(sb: Super, ps: seq<nat>) {
    forall p {:trigger p in ps} :: p in ps && p != 0 ==> BitBlock(sb, p) < DataStart(sb)
  }

  lemma FreeCalm(held: set<nat>, tr: Trail, sb: Super, p: nat)
    requires Calm(held, tr) && (p != 0 ==> BitBlock(sb, p) < DataStart(sb))
    requires forall x :: x in held ==> DataStart(sb) <= x
    ensures Calm(held, FreeOn(tr, sb, p))
  {
    assert Calm(held, Then(tr, Read(1)));
  }

  lemma {:induction false} FreesCalm(held: set<nat>, tr: Trail, sb: Super, ps: seq<nat>)
    requires Calm(held, tr) && Inside(sb, ps) && forall x :: x in held ==> DataStart(sb) <= x
    ensures Calm(held, FreesOn(tr, sb, ps))
  {
    if ps != [] {
      var n := |ps| - 1;
      assert ps[n] in ps && forall p :: p in ps[..n] ==> p in ps;
      FreesCalm(held, tr, sb, ps[..n]);
      FreeCalm(held, FreesOn(tr, sb, ps[..n]), sb, ps[n]);
    }
  }

  lemma EntryCalm(held: set<nat>, tr: Trail, sb: Super, d: Disk, q: nat)
    requires Calm(held, tr) && forall x :: x in held ==> DataStart(sb) <= x && x != q
    requires q != 0 ==> DataStart(sb) <= q && BitBlock(sb, q) < DataStart(sb) && Inside(sb, WordsOf(At(d, q)))
    ensures Calm(held, EntryOn(tr, sb, d, q))
  {
    if q != 0 {
      FreesCalm(held + {q}, Start, sb, WordsOf(At(d, q)));
      FreeCalm(held, Then(tr, Under(q, FreesOn(Start, sb, WordsOf(At(d, q))), false)), sb, q);
    }
  }

  /** What a pointer block holds. */
  lemma WordsInside(sb: Super, d: Disk, inodes: seq<Inode>, o: Owner, k: nat, s: Slot)
    requires Sound(sb, d, inodes, o) && k < |inodes| && Legal(s) && HoldsPointers(s)
    ensures var q := Ptr(d, inodes[k], s);
            q != 0 ==> DataStart(sb) <= q && BitBlock(sb, q) < DataStart(sb) && Inside(sb, WordsOf(At(d, q)))
  {
    var q := Ptr(d, inodes[k], s);
    if q != 0 {
      assert OwnsAt(sb, d, inodes, o, q);
      var ws := WordsOf(At(d, q));
      forall p | p in ws && p != 0 ensures BitBlock(sb, p) < DataStart(sb) {
        var i :| 0 <= i < |ws| && ws[i] == p;
        var s' := if s.Single? then SingleEntry(i) else if s.Double? then DoubleEntry(i) else Leaf(s.i, i);
        assert Legal(s') && Ptr(d, inodes[k], s') == p;
        assert OwnsAt(sb, d, inodes, o, p);
      }
    }
  }

  lemma {:induction false} SecondCalm(sb: Super, d: Disk, inodes: seq<Inode>, o: Owner, k: nat, qs: seq<nat>)
    requires Sound(sb, d, inodes, o) && k < |inodes| && |qs| <= NINDIRECT && inodes[k].indirect2 != 0
    requires forall i: nat {:trigger qs[i]} :: i < |qs| ==> qs[i] == Ptr(d, inodes[k], DoubleEntry(i))
    ensures Calm({inodes[k].indirect2}, SecondOn(Start, sb, d, qs))
  {
    if qs != [] {
      var n := |qs| - 1;
      SecondCalm(sb, d, inodes, o, k, qs[..n]);
      WordsInside(sb, d, inodes, o, k, Double);
      WordsInside(sb, d, inodes, o, k, DoubleEntry(n));
      assert Ptr(d, inodes[k], Double) != Ptr(d, inodes[k], DoubleEntry(n));
      EntryCalm({inodes[k].indirect2}, SecondOn(Start, sb, d, qs[..n]), sb, d, qs[n]);
    }
  }

  /** itrunc never asks for a buffer that it holds. */
  lemma TreeCalm(tr: Trail, sb: Super, d: Disk, inodes: seq<Inode>, o: Owner, k: nat)
    requires Sound(sb, d, inodes, o) && k < |inodes| && Calm({}, tr)
    ensures Calm({}, TreeOn(tr, sb, d, inodes[k]))
  {
    var direct, q, q2 := inodes[k].addrs[..NDIRECT], inodes[k].addrs[NDIRECT], inodes[k].indirect2;
    forall p | p in direct && p != 0 ensures BitBlock(sb, p) < DataStart(sb) {
      var i :| 0 <= i < |direct| && direct[i] == p;
      assert Ptr(d, inodes[k], Direct(i)) == p;
      assert OwnsAt(sb, d, inodes, o, p);
    }
    FreesCalm({}, tr, sb, direct);
    WordsInside(sb, d, inodes, o, k, Single);
    EntryCalm({}, FreesOn(tr, sb, direct), sb, d, q);
    if q2 != 0 {
      DoubleCalm(EntryOn(FreesOn(tr, sb, direct), sb, d, q), sb, d, inodes, o, k);
    }
  }

  lemma DoubleCalm(tr: Trail, sb: Super, d: Disk, inodes: seq<Inode>, o: Owner, k: nat)
    requires Sound(sb, d, inodes, o) && k < |inodes| && inodes[k].indirect2 != 0 && Calm({}, tr)
    ensures Calm({}, DoubleOn(tr, sb, d, inodes[k].indirect2))
  {
    var q := inodes[k].indirect2;
    var qs := WordsOf(At(d, q));
    forall i: nat | i < |qs| ensures qs[i] == Ptr(d, inodes[k], DoubleEntry(i)) {
    }
    SecondCalm(sb, d, inodes, o, k, qs);
    WordsInside(sb, d, inodes, o, k, Double);
    assert {} + {q} == {q};
    FreeCalm({}, Then(tr, Under(q, SecondOn(Start, sb, d, qs), false)), sb, q);
  }

  // ----- Only blocks of the file are looked at -----

  lemma FreeLooks(sb: Super, ks: set<nat>, tr: Trail, p: nat)
    ensures LooksWithin(sb, ks, tr, FreeOn(tr, sb, p)) == Known
  {
    if p == 0 {
      LooksSame(sb, ks, tr);
    } else {
      LooksRead(sb, ks, tr, 1);
      LooksStore(sb, ks, Then(tr, Read(1)), BitBlock(sb, p));
      LooksJoin(sb, ks, ks, tr, Then(tr, Read(1)), FreeOn(tr, sb, p));
    }
  }

  lemma {:induction false} FreesLooks(sb: Super, ks: set<nat>, tr: Trail, ps: seq<nat>)
    ensures LooksWithin(sb, ks, tr, FreesOn(tr, sb, ps)) == Known
  {
    if ps == [] {
      LooksSame(sb, ks, tr);
    } else {
      var mid := FreesOn(tr, sb, ps[..|ps| - 1]);
      FreesLooks(sb, ks, tr, ps[..|ps| - 1]);
      FreeLooks(sb, ks, mid, ps[|ps| - 1]);
      LooksJoin(sb, ks, ks, tr, mid, FreesOn(tr, sb, ps));
    }
  }

  lemma HeldLooks(sb: Super, ks: set<nat>, tr: Trail, q: nat, inner: Trail)
    requires q in ks && LooksWithin(sb, ks, Start, inner) == Known
    ensures LooksWithin(sb, ks, tr, FreeOn(Then(tr, Under(q, inner, false)), sb, q)) == Known
  {
    UnderLooks(sb, ks, tr, q, inner, false);
    FreeLooks(sb, ks, Then(tr, Under(q, inner, false)), q);
    LooksJoin(sb, ks, ks, tr, Then(tr, Under(q, inner, false)), FreeOn(Then(tr, Under(q, inner, false)), sb, q));
  }

  lemma EntryLooks(sb: Super, ks: set<nat>, tr: Trail, d: Disk, q: nat)
    requires q == 0 || q in ks
    ensures LooksWithin(sb, ks, tr, EntryOn(tr, sb, d, q)) == Known
  {
    if q == 0 {
      LooksSame(sb, ks, tr);
    } else {
      FreesLooks(sb, ks, Start, WordsOf(At(d, q)));
      HeldLooks(sb, ks, tr, q, FreesOn(Start, sb, WordsOf(At(d, q))));
    }
  }

  lemma {:induction false} SecondLooks(sb: Super, ks: set<nat>, d: Disk, qs: seq<nat>)
    requires forall i :: 0 <= i < |qs| ==> qs[i] == 0 || qs[i] in ks
    ensures LooksWithin(sb, ks, Start, SecondOn(Start, sb, d, qs)) == Known
  {
    if qs == [] {
      LooksSame(sb, ks, Start);
    } else {
      var mid := SecondOn(Start, sb, d, qs[..|qs| - 1]);
      SecondLooks(sb, ks, d, qs[..|qs| - 1]);
      EntryLooks(sb, ks, mid, d, qs[|qs| - 1]);
      LooksJoin(sb, ks, ks, Start, mid, SecondOn(Start, sb, d, qs));
    }
  }

  lemma TreeLooks(sb: Super, tr: Trail, d: Disk, inodes: seq<Inode>, o: Owner, k: nat)
    requires Sound(sb, d, inodes, o) && k < |inodes|
    ensures LooksWithin(sb, o.Keys, tr, TreeOn(tr, sb, d, inodes[k])) == Known
  {
    var ip, ks := inodes[k], o.Keys;
    var direct, q := ip.addrs[..NDIRECT], ip.addrs[NDIRECT];
    assert q == Ptr(d, ip, Single) && ip.indirect2 == Ptr(d, ip, Double);
    var tr1 := FreesOn(tr, sb, direct);
    var tr2 := EntryOn(tr1, sb, d, q);
    FreesLooks(sb, ks, tr, direct);
    EntryLooks(sb, ks, tr1, d, q);
    LooksJoin(sb, ks, ks, tr, tr1, tr2);
    if ip.indirect2 != 0 {
      DoubleLooks(sb, tr2, d, inodes, o, k);
      LooksJoin(sb, ks, ks, tr, tr2, TreeOn(tr, sb, d, ip));
    }
  }

  lemma DoubleLooks(sb: Super, tr: Trail, d: Disk, inodes: seq<Inode>, o: Owner, k: nat)
    requires Sound(sb, d, inodes, o) && k < |inodes| && inodes[k].indirect2 != 0
    ensures LooksWithin(sb, o.Keys, tr, DoubleOn(tr, sb, d, inodes[k].indirect2)) == Known
  {
    var q := inodes[k].indirect2;
    var qs := WordsOf(At(d, q));
    assert q == Ptr(d, inodes[k], Double);
    forall i | 0 <= i < |qs| ensures qs[i] == 0 || qs[i] in o.Keys {
      assert qs[i] == Ptr(d, inodes[k], DoubleEntry(i));
    }
    SecondLooks(sb, o.Keys, d, qs);
    HeldLooks(sb, o.Keys, tr, q, SecondOn(Start, sb, d, qs));
  }
}

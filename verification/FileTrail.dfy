/** How writei uses the buffers: the pointer block that bmap holds is one it will log, so a writei that
    the log takes never runs out of buffers when there is one more than the log can hold. */
module FileTrail {
  import opened Blocks
  import opened Counting
  import opened Buffers
  import opened Files
  import opened FileBytes
  import opened FileSteps
  import opened DiskInodes
  import opened FileLog
  import opened Sealed
  import Log

  lemma ElementsMore(t: seq<nat>, x: nat)
    ensures Elements(t + [x]) == Elements(t) + {x}
  {
  }

  // ----- balloc -----

  lemma {:induction false} ScanPuts(tr: Trail, sb: Super, n: nat)
    ensures Puts(ScanOn(tr, sb, n)) == Puts(tr)
  {
    if n > 0 {
      ScanPuts(tr, sb, n - 1);
    }
  }

  lemma BallocPuts(tr: Trail, sb: Super, b: nat)
    ensures Puts(BallocOn(tr, sb, b)) == Puts(tr) + [BitBlock(sb, b)] + [b]
  {
    var tr1 := Then(tr, Read(1));
    ScanPuts(tr1, sb, b / BPB);
    assert Puts(tr1) == Puts(tr);
    assert Puts(Then(ScanOn(tr1, sb, b / BPB), Store(BitBlock(sb, b)))) == Puts(tr) + [BitBlock(sb, b)];
  }

  lemma {:induction false} ScanRooms(nbuf: nat, t: seq<nat>, held: set<nat>, tr: Trail, sb: Super, n: nat)
    requires Rooms(nbuf, t, held, tr) && |Elements(t + Puts(tr)) + held| < nbuf
    ensures Rooms(nbuf, t, held, ScanOn(tr, sb, n))
  {
    if n > 0 {
      ScanRooms(nbuf, t, held, tr, sb, n - 1);
      ScanPuts(tr, sb, n - 1);
      OneSector(Elements(t + Puts(tr)) + held, BitBlock(sb, (n - 1) * BPB));
    }
  }

  /** balloc has room when both of its log_writes have. */
  lemma BallocRooms(nbuf: nat, t: seq<nat>, held: set<nat>, tr: Trail, sb: Super, b: nat)
    requires Rooms(nbuf, t, held, tr)
    requires var u, bm := t + Puts(tr), BitBlock(sb, b);
             |Elements(u) + held + {bm}| < nbuf && |Elements(u + [bm]) + held + {b}| < nbuf
    ensures Rooms(nbuf, t, held, BallocOn(tr, sb, b))
  {
    var u, bm := t + Puts(tr), BitBlock(sb, b);
    var tr1 := Then(tr, Read(1));
    var tr2 := ScanOn(tr1, sb, b / BPB);
    assert t + Puts(tr1) == u;
    SubsetFits(Elements(u) + held, Elements(u) + held + {bm});
    OneSector(Elements(u) + held, 1);
    ScanRooms(nbuf, t, held, tr1, sb, b / BPB);
    ScanPuts(tr1, sb, b / BPB);
    StoreRooms(nbuf, t, held, tr2, bm, u);
    assert t + Puts(Then(tr2, Store(bm))) == u + [bm];
    StoreRooms(nbuf, t, held, Then(tr2, Store(bm)), b, u + [bm]);
  }

  lemma StoreRooms(nbuf: nat, t: seq<nat>, held: set<nat>, tr: Trail, x: nat, u: seq<nat>)
    requires Rooms(nbuf, t, held, tr) && t + Puts(tr) == u && |Elements(u) + held + {x}| < nbuf
    ensures Rooms(nbuf, t, held, Then(tr, Store(x)))
  {
    assert Elements(u) + (held + {x}) == Elements(u) + held + {x};
  }

  // ----- A trail for which one buffer more than the log holds is enough -----

  /** There is a buffer more than the log can hold. */
  predicate Spare(l: Log.Layout, nbuf: nat) {
    0 <= Log.Capacity(l) < nbuf
  }

  lemma TakesSize(l: Log.Layout, nbuf: nat, xs: seq<nat>)
    requires Spare(l, nbuf) && Takes(l, [], xs)
    ensures |Elements(xs)| < nbuf
  {
    if xs == [] {
      assert Elements(xs) == {};
    } else {
      var n := |xs| - 1;
      assert [] + xs[..n] == xs[..n] && xs == xs[..n] + [xs[n]];
      ElementsMore(xs[..n], xs[n]);
      OneSector(Elements(xs[..n]), xs[n]);
    }
  }

  lemma TakesLast(l: Log.Layout, xs: seq<nat>, x: nat)
    requires Takes(l, [], xs + [x])
    ensures Takes(l, [], xs) && |Elements(xs)| < Log.Capacity(l)
  {
    TakesConcat(l, [], xs, [x]);
    OnePut(l, [] + xs, x);
    assert [] + xs == xs;
  }

  /** No sector is taken twice, what is done under a buffer ends with a log_write, and if the log takes
      all there are buffers for all. */
  ghost predicate FairTrail(l: Log.Layout, nbuf: nat, tr: Trail) {
    Calm({}, tr) && InnerEnds(tr) && (Spare(l, nbuf) && Takes(l, [], Puts(tr)) ==> Rooms(nbuf, [], {}, tr))
  }

  lemma FairRead(l: Log.Layout, nbuf: nat, tr: Trail, x: nat)
    requires FairTrail(l, nbuf, tr)
    ensures FairTrail(l, nbuf, Then(tr, Read(x)))
  {
    assert Puts(Then(tr, Read(x))) == Puts(tr);
    if Spare(l, nbuf) && Takes(l, [], Puts(tr)) {
      TakesSize(l, nbuf, Puts(tr));
      OneSector(Elements(Puts(tr)), x);
      assert Elements([] + Puts(tr)) + {} + {x} == Elements(Puts(tr)) + {x};
    }
  }

  lemma FairStore(l: Log.Layout, nbuf: nat, tr: Trail, x: nat)
    requires FairTrail(l, nbuf, tr)
    ensures FairTrail(l, nbuf, Then(tr, Store(x)))
  {
    assert Puts(Then(tr, Store(x))) == Puts(tr) + [x];
    if Spare(l, nbuf) && Takes(l, [], Puts(tr) + [x]) {
      TakesLast(l, Puts(tr), x);
      OneSector(Elements(Puts(tr)), x);
      assert [] + Puts(tr) == Puts(tr);
      assert Elements(Puts(tr)) + {} + {x} == Elements(Puts(tr)) + {x};
      StoreRooms(nbuf, [], {}, tr, x, Puts(tr));
    }
  }

  lemma {:induction false} FairScan(l: Log.Layout, nbuf: nat, tr: Trail, sb: Super, n: nat)
    requires FairTrail(l, nbuf, tr)
    ensures FairTrail(l, nbuf, ScanOn(tr, sb, n))
  {
    if n > 0 {
      FairScan(l, nbuf, tr, sb, n - 1);
      FairRead(l, nbuf, ScanOn(tr, sb, n - 1), BitBlock(sb, (n - 1) * BPB));
    }
  }

  lemma FairBalloc(l: Log.Layout, nbuf: nat, tr: Trail, sb: Super, b: nat)
    requires FairTrail(l, nbuf, tr)
    ensures FairTrail(l, nbuf, BallocOn(tr, sb, b))
  {
    var scan := ScanOn(Then(tr, Read(1)), sb, b / BPB);
    FairRead(l, nbuf, tr, 1);
    FairScan(l, nbuf, Then(tr, Read(1)), sb, b / BPB);
    FairStore(l, nbuf, scan, BitBlock(sb, b));
    FairStore(l, nbuf, Then(scan, Store(BitBlock(sb, b))), b);
  }

  lemma {:induction false} ScanCalm(held: set<nat>, tr: Trail, sb: Super, n: nat)
    requires Calm(held, tr) && forall x :: x in held ==> DataStart(sb) <= x
    requires n * BPB < sb.size + BPB
    ensures Calm(held, ScanOn(tr, sb, n))
  {
    if n > 0 {
      ScanCalm(held, tr, sb, n - 1);
    }
  }

  /** A pointer block is held while balloc works and logged after it. */
  lemma FairUnder(l: Log.Layout, nbuf: nat, tr: Trail, sb: Super, q: nat, b: nat)
    requires FairTrail(l, nbuf, tr)
    requires DataStart(sb) <= q && DataStart(sb) <= b < sb.size && q != b
    ensures FairTrail(l, nbuf, Then(tr, Under(q, BallocOn(Start, sb, b), true)))
  {
    var p := Under(q, BallocOn(Start, sb, b), true);
    BallocEnded(Start, sb, b);
    assert Calm({}, Then(tr, p)) by {
      UnderCalm(sb, q, b);
      assert {} + {q} == {q};
    }
    var t, bm := Puts(tr), BitBlock(sb, b);
    UnderPuts(tr, sb, q, b);
    if Spare(l, nbuf) && Takes(l, [], t + [bm] + [b] + [q]) {
      UnderTakes(l, t, bm, b, q);
      UnderRoom(nbuf, t, sb, q, b);
      assert [] + t == t;
      assert Rooms(nbuf, [], {}, Then(tr, p));
    }
  }

  lemma BallocEnded(tr: Trail, sb: Super, b: nat)
    requires InnerEnds(tr)
    ensures Ended(BallocOn(tr, sb, b))
  {
    ScanEnds(Then(tr, Read(1)), sb, b / BPB);
    assert InnerEnds(Then(ScanOn(Then(tr, Read(1)), sb, b / BPB), Store(BitBlock(sb, b))));
  }

  lemma {:induction false} ScanEnds(tr: Trail, sb: Super, n: nat)
    requires InnerEnds(tr)
    ensures InnerEnds(ScanOn(tr, sb, n))
  {
    if n > 0 {
      ScanEnds(tr, sb, n - 1);
    }
  }

  lemma UnderPuts(tr: Trail, sb: Super, q: nat, b: nat)
    ensures Puts(Then(tr, Under(q, BallocOn(Start, sb, b), true))) == Puts(tr) + [BitBlock(sb, b)] + [b] + [q]
  {
    BallocPuts(Start, sb, b);
    assert Puts(Start) == [];
  }

  lemma UnderTakes(l: Log.Layout, t: seq<nat>, bm: nat, b: nat, q: nat)
    requires Takes(l, [], t + [bm] + [b] + [q])
    ensures Takes(l, [], t) && |Elements(t + [bm] + [b])| < Log.Capacity(l)
  {
    TakesLast(l, t + [bm] + [b], q);
    TakesLast(l, t + [bm], b);
    TakesLast(l, t, bm);
  }

  lemma UnderCalm(sb: Super, q: nat, b: nat)
    requires DataStart(sb) <= q && DataStart(sb) <= b < sb.size && q != b
    ensures Calm({q}, BallocOn(Start, sb, b))
  {
    ScanCalm({q}, Then(Start, Read(1)), sb, b / BPB);
  }

  lemma UnderRoom(nbuf: nat, t: seq<nat>, sb: Super, q: nat, b: nat)
    requires |Elements(t + [BitBlock(sb, b)] + [b])| + 1 < nbuf
    ensures RoomOf(nbuf, t, {}, Under(q, BallocOn(Start, sb, b), true))
  {
    var bm := BitBlock(sb, b);
    assert {} + {q} == {q};
    FewerFit(nbuf, t, bm, b, q);
    assert Elements(t) + {} + {q} == Elements(t) + {q};
    assert t + Puts(Start) == t;
    BallocRooms(nbuf, t, {q}, Start, sb, b);
    BallocPuts(Start, sb, b);
    assert t + Puts(BallocOn(Start, sb, b)) == t + [bm] + [b];
  }

  lemma FewerFit(nbuf: nat, t: seq<nat>, bm: nat, b: nat, q: nat)
    requires |Elements(t + [bm] + [b])| + 1 < nbuf
    ensures |Elements(t) + {q}| < nbuf && |Elements(t) + {q} + {bm}| < nbuf
    ensures |Elements(t + [bm]) + {q} + {b}| < nbuf && |Elements(t + [bm] + [b]) + {q}| < nbuf
  {
    var all := Elements(t + [bm] + [b]);
    ElementsMore(t, bm);
    ElementsMore(t + [bm], b);
    OneSector(all, q);
    SubsetFits(Elements(t) + {q}, all + {q});
    SubsetFits(Elements(t) + {q} + {bm}, all + {q});
    SubsetFits(Elements(t + [bm]) + {q} + {b}, all + {q});
  }

  /** When the log is full after balloc, it is the log_write of the pointer block that panics. */
  lemma FullUnder(l: Log.Layout, nbuf: nat, tr: Trail, sb: Super, q: nat, b: nat)
    requires Spare(l, nbuf) && FairTrail(l, nbuf, tr) && q in Puts(tr)
    requires var xs := Puts(tr) + [BitBlock(sb, b)] + [b];
             Takes(l, [], xs) && |Elements(xs)| >= Log.Capacity(l)
    ensures RunAll(l, nbuf, [], {}, Then(tr, Under(q, BallocOn(Start, sb, b), true))) ==
            Stuck(Puts(tr) + [BitBlock(sb, b)] + [b], LogFull)
  {
    var t, bm := Puts(tr), BitBlock(sb, b);
    assert [] + t == t;
    TakesLast(l, t + [bm], b);
    TakesLast(l, t, bm);
    RunIff(l, nbuf, [], {}, tr);
    assert RunAll(l, nbuf, [], {}, tr) == Through(t);
    FullRoom(l, nbuf, t, bm, b, q);
    FullPiece(l, nbuf, t, sb, q, b);
  }

  lemma FullPiece(l: Log.Layout, nbuf: nat, t: seq<nat>, sb: Super, q: nat, b: nat)
    requires var bm := BitBlock(sb, b);
             && |Elements(t) + {q}| < nbuf && |Elements(t) + {q} + {bm}| < nbuf
             && |Elements(t + [bm]) + {q} + {b}| < nbuf
             && Takes(l, [], t + [bm] + [b]) && |Elements(t + [bm] + [b])| >= Log.Capacity(l)
    ensures RunOf(l, nbuf, t, {}, Under(q, BallocOn(Start, sb, b), true)) ==
            Stuck(t + [BitBlock(sb, b)] + [b], LogFull)
  {
    var bm, inner := BitBlock(sb, b), BallocOn(Start, sb, b);
    assert {} + {q} == {q} && Elements(t) + {} + {q} == Elements(t) + {q};
    InnerThrough(l, nbuf, t, sb, q, b);
    assert RunAll(l, nbuf, t, {} + {q}, inner) == Through(t + [bm] + [b]);
  }

  lemma InnerThrough(l: Log.Layout, nbuf: nat, t: seq<nat>, sb: Super, q: nat, b: nat)
    requires var bm := BitBlock(sb, b);
             && |Elements(t) + {q} + {bm}| < nbuf && |Elements(t + [bm]) + {q} + {b}| < nbuf
             && Takes(l, [], t + [bm] + [b])
    ensures RunAll(l, nbuf, t, {q}, BallocOn(Start, sb, b)) == Through(t + [BitBlock(sb, b)] + [b])
  {
    var bm, inner := BitBlock(sb, b), BallocOn(Start, sb, b);
    assert t + Puts(Start) == t && [] + t == t;
    BallocRooms(nbuf, t, {q}, Start, sb, b);
    BallocPuts(Start, sb, b);
    assert Puts(inner) == [bm] + [b] && t + [bm] + [b] == t + ([bm] + [b]);
    TakesConcat(l, [], t, [bm] + [b]);
    RunIff(l, nbuf, t, {q}, inner);
  }

  lemma FullRoom(l: Log.Layout, nbuf: nat, t: seq<nat>, bm: nat, b: nat, q: nat)
    requires Spare(l, nbuf) && q in t && |Elements(t)| < Log.Capacity(l) && |Elements(t + [bm])| < Log.Capacity(l)
    ensures |Elements(t) + {q}| < nbuf && |Elements(t) + {q} + {bm}| < nbuf
    ensures |Elements(t + [bm]) + {q} + {b}| < nbuf
  {
    ElementsMore(t, bm);
    OneSector(Elements(t + [bm]), b);
    assert Elements(t) + {q} == Elements(t) && Elements(t + [bm]) + {q} == Elements(t + [bm]);
  }

  // ----- writei -----

  /** What to promise of a trail. */
  datatype Level = Bare | Fit(l: Log.Layout, nbuf: nat)

  /** The trail has the log's writes and, if that is asked for, is as above. */
  ghost predicate Fair(v: Level, e: Image) {
    Agrees(e) && (v.Fit? && e.ok ==> FairTrail(v.l, v.nbuf, e.trail))
  }

  lemma GrantFair(sb: Super, v: Level, e: Image, k: nat, s: Slot)
    requires Fair(v, e)
    ensures Fair(v, Grant(sb, e, k, s))
  {
    if e.ok && k < |e.inodes| {
      var q := Home(e.d, e.inodes[k], s);
      var b := LowestFree(sb, e.d, 0);
      if Ptr(e.d, e.inodes[k], s) != 0 {
        assert Puts(LevelThere(e.trail, s, q)) == Puts(e.trail);
        if v.Fit? {
          FairRead(v.l, v.nbuf, e.trail, q);
        }
      } else if !Storable(sb, e, k, s, b) {
        FullPuts(e.trail, sb, s, q);
      } else {
        NewFair(sb, v, e, q, s, b);
      }
    }
  }

  lemma FullPuts(tr: Trail, sb: Super, s: Slot, q: nat)
    ensures Puts(LevelFull(tr, sb, s, q)) == Puts(tr)
  {
    var n := (sb.size + BPB - 1) / BPB;
    ScanPuts(Then(tr, Read(1)), sb, n);
    ScanPuts(Then(Start, Read(1)), sb, n);
    assert Puts(Start) == [];
  }

  lemma NewFair(sb: Super, v: Level, e: Image, q: nat, s: Slot, b: nat)
    requires Fair(v, e) && e.ok
    requires |e.d| == sb.size && DataStart(sb) <= b < sb.size && Legal(s) && q < sb.size
    requires InInode(s) || (DataStart(sb) <= q && q != b)
    ensures Puts(LevelNew(e.trail, sb, s, q, b)) == SectorList(e.log + AllocWrites(sb, e.d, q, s, b))
    ensures v.Fit? ==> FairTrail(v.l, v.nbuf, LevelNew(e.trail, sb, s, q, b))
  {
    AllocListed(sb, e.d, q, s, b, e.log);
    ListOf(e.log, AllocWrites(sb, e.d, q, s, b));
    if InInode(s) {
      BallocPuts(e.trail, sb, b);
      if v.Fit? {
        FairBalloc(v.l, v.nbuf, e.trail, sb, b);
      }
    } else {
      UnderPuts(e.trail, sb, q, b);
      if v.Fit? {
        FairUnder(v.l, v.nbuf, e.trail, sb, q, b);
      }
    }
  }

  lemma MapFair(sb: Super, v: Level, e: Image, k: nat, bn: nat)
    requires Fair(v, e)
    ensures Fair(v, MapBlock(sb, e, k, bn))
  {
    match DataSlot(bn)
    case Direct(i) => GrantFair(sb, v, e, k, Direct(i));
    case SingleEntry(i) =>
      GrantFair(sb, v, e, k, Single);
      GrantFair(sb, v, Grant(sb, e, k, Single), k, SingleEntry(i));
    case Leaf(i, j) =>
      GrantFair(sb, v, e, k, Double);
      GrantFair(sb, v, Grant(sb, e, k, Double), k, DoubleEntry(i));
      GrantFair(sb, v, Grant(sb, Grant(sb, e, k, Double), k, DoubleEntry(i)), k, Leaf(i, j));
    case _ =>
  }

  lemma StoreFair(v: Level, e: Image, d: Disk, inodes: seq<Inode>, w: Log.Write)
    requires Fair(v, e) && e.ok
    ensures Fair(v, Image(d, inodes, e.log + [w], true, Then(e.trail, Store(w.sector))))
  {
    if v.Fit? {
      FairStore(v.l, v.nbuf, e.trail, w.sector);
    }
    ListOf(e.log, [w]);
    assert SectorList([w]) == [w.sector];
  }

  lemma PutFair(sb: Super, v: Level, e: Image, k: nat, off: nat, part: seq<Byte>)
    requires Fair(v, e)
    ensures Fair(v, PutBytes(sb, e, k, off, part))
  {
    if e.ok && k < |e.inodes| && off % BSIZE + |part| <= BSIZE {
      var a := Ptr(e.d, e.inodes[k], DataSlot(off / BSIZE));
      if DataStart(sb) <= a < |e.d| {
        var data := Data(Patched(e.d[a], off % BSIZE, part));
        StoreFair(v, e, e.d[a := data], e.inodes, Log.Write(a, data));
      }
    }
  }

  lemma TurnFair(sb: Super, v: Level, k: nat, off: nat, src: seq<Byte>, e: Image, t: nat)
    requires Fair(v, e)
    ensures Fair(v, OneTurn(sb, k, off, src)(e, t))
  {
    if t < |src| {
      MapFair(sb, v, e, k, (off + t) / BSIZE);
      PutFair(sb, v, MapBlock(sb, e, k, (off + t) / BSIZE), k, off + t, src[t..t + Step(off + t, |src| - t)]);
    }
  }

  lemma SizeFair(v: Level, e: Image, k: nat, z: nat)
    requires Fair(v, e)
    ensures Fair(v, SetSize(e, k, z))
  {
    if e.ok && k < |e.inodes| && z > e.inodes[k].size && InodeBlock(k) < |e.d| {
      var ip := e.inodes[k].(size := z);
      var d := PutInode(e.d, k, ip);
      StoreFair(v, e, d, e.inodes[k := ip], Log.Write(InodeBlock(k), d[InodeBlock(k)]));
    }
  }

  /** A writei that the log takes finds a buffer at every bread, if there is one more than the log holds. */
  lemma WriteFair(sb: Super, v: Level, e: Image, k: nat, off: nat, src: seq<Byte>)
    requires Fair(v, e)
    ensures Fair(v, AfterWrite(sb, e, k, off, src))
  {
    var turn := OneTurn(sb, k, off, src);
    forall f, u ensures Fair(v, f) ==> Fair(v, turn(f, u)) {
      if Fair(v, f) {
        TurnFair(sb, v, k, off, src, f, u);
      }
    }
    LoopHolds(turn, f => Fair(v, f), e, off, |src|, 0);
    SizeFair(v, WriteBytes(sb, e, k, off, src), k, off + |src|);
  }

  // ----- Which sectors are looked at -----

  predicate OpenLook(z: nat, tr: Trail) {
    true
  }

  /** From `tr` to `tr'` only sectors before the data and sectors of `ks` have been looked at. */
  ghost function LooksWithin(sb: Super, ks: set<nat>, tr: Trail, tr': Trail): Seal {
    if forall z: nat {:trigger OpenLook(z, tr')} :: OpenLook(z, tr') ==>
         forall x {:trigger x in Looks(tr')} :: x in Looks(tr') ==> x in Looks(tr) || x < DataStart(sb) || x in ks
    then Known else Unknown
  }

  lemma LooksSame(sb: Super, ks: set<nat>, tr: Trail)
    ensures LooksWithin(sb, ks, tr, tr) == Known
  {
  }

  lemma LooksJoin(sb: Super, ks: set<nat>, ks': set<nat>, a: Trail, b: Trail, c: Trail)
    requires LooksWithin(sb, ks, a, b) == Known && LooksWithin(sb, ks', b, c) == Known && ks <= ks'
    ensures LooksWithin(sb, ks', a, c) == Known
  {
    assert OpenLook(0, b) && OpenLook(0, c);
  }

  lemma LooksMore(sb: Super, ks: set<nat>, ks': set<nat>, a: Trail, b: Trail)
    requires LooksWithin(sb, ks, a, b) == Known && ks <= ks'
    ensures LooksWithin(sb, ks', a, b) == Known
  {
    assert OpenLook(0, b);
  }

  lemma LooksRead(sb: Super, ks: set<nat>, tr: Trail, x: nat)
    requires x in ks || x < DataStart(sb)
    ensures LooksWithin(sb, ks, tr, Then(tr, Read(x))) == Known
  {
    assert Looks(Then(tr, Read(x))) == Looks(tr) + {x};
  }

  lemma LooksStore(sb: Super, ks: set<nat>, tr: Trail, x: nat)
    ensures LooksWithin(sb, ks, tr, Then(tr, Store(x))) == Known
  {
    assert Looks(Then(tr, Store(x))) == Looks(tr);
  }

  lemma {:induction false} ScanLooks(sb: Super, ks: set<nat>, tr: Trail, n: nat)
    requires n * BPB < sb.size + BPB
    ensures LooksWithin(sb, ks, tr, ScanOn(tr, sb, n)) == Known
  {
    if n == 0 {
      LooksSame(sb, ks, tr);
    } else {
      var mid := ScanOn(tr, sb, n - 1);
      ScanLooks(sb, ks, tr, n - 1);
      LooksRead(sb, ks, mid, BitBlock(sb, (n - 1) * BPB));
      LooksJoin(sb, ks, ks, tr, mid, ScanOn(tr, sb, n));
    }
  }

  lemma BallocLooks(sb: Super, ks: set<nat>, tr: Trail, b: nat)
    requires b < sb.size
    ensures LooksWithin(sb, ks, tr, BallocOn(tr, sb, b)) == Known
  {
    var tr1 := Then(tr, Read(1));
    var tr2 := ScanOn(tr1, sb, b / BPB);
    var tr3 := Then(tr2, Store(BitBlock(sb, b)));
    LooksRead(sb, ks, tr, 1);
    ScanLooks(sb, ks, tr1, b / BPB);
    LooksJoin(sb, ks, ks, tr, tr1, tr2);
    LooksStore(sb, ks, tr2, BitBlock(sb, b));
    LooksJoin(sb, ks, ks, tr, tr2, tr3);
    LooksStore(sb, ks, tr3, b);
    LooksJoin(sb, ks, ks, tr, tr3, BallocOn(tr, sb, b));
  }

  lemma UnderLooks(sb: Super, ks: set<nat>, tr: Trail, q: nat, inner: Trail, put: bool)
    requires LooksWithin(sb, ks, Start, inner) == Known && (put || q in ks)
    ensures LooksWithin(sb, ks, tr, Then(tr, Under(q, inner, put))) == Known
  {
    assert OpenLook(0, inner);
    assert Looks(Then(tr, Under(q, inner, put))) == Looks(tr) + (Looks(inner) + if put then {} else {q});
  }

  lemma NewLooks(sb: Super, ks: set<nat>, tr: Trail, s: Slot, q: nat, b: nat)
    requires b < sb.size
    ensures LooksWithin(sb, ks, tr, LevelNew(tr, sb, s, q, b)) == Known
  {
    BallocLooks(sb, ks, tr, b);
    BallocLooks(sb, ks, Start, b);
    UnderLooks(sb, ks, tr, q, BallocOn(Start, sb, b), true);
  }

  lemma FullLooks(sb: Super, ks: set<nat>, tr: Trail, s: Slot, q: nat)
    requires InInode(s) || q in ks
    ensures LooksWithin(sb, ks, tr, LevelFull(tr, sb, s, q)) == Known
  {
    FullScan(sb, ks, tr);
    FullScan(sb, ks, Start);
    if !InInode(s) {
      UnderLooks(sb, ks, tr, q, FullOn(Start, sb), false);
    }
  }

  lemma FullScan(sb: Super, ks: set<nat>, tr: Trail)
    ensures LooksWithin(sb, ks, tr, FullOn(tr, sb)) == Known
  {
    LooksRead(sb, ks, tr, 1);
    ScanLooks(sb, ks, Then(tr, Read(1)), (sb.size + BPB - 1) / BPB);
    LooksJoin(sb, ks, ks, tr, Then(tr, Read(1)), FullOn(tr, sb));
  }
}

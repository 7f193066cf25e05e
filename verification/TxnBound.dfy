/** The size of one filewrite transaction against the capacity of the log (file.c, log.c). */
module TxnBound {
  import opened Blocks
  import opened Counting
  import opened Files
  import opened FileBytes
  import opened FileSteps
  import opened FileLog
  import opened Buffers
  import opened FileTrail
  import Log

  /** filewrite's chunk: ((LOGSIZE-1-1-2) / 2) * 512 bytes. */
  const MAX_CHUNK := (Log.LOGSIZE - 1 - 1 - 2) / 2 * 512

  /** A chunk spans at most four file blocks. */
  lemma ChunkSpan(off: nat, n: nat)
    requires n <= MAX_CHUNK
    ensures off / BSIZE <= LastBlock(off, n) <= off / BSIZE + 3
  {
  }

  /** Slots that four consecutive file blocks are reached through: four data slots and at
      most three that hold pointer blocks. */
  function Cover(lo: nat): (q: seq<Slot>)
    ensures |q| == 7
  {
    [DataSlot(lo), DataSlot(lo + 1), DataSlot(lo + 2), DataSlot(lo + 3)] +
    (if lo < NDIRECT + NINDIRECT then [Single, Double, DoubleEntry(0)]
     else
       var r := lo - NDIRECT - NINDIRECT;
       [Double, DoubleEntry(r / NINDIRECT), DoubleEntry((r + 3) / NINDIRECT)])
  }

  lemma PathCovered(lo: nat, bn: nat, s: Slot)
    requires lo <= bn <= lo + 3 && s in Path(bn)
    ensures s in Cover(lo)
  {
    var q := Cover(lo);
    assert DataSlot(bn) == q[bn - lo];
    if s != DataSlot(bn) {
      assert s == q[4] || s == q[5] || s == q[6];
    }
  }

  function PtrSet(d: Disk, ip: Inode, q: seq<Slot>): (r: set<nat>)
    ensures |r| <= |q|
    ensures forall s :: s in q ==> Ptr(d, ip, s) in r
  {
    if q == [] then {} else PtrSet(d, ip, q[1..]) + {Ptr(d, ip, q[0])}
  }

  // ----- When no log_write panics -----

  predicate AllHome(l: Log.Layout, t: Log.Txn, k: nat)
    requires k <= |t|
  {
    forall i :: 0 <= i < k ==> t[i].sector < l.start
  }

  /** Exactly when a transaction goes through: all its sectors are home sectors, and those before
      the last write are fewer than the log holds. */
  lemma {:induction false} TxnOkIff(l: Log.Layout, t: Log.Txn, k: nat)
    requires k <= |t|
    ensures Log.TxnOk(l, t, k) <==>
            k == 0 || (AllHome(l, t, k) && |Sectors(t, k - 1)| < Log.Capacity(l))
  {
    if k > 0 {
      TxnOkIff(l, t, k - 1);
      HeaderSize(t, k - 1);
      if k > 1 {
        SubsetFits(Sectors(t, k - 2), Sectors(t, k - 1));
      }
    }
  }

  /** The same on the list of sectors alone. */
  predicate LogOk(l: Log.Layout, xs: seq<nat>) {
    (forall x :: x in xs ==> x < l.start) && (xs == [] || |Elements(xs[..|xs| - 1])| < Log.Capacity(l))
  }

  lemma TxnOkList(l: Log.Layout, t: Log.Txn)
    ensures Log.TxnOk(l, t, |t|) <==> LogOk(l, SectorList(t))
  {
    TxnOkIff(l, t, |t|);
    var xs := SectorList(t);
    if |t| > 0 {
      SectorsListed(t, |t| - 1);
    }
    assert AllHome(l, t, |t|) ==> forall x :: x in xs ==> x < l.start;
    assert (forall x :: x in xs ==> x < l.start) ==> AllHome(l, t, |t|) by {
      assert forall i :: 0 <= i < |t| ==> xs[i] == t[i].sector && xs[i] in xs;
    }
  }

  lemma PrefixOk(l: Log.Layout, t: Log.Txn, n: nat)
    requires n <= |t| && LogOk(l, SectorList(t)[..n])
    ensures Log.TxnOk(l, t, n)
  {
    var xs := SectorList(t);
    TxnOkIff(l, t, n);
    if n > 0 {
      SectorsListed(t, n - 1);
      assert xs[..n][..n - 1] == xs[..n - 1];
      forall i | 0 <= i < n ensures t[i].sector < l.start {
        assert xs[..n][i] == t[i].sector && xs[..n][i] in xs[..n];
      }
    }
  }

  /** Every owned block lies below the log. */
  predicate BelowLog(o: Owner, l: Log.Layout) {
    forall b {:trigger o[b]} :: b in o ==> b < l.start
  }

  // ----- How a transaction ends -----

  lemma TakesIff(l: Log.Layout, xs: seq<nat>)
    ensures Takes(l, [], xs) <==> LogOk(l, xs)
  {
    forall i | 0 <= i < |xs| ensures [] + xs[..i] == xs[..i] && xs[i] in xs {
    }
    if LogOk(l, xs) {
      forall i | 0 <= i < |xs| ensures xs[i] < l.start && |Elements(xs[..i])| < Log.Capacity(l) {
        PrefixFits(xs, i, |xs| - 1);
      }
    }
    if Takes(l, [], xs) && xs != [] {
      assert xs[|xs| - 1] < l.start;
    }
  }

  lemma PrefixFits(xs: seq<nat>, i: nat, k: nat)
    requires i <= k <= |xs|
    ensures |Elements(xs[..i])| <= |Elements(xs[..k])|
  {
    assert xs[..i] == xs[..k][..i];
    SubsetFits(Elements(xs[..i]), Elements(xs[..k]));
  }

  /** "too big a transaction", "bget: no buffers", "balloc: out of blocks" */
  datatype Panic = FullLog | FullCache | FullDisk

  /** commit_trans returns; or one of the panics; or a log_write is for a sector of the log, which it
      does not test. */
  datatype Ending = Commits | Panics(why: Panic) | Strays

  /** The calls that bring about image `e`, if the machine does not stop before. */
  function RunImage(l: Log.Layout, nbuf: nat, e: Image): Run {
    RunAll(l, nbuf, [], {}, e.trail)
  }

  /** How they end, with `nbuf` buffers. */
  function EndingOf(l: Log.Layout, nbuf: nat, e: Image): Ending {
    match RunImage(l, nbuf, e)
    case Through(_) => if e.ok then Commits else Panics(FullDisk)
    case Stuck(_, why) => if why.LogFull? then Panics(FullLog) else if why.NoBuffers? then Panics(FullCache) else Strays
  }

  lemma NotElse(g: Ending)
    ensures g == Commits || g == Panics(FullLog) || g == Panics(FullCache) || g == Panics(FullDisk) || g == Strays
  {
    if g.Panics? {
      match g.why
      case FullLog =>
      case FullCache =>
      case FullDisk =>
    }
  }

  lemma WhichEnding(l: Log.Layout, nbuf: nat, e: Image)
    ensures EndingOf(l, nbuf, e) == Strays <==>
            RunImage(l, nbuf, e).Stuck? && RunImage(l, nbuf, e).why.IntoLog?
  {
    NotElse(EndingOf(l, nbuf, e));
  }

  /** The log is full at log_write `i`, and the ones before were for home sectors. */
  predicate FullAt(l: Log.Layout, xs: seq<nat>, i: nat) {
    i < |xs| && (forall j :: 0 <= j < i ==> xs[j] < l.start) && |Elements(xs[..i])| >= Log.Capacity(l)
  }

  /** Log_write `i` is the first for a sector of the log, and the log is not full. */
  predicate StraysAt(l: Log.Layout, xs: seq<nat>, i: nat) {
    && i < |xs| && (forall j :: 0 <= j < i ==> xs[j] < l.start) && xs[i] >= l.start
    && |Elements(xs[..i])| < Log.Capacity(l)
  }

  /** How many log_writes have gone through. */
  lemma LogWrites(l: Log.Layout, nbuf: nat, e: Image) returns (m: nat)
    requires Agrees(e)
    ensures m == |RunImage(l, nbuf, e).t| <= |e.log| && LogOk(l, SectorList(e.log)[..m])
    ensures EndingOf(l, nbuf, e) == Panics(FullLog) ==> FullAt(l, SectorList(e.log), m)
    ensures EndingOf(l, nbuf, e) == Strays ==> StraysAt(l, SectorList(e.log), m)
  {
    m := StopOf(l, nbuf, [], {}, e.trail);
    var xs := SectorList(e.log);
    StopIs(l, [], xs, m, RunImage(l, nbuf, e));
    assert [] + xs[..m] == xs[..m];
    TakesIff(l, xs[..m]);
    forall j | 0 <= j < m ensures xs[j] < l.start {
      assert xs[..m][j] == xs[j];
    }
  }

  /** Not both, and neither if the log takes all. */
  lemma NotBoth(l: Log.Layout, xs: seq<nat>, i: nat, j: nat)
    ensures !(FullAt(l, xs, i) && StraysAt(l, xs, j))
  {
    if i <= j < |xs| {
      PrefixFits(xs, i, j);
    }
  }

  lemma Neither(l: Log.Layout, xs: seq<nat>, i: nat)
    requires LogOk(l, xs)
    ensures !FullAt(l, xs, i) && !StraysAt(l, xs, i)
  {
    if i < |xs| {
      assert xs[i] in xs;
      PrefixFits(xs, i, |xs| - 1);
    }
  }

  /** It commits if and only if the log takes all of it and there are buffers for all of it. */
  lemma CommitsIff(l: Log.Layout, nbuf: nat, e: Image)
    requires Agrees(e)
    ensures RunImage(l, nbuf, e).Through? <==> LogOk(l, SectorList(e.log)) && Rooms(nbuf, [], {}, e.trail)
  {
    RunIff(l, nbuf, [], {}, e.trail);
    TakesIff(l, SectorList(e.log));
  }

  /** Each ending from the sectors alone, when there are buffers enough; and when there are not, but the
      log has room, it is bget that panics. */
  lemma EndingIff(l: Log.Layout, nbuf: nat, e: Image)
    requires Agrees(e)
    ensures var xs, rooms := SectorList(e.log), Rooms(nbuf, [], {}, e.trail);
            && (EndingOf(l, nbuf, e).Commits? <==> e.ok && LogOk(l, xs) && rooms)
            && (LogOk(l, xs) && !rooms ==> EndingOf(l, nbuf, e) == Panics(FullCache))
            && (rooms ==> EndsLike(l, xs, e.ok, EndingOf(l, nbuf, e)))
  {
    var xs := SectorList(e.log);
    CommitsIff(l, nbuf, e);
    var m := LogWrites(l, nbuf, e);
    if Rooms(nbuf, [], {}, e.trail) {
      RoomsKeep(l, nbuf, [], {}, e.trail);
      EndsSo(l, xs, e.ok, EndingOf(l, nbuf, e), m);
    }
    if LogOk(l, xs) {
      Neither(l, xs, m);
    }
  }

  /** How a transaction that logs the sectors `xs` ends when there are buffers enough. */
  ghost predicate EndsLike(l: Log.Layout, xs: seq<nat>, ok: bool, g: Ending) {
    && (g == Strays <==> exists i: nat :: StraysAt(l, xs, i))
    && (g == Panics(FullLog) <==> exists i: nat :: FullAt(l, xs, i))
    && (g == Panics(FullDisk) <==> !ok && LogOk(l, xs)) && (g.Commits? <==> ok && LogOk(l, xs))
  }

  lemma EndsSo(l: Log.Layout, xs: seq<nat>, ok: bool, g: Ending, m: nat)
    requires g != Panics(FullCache) && m <= |xs|
    requires g == Panics(FullDisk) <==> !ok && LogOk(l, xs)
    requires g.Commits? <==> ok && LogOk(l, xs)
    requires g == Strays ==> StraysAt(l, xs, m)
    requires g == Panics(FullLog) ==> FullAt(l, xs, m)
    ensures EndsLike(l, xs, ok, g)
  {
    if LogOk(l, xs) {
      forall i: nat ensures !FullAt(l, xs, i) && !StraysAt(l, xs, i) {
        Neither(l, xs, i);
      }
    } else {
      NotElse(g);
      forall i: nat ensures FullAt(l, xs, m) ==> !StraysAt(l, xs, i) {
        NotBoth(l, xs, m, i);
      }
      forall i: nat ensures StraysAt(l, xs, m) ==> !FullAt(l, xs, i) {
        NotBoth(l, xs, i, m);
      }
    }
  }

  /** How a transaction with these sectors ends. */
  lemma EndsBy(l: Log.Layout, nbuf: nat, e: Image, xs: seq<nat>, x: nat)
    requires Agrees(e) && e.ok
    requires SectorList(e.log) == xs + [x] && x < l.start && forall y :: y in xs ==> y < l.start
    ensures var fits, rooms := |Elements(xs)| < Log.Capacity(l), Rooms(nbuf, [], {}, e.trail);
            && EndingOf(l, nbuf, e) != Strays
            && (EndingOf(l, nbuf, e).Commits? <==> fits && rooms)
            && (fits && !rooms ==> EndingOf(l, nbuf, e) == Panics(FullCache))
            && (!fits && rooms ==> EndingOf(l, nbuf, e) == Panics(FullLog))
  {
    var ys := SectorList(e.log);
    assert ys[..|ys| - 1] == xs && ys[|ys| - 1] == x;
    assert LogOk(l, ys) <==> |Elements(xs)| < Log.Capacity(l);
    EndingIff(l, nbuf, e);
    NeverAstray(l, nbuf, e.trail);
    WhichEnding(l, nbuf, e);
    if |Elements(xs)| >= Log.Capacity(l) {
      assert ys[..|xs|] == xs;
      forall j | 0 <= j < |xs| ensures ys[j] < l.start {
        assert ys[j] == xs[j] && xs[j] in xs;
      }
      assert FullAt(l, ys, |xs|);
    }
  }

  /** A writei finds a buffer whenever the log takes all of it, so the log alone decides how it ends. */
  lemma WriteEnds(l: Log.Layout, nbuf: nat, sb: Super, d: Disk, inodes: seq<Inode>, k: nat, off: nat, src: seq<Byte>)
    requires Spare(l, nbuf)
    ensures var e := AfterWrite(sb, ImageOf(d, inodes), k, off, src);
            && Agrees(e) && (e.ok && LogOk(l, SectorList(e.log)) ==> Rooms(nbuf, [], {}, e.trail))
            && (EndingOf(l, nbuf, e).Commits? <==> e.ok && LogOk(l, SectorList(e.log)))
  {
    var e := AfterWrite(sb, ImageOf(d, inodes), k, off, src);
    assert SectorList([]) == [] == Puts(Start);
    WriteFair(sb, Fit(l, nbuf), ImageOf(d, inodes), k, off, src);
    TakesIff(l, SectorList(e.log));
    EndingIff(l, nbuf, e);
  }

  // ----- One chunk -----

  /** The blocks that were taken, and the sectors that have their bits. */
  ghost function Taken(o: Owner, o': Owner): set<nat> {
    o'.Keys - o.Keys
  }

  ghost function BitsTaken(sb: Super, o: Owner, o': Owner): set<nat> {
    set b | b in Taken(o, o') :: BitBlock(sb, b)
  }

  /** An owned block on the way to the chunk is in one of seven slots. */
  lemma InCover(sb: Super, d: Disk, inodes: seq<Inode>, o: Owner, k: nat, off: nat, n: nat, x: nat)
    requires Sound(sb, d, inodes, o) && k < |inodes| && n <= MAX_CHUNK
    requires x in o && o[x].0 == k && OnPath(o[x].1, off / BSIZE, LastBlock(off, n))
    ensures x in PtrSet(d, inodes[k], Cover(off / BSIZE))
  {
    ChunkSpan(off, n);
    assert OwnsAt(sb, d, inodes, o, x);
    var bn :| off / BSIZE <= bn <= LastBlock(off, n) && o[x].1 in Path(bn);
    PathCovered(off / BSIZE, bn, o[x].1);
  }

  /** A chunk takes at most seven blocks. */
  lemma TakenFew(sb: Super, d: Disk, inodes: seq<Inode>, o: Owner, o': Owner, k: nat, off: nat, n: nat)
    requires Sound(sb, d, inodes, o') && k < |inodes| && n <= MAX_CHUNK
    requires Took(sb, o, o', k, off / BSIZE, LastBlock(off, n))
    ensures |Taken(o, o')| <= 7
  {
    var ptrs := PtrSet(d, inodes[k], Cover(off / BSIZE));
    forall x | x in Taken(o, o') ensures x in ptrs {
      assert TookAt(sb, o', x, k, off / BSIZE, LastBlock(off, n));
      InCover(sb, d, inodes, o', k, off, n, x);
    }
    SubsetFits(Taken(o, o'), ptrs);
  }

  /** What the data phase of a chunk logs. */
  lemma ChunkSectors(sb: Super, d: Disk, inodes: seq<Inode>, o: Owner, o': Owner, k: nat, off: nat, n: nat, t: Log.Txn,
                     m: nat)
    requires Sound(sb, d, inodes, o') && k < |inodes| && n <= MAX_CHUNK && m <= |t|
    requires Wrote(sb, o, o', k, off / BSIZE, LastBlock(off, n), [], t[..m])
    ensures |Sectors(t, m)| <= 4 + 3 + |BitsTaken(sb, o, o')|
  {
    var ptrs, bits := PtrSet(d, inodes[k], Cover(off / BSIZE)), BitsTaken(sb, o, o');
    forall i | 0 <= i < m ensures t[i].sector in ptrs + bits {
      assert t[..m][i] == t[i];
      if t[i].sector !in bits {
        InCover(sb, d, inodes, o', k, off, n, t[i].sector);
      }
    }
    assert |ptrs + bits| <= |ptrs| + |bits|;
    SectorsWithin(t, m, ptrs + bits);
    SubsetFits(Sectors(t, m), ptrs + bits);
  }

  /** Transaction size bound: before the inode sector, which comes last, one chunk logs at most
      four data sectors, three pointer sectors and the bitmap sectors of the blocks it takes. */
  lemma ChunkFits(l: Log.Layout, sb: Super, d: Disk, inodes: seq<Inode>, o: Owner, o': Owner, k: nat,
                  off: nat, n: nat, t: Log.Txn, m: nat)
    requires Sound(sb, d, inodes, o') && k < |inodes| && n <= MAX_CHUNK && m <= |t| <= m + 1
    requires Wrote(sb, o, o', k, off / BSIZE, LastBlock(off, n), [], t[..m])
    requires AllHome(l, t, |t|) && 4 + 3 + |BitsTaken(sb, o, o')| < Log.Capacity(l)
    ensures Log.TxnOk(l, t, |t|)
  {
    ChunkSectors(sb, d, inodes, o, o', k, off, n, t, m);
    if 0 < |t| == m {
      SubsetFits(Sectors(t, m - 1), Sectors(t, m));
    }
    TxnOkIff(l, t, |t|);
  }

  // ----- Where first fit puts the blocks -----

  ghost function FreeBlocks(sb: Super, d: Disk, high: nat): set<nat> {
    set x | 0 <= x < high && !Used(sb, d, x)
  }

  /** A taken block was free. */
  lemma TakenFree(sb: Super, d: Disk, o: Owner, d': Disk, inodes': seq<Inode>, o': Owner, b: nat)
    requires BitsAgree(sb, d, o) && OwnersPoint(sb, d', inodes', o') && b in Taken(o, o')
    ensures DataStart(sb) <= b < sb.size && !Used(sb, d, b)
  {
    assert OwnsAt(sb, d', inodes', o', b);
  }

  /** What is no longer free was taken, and nothing else was. */
  lemma FreeOrTaken(sb: Super, d: Disk, o: Owner, d': Disk, o': Owner, high: nat)
    requires BitsAgree(sb, d, o) && BitsAgree(sb, d', o') && high <= sb.size && forall b :: b in o ==> b in o'
    ensures FreeBlocks(sb, d', high) == FreeBlocks(sb, d, high) - Taken(o, o')
  {
    forall x | 0 <= x < high ensures x in FreeBlocks(sb, d', high) <==> x in FreeBlocks(sb, d, high) - Taken(o, o') {
      assert Used(sb, d, x) <==> x < DataStart(sb) || x in o;
      assert Used(sb, d', x) <==> x < DataStart(sb) || x in o';
    }
  }

  /** First fit goes above `high` only when every block below is taken. */
  lemma NotAbove(sb: Super, d: Disk, o: Owner, o': Owner, k: nat, lo: nat, hi: nat, high: nat, b: nat)
    requires BitsAgree(sb, d, o) && Took(sb, o, o', k, lo, hi) && high <= sb.size && b in Taken(o, o')
    requires |Taken(o, o')| <= |FreeBlocks(sb, d, high)|
    ensures b < high
  {
    if b >= high {
      assert TookAt(sb, o', b, k, lo, hi);
      forall x | x in FreeBlocks(sb, d, high) ensures x in Taken(o, o') - {b} {
        assert !Used(sb, d, x) && DataStart(sb) <= x < b;
      }
      SubsetFits(FreeBlocks(sb, d, high), Taken(o, o') - {b});
      assert false;
    }
  }

  /** When no block below `low` is free, the blocks that are taken lie between `low` and `high` if and
      only if that many are free below `high`; and these are gone then. */
  lemma TakenBetween(sb: Super, d: Disk, inodes: seq<Inode>, o: Owner, d': Disk, inodes': seq<Inode>, o': Owner,
                     k: nat, lo: nat, hi: nat, low: nat, high: nat)
    requires Sound(sb, d, inodes, o) && Sound(sb, d', inodes', o') && Took(sb, o, o', k, lo, hi)
    requires low <= high <= sb.size && forall x :: 0 <= x < low ==> Used(sb, d, x)
    ensures (forall b :: b in Taken(o, o') ==> low <= b < high) <==> |Taken(o, o')| <= |FreeBlocks(sb, d, high)|
    ensures |Taken(o, o')| <= |FreeBlocks(sb, d, high)| ==>
              |FreeBlocks(sb, d', high)| == |FreeBlocks(sb, d, high)| - |Taken(o, o')|
    ensures forall x :: 0 <= x < low ==> Used(sb, d', x)
  {
    FreeOrTaken(sb, d, o, d', o', high);
    forall x | 0 <= x < low ensures Used(sb, d', x) {
      assert Used(sb, d, x) && (x in o ==> x in o');
    }
    forall b | b in Taken(o, o') ensures low <= b && !Used(sb, d, b) {
      TakenFree(sb, d, o, d', inodes', o', b);
    }
    if |Taken(o, o')| <= |FreeBlocks(sb, d, high)| {
      forall b | b in Taken(o, o') ensures b < high {
        NotAbove(sb, d, o, o', k, lo, hi, high, b);
      }
      assert Taken(o, o') <= FreeBlocks(sb, d, high);
    } else if forall b :: b in Taken(o, o') ==> low <= b < high {
      SubsetFits(Taken(o, o'), FreeBlocks(sb, d, high));
    }
  }

  /** So their bits lie in the sectors between. */
  lemma BitsBetween(sb: Super, o: Owner, o': Owner, low: nat, high: nat)
    requires low < high && forall b :: b in Taken(o, o') ==> low <= b < high
    ensures |BitsTaken(sb, o, o')| <= BitBlock(sb, high - 1) - BitBlock(sb, low) + 1
  {
    var n := BitBlock(sb, high - 1) - BitBlock(sb, low) + 1;
    var span := Interval(BitBlock(sb, low), n);
    forall x | x in BitsTaken(sb, o, o') ensures x in span {
      var b :| b in Taken(o, o') && x == BitBlock(sb, b);
      assert low <= b <= high - 1;
    }
    SubsetFits(BitsTaken(sb, o, o'), span);
  }
}

/** The log on top of the buffer cache: what the buffers, the disk and the reader's view are while a
    transaction is under way. */
module Storage {
  import opened Blocks
  import opened Buffers
  import opened Counting
  import opened Options
  import opened Sealed
  import Cache
  import Log

  // ----- A device as a disk -----

  predicate Has(m: map<Cache.Key, Block>, dev: nat, n: nat) {
    forall x: nat {:trigger Cache.Key(dev, x)} :: x < n ==> Cache.Key(dev, x) in m
  }

  function DiskOf(m: map<Cache.Key, Block>, dev: nat, n: nat): (d: Disk)
    requires Has(m, dev, n)
    ensures |d| == n && forall x: nat :: x < n ==> d[x] == m[Cache.Key(dev, x)]
  {
    seq(n, (x: nat) requires x < n => m[Cache.Key(dev, x)])
  }

  lemma DiskSet(m: map<Cache.Key, Block>, dev: nat, n: nat, x: nat, v: Block)
    requires Has(m, dev, n) && x < n
    ensures Has(m[Cache.Key(dev, x) := v], dev, n)
    ensures DiskOf(m[Cache.Key(dev, x) := v], dev, n) == DiskOf(m, dev, n)[x := v]
  {
  }

  // ----- The buffers -----

  /** The buffer holds one of these sectors. */
  predicate HoldsOne(b: Cache.Buf, dev: nat, xs: set<nat>) {
    b.key.Some? && b.key.value.dev == dev && b.key.value.sector in xs
  }

  /** The buffer is busy if and only if its sector is held, and dirty if and only if it is logged. */
  predicate UsedFor(b: Cache.Buf, dev: nat, logged: set<nat>, held: set<nat>) {
    (b.busy <==> HoldsOne(b, dev, held)) && (b.dirty <==> HoldsOne(b, dev, logged))
  }

  /** Sector `x` is in a buffer. */
  ghost predicate Cached(bs: seq<Cache.Buf>, dev: nat, x: nat) {
    exists i :: 0 <= i < |bs| && Cache.Holds(bs[i], Cache.Key(dev, x))
  }

  ghost predicate Uses(bs: seq<Cache.Buf>, dev: nat, logged: set<nat>, held: set<nat>) {
    && (forall i {:trigger bs[i]} :: 0 <= i < |bs| ==> UsedFor(bs[i], dev, logged, held))
    && forall x {:trigger Cached(bs, dev, x)} :: x in logged + held ==> Cached(bs, dev, x)
  }

  /** Opens the facts below for these buffers only. */
  predicate OpenBufs(z: nat, bs: seq<Cache.Buf>) {
    true
  }

  ghost function UsesOf(bs: seq<Cache.Buf>, dev: nat, logged: set<nat>, held: set<nat>): Seal {
    if forall z: nat {:trigger OpenBufs(z, bs)} :: OpenBufs(z, bs) ==> Uses(bs, dev, logged, held)
    then Known else Unknown
  }

  lemma UsesIs(bs: seq<Cache.Buf>, dev: nat, logged: set<nat>, held: set<nat>)
    requires UsesOf(bs, dev, logged, held) == Known
    ensures Uses(bs, dev, logged, held)
  {
    assert OpenBufs(0, bs);
  }

  /** Only buffer `b` has changed. */
  ghost function OnlyOf(bs: seq<Cache.Buf>, bs': seq<Cache.Buf>, b: nat): Seal {
    if forall z: nat {:trigger OpenBufs(z, bs')} :: OpenBufs(z, bs') ==>
         |bs| == |bs'| && forall i {:trigger bs'[i]} :: 0 <= i < |bs| && i != b ==> bs'[i] == bs[i]
    then Known else Unknown
  }

  /** No buffer that was busy has changed. */
  ghost function KeptOf(bs: seq<Cache.Buf>, bs': seq<Cache.Buf>): Seal {
    if forall z: nat {:trigger OpenBufs(z, bs')} :: OpenBufs(z, bs') ==>
         |bs| == |bs'| && forall i {:trigger bs'[i]} :: 0 <= i < |bs| && bs[i].busy ==> bs'[i] == bs[i]
    then Known else Unknown
  }

  lemma OnlyJoin(bs: seq<Cache.Buf>, bs1: seq<Cache.Buf>, bs2: seq<Cache.Buf>, b: nat)
    requires OnlyOf(bs, bs1, b) == Known && OnlyOf(bs1, bs2, b) == Known
    ensures OnlyOf(bs, bs2, b) == Known
  {
    assert OpenBufs(0, bs1) && OpenBufs(0, bs2);
  }

  lemma OnlyAt(bs: seq<Cache.Buf>, bs': seq<Cache.Buf>, b: nat, i: nat)
    requires OnlyOf(bs, bs', b) == Known && i < |bs| && i != b
    ensures |bs| == |bs'| && bs'[i] == bs[i]
  {
    assert OpenBufs(0, bs');
  }

  lemma KeptSame(bs: seq<Cache.Buf>)
    ensures KeptOf(bs, bs) == Known
  {
  }

  lemma KeptJoin(bs: seq<Cache.Buf>, bs1: seq<Cache.Buf>, bs2: seq<Cache.Buf>)
    requires KeptOf(bs, bs1) == Known && KeptOf(bs1, bs2) == Known
    ensures KeptOf(bs, bs2) == Known
  {
    assert OpenBufs(0, bs1) && OpenBufs(0, bs2);
    forall i | 0 <= i < |bs| && bs[i].busy ensures bs2[i] == bs[i] {
      assert bs1[i] == bs[i];
    }
  }

  lemma KeptAt(bs: seq<Cache.Buf>, bs': seq<Cache.Buf>, b: nat)
    requires KeptOf(bs, bs') == Known && b < |bs| && bs[b].busy
    ensures |bs| == |bs'| && bs'[b] == bs[b]
  {
    assert OpenBufs(0, bs');
  }

  /** The same, but for buffer `b`. */
  ghost function KeptButOf(bs: seq<Cache.Buf>, bs': seq<Cache.Buf>, b: nat): Seal {
    if forall z: nat {:trigger OpenBufs(z, bs')} :: OpenBufs(z, bs') ==>
         |bs| == |bs'| && forall i {:trigger bs'[i]} :: 0 <= i < |bs| && i != b && bs[i].busy ==> bs'[i] == bs[i]
    then Known else Unknown
  }

  lemma OnlyBut(bs: seq<Cache.Buf>, bs': seq<Cache.Buf>, b: nat)
    requires OnlyOf(bs, bs', b) == Known
    ensures KeptButOf(bs, bs', b) == Known
  {
    assert OpenBufs(0, bs');
  }

  lemma ButJoin(bs: seq<Cache.Buf>, bs1: seq<Cache.Buf>, bs2: seq<Cache.Buf>, b: nat)
    requires KeptOf(bs, bs1) == Known && KeptButOf(bs1, bs2, b) == Known
    ensures KeptButOf(bs, bs2, b) == Known
  {
    assert OpenBufs(0, bs1) && OpenBufs(0, bs2);
    forall i | 0 <= i < |bs| && i != b && bs[i].busy ensures bs2[i] == bs[i] {
      assert bs1[i] == bs[i];
    }
  }

  /** A buffer that was idle is taken, used and given back. */
  lemma KeptAround(bs: seq<Cache.Buf>, bs1: seq<Cache.Buf>, bs2: seq<Cache.Buf>, b: nat)
    requires OnlyOf(bs, bs1, b) == Known && KeptButOf(bs1, bs2, b) == Known && b < |bs| && !bs[b].busy
    ensures KeptOf(bs, bs2) == Known
  {
    assert OpenBufs(0, bs1) && OpenBufs(0, bs2);
    forall i | 0 <= i < |bs| && bs[i].busy ensures bs2[i] == bs[i] {
      assert bs1[i] == bs[i];
    }
  }

  ghost function Users(bs: seq<Cache.Buf>, dev: nat, xs: set<nat>): set<nat> {
    set i | 0 <= i < |bs| && HoldsOne(bs[i], dev, xs)
  }

  /** Cached sectors are in as many buffers. */
  lemma {:induction false} UsersCount(bs: seq<Cache.Buf>, disk: map<Cache.Key, Block>, view: map<Cache.Key, Block>,
                                      dev: nat, xs: set<nat>)
    requires Cache.Coherent(bs, disk, view) && forall x :: x in xs ==> Cached(bs, dev, x)
    ensures |Users(bs, dev, xs)| == |xs|
    decreases |xs|
  {
    if xs == {} {
      assert Users(bs, dev, xs) == {};
    } else {
      var x :| x in xs;
      UsersCount(bs, disk, view, dev, xs - {x});
      assert Cached(bs, dev, x);
      var j :| 0 <= j < |bs| && Cache.Holds(bs[j], Cache.Key(dev, x));
      forall i | i in Users(bs, dev, xs) ensures i in Users(bs, dev, xs - {x}) || i == j {
        if bs[i].key.value.sector == x {
          Cache.Unique(bs, disk, view, i, j, Cache.Key(dev, x));
        }
      }
      assert Users(bs, dev, xs) == Users(bs, dev, xs - {x}) + {j};
    }
  }

  /** bget finds no buffer. */
  ghost predicate NoneLeft(bs: seq<Cache.Buf>, k: Cache.Key) {
    Cache.NoneHolds(bs, k) && forall i {:trigger bs[i]} :: 0 <= i < |bs| ==> bs[i].busy || bs[i].dirty
  }

  lemma InUse(bs: seq<Cache.Buf>, dev: nat, logged: set<nat>, held: set<nat>, i: nat)
    requires Uses(bs, dev, logged, held) && i < |bs|
    ensures bs[i].busy || bs[i].dirty <==> i in Users(bs, dev, logged + held)
  {
  }

  /** That is so if and only if there are not enough of them for the sectors that are logged or held and
      this one. */
  lemma NoneLeftIff(bs: seq<Cache.Buf>, disk: map<Cache.Key, Block>, view: map<Cache.Key, Block>, dev: nat,
                    logged: set<nat>, held: set<nat>, x: nat)
    requires Cache.Coherent(bs, disk, view) && UsesOf(bs, dev, logged, held) == Known
    ensures NoneLeft(bs, Cache.Key(dev, x)) <==> |logged + held + {x}| > |bs|
  {
    UsesIs(bs, dev, logged, held);
    var xs, all := logged + held, Interval(0, |bs|);
    UsersCount(bs, disk, view, dev, xs);
    forall i: nat | i < |bs| ensures bs[i].busy || bs[i].dirty <==> i in Users(bs, dev, xs) {
      InUse(bs, dev, logged, held, i);
    }
    SubsetFits(Users(bs, dev, xs), all);
    if NoneLeft(bs, Cache.Key(dev, x)) {
      assert Users(bs, dev, xs) == all;
      assert x !in xs by {
        assert x in xs ==> Cached(bs, dev, x);
      }
    } else if |xs + {x}| > |bs| {
      SameSize(Users(bs, dev, xs), all);
      assert Cache.NoneHolds(bs, Cache.Key(dev, x));
      assert false;
    }
  }

  lemma SameSize(a: set<nat>, b: set<nat>)
    requires a <= b && |a| >= |b|
    ensures a == b
  {
    assert |b - a| == |b| - |a|;
  }

  /** bread has found buffer `b` for sector `x`. */
  lemma GotUses(bs: seq<Cache.Buf>, bs': seq<Cache.Buf>, disk: map<Cache.Key, Block>, view: map<Cache.Key, Block>,
                b: nat, dev: nat, x: nat, logged: set<nat>, held: set<nat>)
    requires Cache.Coherent(bs, disk, view) && UsesOf(bs, dev, logged, held) == Known && x !in held
    requires |bs| == |bs'| && b < |bs| && OnlyOf(bs, bs', b) == Known && !bs[b].busy
    requires Cache.Holds(bs'[b], Cache.Key(dev, x)) && bs'[b].busy && bs'[b].dirty == bs[b].dirty
    requires Cache.Holds(bs[b], Cache.Key(dev, x)) || (Cache.NoneHolds(bs, Cache.Key(dev, x)) && !bs[b].dirty)
    ensures UsesOf(bs', dev, logged, held + {x}) == Known
  {
    UsesIs(bs, dev, logged, held);
    assert OpenBufs(0, bs');
    forall i: nat | i < |bs| ensures UsedFor(bs'[i], dev, logged, held + {x}) {
      assert UsedFor(bs[i], dev, logged, held);
      if i != b && Cache.Holds(bs[i], Cache.Key(dev, x)) {
        Cache.Unique(bs, disk, view, i, b, Cache.Key(dev, x));
      }
      if i == b && x in logged {
        assert Cached(bs, dev, x);
      }
    }
    forall y | y in logged + (held + {x}) ensures Cached(bs', dev, y) {
      if y == x {
        assert Cache.Holds(bs'[b], Cache.Key(dev, x));
      } else {
        assert Cached(bs, dev, y);
        var j :| 0 <= j < |bs| && Cache.Holds(bs[j], Cache.Key(dev, y));
        assert UsedFor(bs[j], dev, logged, held);
        assert Cache.Holds(bs'[j], Cache.Key(dev, y));
      }
    }
  }

  /** The flags of the buffer of sector `x` change. */
  lemma ChangedUses(bs: seq<Cache.Buf>, bs': seq<Cache.Buf>, disk: map<Cache.Key, Block>, view: map<Cache.Key, Block>,
                    b: nat, dev: nat, x: nat, logged: set<nat>, held: set<nat>, logged': set<nat>, held': set<nat>)
    requires Cache.Coherent(bs, disk, view) && UsesOf(bs, dev, logged, held) == Known
    requires |bs| == |bs'| && b < |bs| && OnlyOf(bs, bs', b) == Known
    requires Cache.Holds(bs[b], Cache.Key(dev, x)) && bs'[b].key == bs[b].key
    requires (bs'[b].busy <==> x in held') && (bs'[b].dirty <==> x in logged')
    requires logged' - {x} == logged - {x} && held' - {x} == held - {x}
    ensures UsesOf(bs', dev, logged', held') == Known
  {
    UsesIs(bs, dev, logged, held);
    assert OpenBufs(0, bs');
    forall y ensures y != x ==> (y in logged' <==> y in logged) && (y in held' <==> y in held) {
      assert y != x ==> (y in logged' <==> y in logged' - {x}) && (y in logged <==> y in logged - {x});
      assert y != x ==> (y in held' <==> y in held' - {x}) && (y in held <==> y in held - {x});
    }
    forall i: nat | i < |bs| ensures UsedFor(bs'[i], dev, logged', held') {
      assert UsedFor(bs[i], dev, logged, held);
      if i != b && Cache.Holds(bs[i], Cache.Key(dev, x)) {
        Cache.Unique(bs, disk, view, i, b, Cache.Key(dev, x));
      }
    }
    forall y | y in logged' + held' ensures Cached(bs', dev, y) {
      if y == x {
        assert Cache.Holds(bs'[b], Cache.Key(dev, x));
      } else {
        assert Cached(bs, dev, y);
        var j :| 0 <= j < |bs| && Cache.Holds(bs[j], Cache.Key(dev, y));
        assert Cache.Holds(bs'[j], Cache.Key(dev, y));
      }
    }
  }

  // ----- The view of a transaction -----

  /** Readers see the home sectors of `f` and the log of `e`. */
  predicate Sees(l: Log.Layout, v: Disk, e: Disk, f: Disk) {
    Log.SameHomes(l, v, f) && Log.SameLog(l, v, e)
  }

  lemma SeesMore(l: Log.Layout, v: Disk, e: Disk, f: Disk, s: nat, x: nat, data: Block)
    requires Sees(l, v, e, f) && l.start <= s < |v| && x < l.start
    ensures Sees(l, v[s := data][x := data], e[s := data], f[x := data])
  {
  }

  /** What the first `k` changes of a transaction find in the sectors they change. */
  function Seen(d: Disk, t: Log.Txn, k: nat): seq<Block>
    requires k <= |t|
  {
    if k == 0 then []
    else
      var e, x := Log.Apply(d, t, k - 1), t[k - 1].sector;
      Seen(d, t, k - 1) + [if x < |e| then e[x] else Zero]
  }

  /** Opens the fact below for this disk and view only. */
  predicate OpenAt(z: nat, e: Disk, v: Disk) {
    true
  }

  /** Where a transaction is after `k` changes: its header, the disk, the view, what was seen and the disk
      writes so far. */
  ghost function PhaseOf(l: Log.Layout, d: Disk, t: Log.Txn, k: nat, h: seq<nat>, e: Disk, v: Disk, seen: seq<Block>,
                         ws: seq<Log.Write>): Seal {
    if forall z: nat {:trigger OpenAt(z, e, v)} :: OpenAt(z, e, v) ==>
         && k <= |t| && h == Log.HeaderAfter(t, k) && e == Log.LogDisk(l, d, t, k)
         && Sees(l, v, e, Log.Apply(d, t, k)) && seen == Seen(d, t, k) && ws == Log.LogPhase(l, t, k)
    then Known else Unknown
  }

  lemma PhaseStart(l: Log.Layout, d: Disk, t: Log.Txn)
    requires Log.Fits(l, d)
    ensures PhaseOf(l, d, t, 0, [], d, d, [], []) == Known
  {
  }

  lemma PhaseNext(l: Log.Layout, d: Disk, t: Log.Txn, k: nat, h: seq<nat>, e: Disk, v: Disk, seen: seq<Block>,
                  ws: seq<Log.Write>, s: nat)
    requires PhaseOf(l, d, t, k, h, e, v, seen, ws) == Known && k < |t| && t[k].sector < l.start && Log.Fits(l, d)
    requires |v| == |e| == |d| && s == l.start + 1 + Log.Slot(h, t[k].sector) < |e|
    ensures PhaseOf(l, d, t, k + 1, Log.Absorb(h, t[k].sector), e[s := t[k].data],
                    v[s := t[k].data][t[k].sector := t[k].data], seen + [v[t[k].sector]],
                    ws + [Log.Write(s, t[k].data)]) == Known
  {
    PhaseIs(l, d, t, k, h, e, v, seen, ws);
    OneMoreChange(l, d, t, k, s);
    SeesMore(l, v, e, Log.Apply(d, t, k), s, t[k].sector, t[k].data);
    SeenNext(l, d, t, k, v);
    PhaseMake(l, d, t, k + 1, Log.Absorb(h, t[k].sector), e[s := t[k].data],
              v[s := t[k].data][t[k].sector := t[k].data], seen + [v[t[k].sector]], ws + [Log.Write(s, t[k].data)]);
  }

  lemma PhaseMake(l: Log.Layout, d: Disk, t: Log.Txn, k: nat, h: seq<nat>, e: Disk, v: Disk, seen: seq<Block>,
                  ws: seq<Log.Write>)
    requires k <= |t| && h == Log.HeaderAfter(t, k) && e == Log.LogDisk(l, d, t, k)
    requires Sees(l, v, e, Log.Apply(d, t, k)) && seen == Seen(d, t, k) && ws == Log.LogPhase(l, t, k)
    ensures PhaseOf(l, d, t, k, h, e, v, seen, ws) == Known
  {
  }

  lemma OneMoreChange(l: Log.Layout, d: Disk, t: Log.Txn, k: nat, s: nat)
    requires k < |t| && t[k].sector < l.start && Log.Fits(l, d)
    requires s == l.start + 1 + Log.Slot(Log.HeaderAfter(t, k), t[k].sector) < |d|
    ensures Log.HeaderAfter(t, k + 1) == Log.Absorb(Log.HeaderAfter(t, k), t[k].sector)
    ensures Log.LogDisk(l, d, t, k + 1) == Log.LogDisk(l, d, t, k)[s := t[k].data]
    ensures Log.Apply(d, t, k + 1) == Log.Apply(d, t, k)[t[k].sector := t[k].data]
    ensures Log.LogPhase(l, t, k + 1) == Log.LogPhase(l, t, k) + [Log.Write(s, t[k].data)]
  {
    Log.LogDiskStep(l, d, t, k + 1);
  }

  lemma SeenNext(l: Log.Layout, d: Disk, t: Log.Txn, k: nat, v: Disk)
    requires k < |t| && t[k].sector < l.start && Log.SameHomes(l, v, Log.Apply(d, t, k))
    ensures t[k].sector < |v| && Seen(d, t, k + 1) == Seen(d, t, k) + [v[t[k].sector]]
  {
    assert v[..l.start][t[k].sector] == Log.Apply(d, t, k)[..l.start][t[k].sector];
  }

  /** The header lists the sectors of the log_writes so far. */
  lemma PhaseSectors(l: Log.Layout, d: Disk, t: Log.Txn, k: nat, h: seq<nat>, e: Disk, v: Disk, seen: seq<Block>,
                     ws: seq<Log.Write>)
    requires PhaseOf(l, d, t, k, h, e, v, seen, ws) == Known
    ensures k <= |t| && Elements(h) == Elements(SectorList(t)[..k]) && |h| == |Elements(h)| && |e| == |v| == |d|
  {
    PhaseHeader(l, d, t, k, h, e, v, seen, ws);
    HeaderElements(t, k);
    SectorsListed(t, k);
    assert Elements(h) == Sectors(t, k);
  }

  lemma PhaseIs(l: Log.Layout, d: Disk, t: Log.Txn, k: nat, h: seq<nat>, e: Disk, v: Disk, seen: seq<Block>,
                ws: seq<Log.Write>)
    requires PhaseOf(l, d, t, k, h, e, v, seen, ws) == Known
    ensures k <= |t| && h == Log.HeaderAfter(t, k) && e == Log.LogDisk(l, d, t, k)
    ensures Sees(l, v, e, Log.Apply(d, t, k)) && seen == Seen(d, t, k) && ws == Log.LogPhase(l, t, k)
  {
    assert OpenAt(0, e, v);
  }

  lemma PhaseHeader(l: Log.Layout, d: Disk, t: Log.Txn, k: nat, h: seq<nat>, e: Disk, v: Disk, seen: seq<Block>,
                    ws: seq<Log.Write>)
    requires PhaseOf(l, d, t, k, h, e, v, seen, ws) == Known
    ensures k <= |t| && h == Log.HeaderAfter(t, k) && |e| == |v| == |d|
  {
    PhaseIs(l, d, t, k, h, e, v, seen, ws);
  }

  // ----- Committing -----

  lemma JoinWrites(a: seq<Log.Write>, b: seq<Log.Write>, c: seq<Log.Write>)
    ensures a + b + c == a + (b + c)
  {
  }

  lemma OneMoreWrite(a: seq<Log.Write>, ws: seq<Log.Write>, i: nat)
    requires i < |ws|
    ensures a + ws[..i] + [ws[i]] == a + ws[..i + 1]
  {
  }

  /** A reader finds in each logged sector what its slot of the log holds. */
  predicate SlotsShow(l: Log.Layout, h: seq<nat>, v: Disk, e: Disk) {
    && |v| == |e| && |h| < l.size && l.start + l.size == |e| && (forall i :: 0 <= i < |h| ==> h[i] < l.start)
    && forall i {:trigger h[i]} :: 0 <= i < |h| ==> v[h[i]] == e[l.start + 1 + i]
  }

  /** And in every other sector what is on the disk. */
  predicate OthersShow(h: seq<nat>, v: Disk, e: Disk) {
    |v| == |e| && forall x {:trigger v[x]} :: 0 <= x < |v| && x !in h ==> v[x] == e[x]
  }

  /** So it is after the changes of a transaction. */
  lemma ShowsSlots(l: Log.Layout, d: Disk, t: Log.Txn, v: Disk)
    requires Log.TxnOk(l, t, |t|) && Log.Fits(l, d) && Sees(l, v, Log.LogDisk(l, d, t, |t|), Log.Apply(d, t, |t|))
    ensures var h, e := Log.HeaderAfter(t, |t|), Log.LogDisk(l, d, t, |t|);
            SlotsShow(l, h, v, e) && OthersShow(h, v, e) && Distinct(h)
  {
    Log.LogPhaseHolds(l, d, t, |t|);
    HoldsShow(l, d, Log.HeaderAfter(t, |t|), Log.LogDisk(l, d, t, |t|), Log.Apply(d, t, |t|), v);
  }

  lemma HoldsShow(l: Log.Layout, d: Disk, h: seq<nat>, e: Disk, f: Disk, v: Disk)
    requires Log.Holds(l, d, h, e, f) && Sees(l, v, e, f)
    ensures SlotsShow(l, h, v, e) && OthersShow(h, v, e) && Distinct(h)
  {
    forall x | 0 <= x < l.start ensures v[x] == f[x] && e[x] == d[x] {
      assert v[..l.start][x] == f[..l.start][x] && e[..l.start][x] == d[..l.start][x];
    }
  }

  /** Then installing the log makes the disk what the reader sees. */
  lemma InstalledShows(l: Log.Layout, h: seq<nat>, v: Disk, g: Disk)
    requires SlotsShow(l, h, v, g) && OthersShow(h, v, g) && Distinct(h) && Log.Fits(l, g) && Log.Loggable(l, h)
    ensures Log.Installed(l, g, h) == v
  {
    Log.InstallKeepsLog(l, g, h, |h|);
    var d := Log.Installed(l, g, h);
    forall x | 0 <= x < |g| ensures d[x] == v[x] {
      if x < l.start {
        Log.InstalledAt(l, g, h, x);
      }
    }
  }

  /** The first `tail` sectors have been installed. */
  ghost function InstallingOf(l: Log.Layout, g: Disk, h: seq<nat>, v: Disk, tail: nat, e: Disk): Seal {
    if forall z: nat {:trigger OpenAt(z, e, v)} :: OpenAt(z, e, v) ==>
         && SlotsShow(l, h, v, g) && OthersShow(h, v, g) && Distinct(h) && Log.Fits(l, g) && Log.Loggable(l, h)
         && tail <= |h| && e == Log.Apply(g, Log.InstallWrites(l, g, h), tail)
    then Known else Unknown
  }

  lemma InstallStarts(l: Log.Layout, g: Disk, h: seq<nat>, v: Disk)
    requires SlotsShow(l, h, v, g) && OthersShow(h, v, g) && Distinct(h) && Log.Fits(l, g) && Log.Loggable(l, h)
    ensures InstallingOf(l, g, h, v, 0, g) == Known
  {
  }

  lemma InstallFacts(l: Log.Layout, g: Disk, h: seq<nat>, v: Disk, tail: nat, e: Disk)
    requires InstallingOf(l, g, h, v, tail, e) == Known && tail < |h| < l.size
    ensures |v| == |e| == l.start + l.size && Log.SameLog(l, v, e) && h[tail] < l.start
    ensures v[h[tail]] == e[l.start + 1 + tail] && Distinct(h[tail..]) && forall i :: tail <= i < |h| ==> h[i] < l.start
    ensures Log.Fits(l, g) && Log.Loggable(l, h)
    ensures Log.InstallWrites(l, g, h)[tail] == Log.Write(h[tail], e[l.start + 1 + tail])
    ensures InstallingOf(l, g, h, v, tail + 1, e[h[tail] := e[l.start + 1 + tail]]) == Known
  {
    assert OpenAt(0, e, v);
    Log.InstallKeepsLog(l, g, h, tail);
    forall x | l.start <= x < |v| ensures v[x] == e[x] {
      assert x !in h;
    }
  }

  lemma InstallEnds(l: Log.Layout, g: Disk, h: seq<nat>, v: Disk, e: Disk)
    requires InstallingOf(l, g, h, v, |h|, e) == Known
    ensures Log.Fits(l, g) && Log.Loggable(l, h) && e == Log.Installed(l, g, h) == v
  {
    assert OpenAt(0, e, v);
    InstalledShows(l, h, v, g);
  }

  /** Writing the header changes neither the slots nor the homes. */
  lemma HeaderShows(l: Log.Layout, h: seq<nat>, v: Disk, e: Disk)
    requires SlotsShow(l, h, v, e) && OthersShow(h, v, e) && Log.Fits(l, e) && Log.Loggable(l, h)
    ensures var g := Log.WithHeader(l, e, h);
            SlotsShow(l, h, v[l.start := g[l.start]], g) && OthersShow(h, v[l.start := g[l.start]], g)
  {
    var g := Log.WithHeader(l, e, h);
    forall x | 0 <= x < |e| && x != l.start ensures g[x] == e[x] {
      assert x < l.start ==> g[..l.start][x] == e[..l.start][x];
    }
  }

  /** The writes of a commit: header, homes, cleared header. */
  lemma CommitIs(l: Log.Layout, e: Disk, h: seq<nat>)
    requires Log.Fits(l, e) && Log.Loggable(l, h) && h != []
    ensures var g := Log.WithHeader(l, e, h);
            var f := Log.Installed(l, g, h);
            var c := Log.WithHeader(l, f, []);
            var cs := Log.CommitPhase(l, e, h);
            && cs == [Log.Write(l.start, g[l.start])] + Log.InstallWrites(l, g, h) + [Log.Write(l.start, c[l.start])]
            && c == Log.Apply(e, cs, |cs|) && c == f[l.start := c[l.start]]
  {
    var g := Log.WithHeader(l, e, h);
    Log.CommitParts(l, e, h);
    Log.RecoveredIs(l, g);
    Log.InstallKeepsLog(l, g, h, |h|);
    assert Log.WithHeader(l, Log.Installed(l, g, h), [])[l.start] == SetWord(g[l.start], 0, 0);
    var clear := Log.Write(l.start, SetWord(g[l.start], 0, 0));
    JoinWrites([Log.Write(l.start, g[l.start])], Log.InstallWrites(l, g, h), [clear]);
  }

  lemma TxnDone(l: Log.Layout, d: Disk, t: Log.Txn, e: Disk, h: seq<nat>, c: Disk)
    requires Log.Clean(l, d) && Log.TxnOk(l, t, |t|) && e == Log.LogDisk(l, d, t, |t|) && h == Log.HeaderAfter(t, |t|)
    requires Log.Fits(l, e) && Log.Loggable(l, h) && var cs := Log.CommitPhase(l, e, h); c == Log.Apply(e, cs, |cs|)
    ensures Log.Clean(l, c) && Log.SameHomes(l, c, Log.Apply(d, t, |t|))
    ensures var ws := Log.TxnWrites(l, d, t);
            ws == Log.LogPhase(l, t, |t|) + Log.CommitPhase(l, e, h) && c == Log.Apply(d, ws, |ws|)
  {
    Log.PhasesAreClean(l, d, t);
    Log.ApplyThen(d, Log.LogPhase(l, t, |t|), Log.CommitPhase(l, e, h), |Log.CommitPhase(l, e, h)|);
  }
}

/** log.c on top of bio.c as code: every sector is read with bread and written with bwrite, log_write pins
    the buffers it is given, and a call holds the buffers that its trail says while it reads and logs
    other sectors.  No other process uses a buffer meanwhile. */
module StorageCode {
  import opened Blocks
  import opened Buffers
  import opened Counting
  import opened Options
  import opened Storage
  import opened CacheCode
  import opened Sealed
  import Cache
  import Log

  // ----- The cache from outside -----

  ghost function Health(c: BufferCache): Seal
    reads c
  {
    if forall z: nat {:trigger Open(z)} :: Open(z) ==> c.Valid() then Known else Unknown
  }

  lemma Coherence(c: BufferCache)
    requires Health(c) == Known
    ensures Cache.Coherent(c.bufs, c.disk, c.view)
  {
    assert Open(0);
  }

  method ReadBuf(c: BufferCache, k: Cache.Key) returns (r: Got)
    requires Health(c) == Known && k in c.disk && k in c.view
    modifies c`bufs
    ensures Health(c) == Known && |c.bufs| == |old(c.bufs)|
    ensures r.Sleeps? ==> r.b < |old(c.bufs)| && Cache.Holds(old(c.bufs)[r.b], k) && old(c.bufs)[r.b].busy
    ensures r.Sleeps? || r.NoBuffers? ==> c.bufs == old(c.bufs)
    ensures r.NoBuffers? ==> NoneLeft(c.bufs, k)
    ensures r.Hit? || r.Recycled? ==> r.b < |c.bufs| && !old(c.bufs)[r.b].busy
    ensures r.Hit? || r.Recycled? ==>
              c.bufs == old(c.bufs)[r.b := Cache.Buf(Some(k), true, true, old(c.bufs)[r.b].dirty, c.view[k])]
    ensures r.Hit? ==> Cache.Holds(old(c.bufs)[r.b], k)
    ensures r.Recycled? ==> Cache.NoneHolds(old(c.bufs), k) && !old(c.bufs)[r.b].dirty
  {
    assert Open(0);
    r := c.Bread(k);
  }

  method WriteBack(c: BufferCache, b: nat, data: Block)
    requires Health(c) == Known && b < |c.bufs| && c.bufs[b].busy && c.bufs[b].key.Some?
    modifies c
    ensures Health(c) == Known
    ensures c.bufs == old(c.bufs)[b := old(c.bufs)[b].(data := data, valid := true, dirty := false)]
    ensures var k := c.bufs[b].key.value; c.disk == old(c.disk)[k := data] && c.view == old(c.view)[k := data]
  {
    assert Open(0);
    c.Bwrite(b, data);
  }

  method PinBuf(c: BufferCache, b: nat, data: Block)
    requires Health(c) == Known && b < |c.bufs| && c.bufs[b].busy && c.bufs[b].valid && c.bufs[b].key.Some?
    modifies c
    ensures Health(c) == Known
    ensures c.bufs == old(c.bufs)[b := old(c.bufs)[b].(data := data, dirty := true)]
    ensures var k := c.bufs[b].key.value; c.disk == old(c.disk) && c.view == old(c.view)[k := data]
  {
    assert Open(0);
    c.Pin(b, data);
  }

  method Release(c: BufferCache, b: nat)
    requires Health(c) == Known && b < |c.bufs| && c.bufs[b].busy
    modifies c
    ensures Health(c) == Known && c.disk == old(c.disk) && c.view == old(c.view)
    ensures c.bufs == old(c.bufs)[b := old(c.bufs)[b].(busy := false)]
  {
    assert Open(0);
    c.Brelse(b);
  }

  /** The kernel after boot: an empty cache of NBUF buffers over a disk that needs no recovery. */
  method Attach(l: Log.Layout, dev: nat, d: Disk) returns (s: CachedLog)
    requires Log.Clean(l, d)
    ensures fresh(s) && fresh(s.cache) && s.l == l && s.Ready() && s.n == 0 && s.Using({}, {})
    ensures s.V() == s.D() == d && |s.cache.bufs| == NBUF
  {
    var m := map x: nat | x < |d| :: Cache.Key(dev, x) := d[x];
    var c := new BufferCache(NBUF, m);
    s := new CachedLog(l, dev, c);
    assert DiskOf(m, dev, |d|) == d;
  }

  /** The run of a piece whose buffer is held for sector `x`. */
  function RunUnder(l: Log.Layout, nbuf: nat, t: seq<nat>, held: set<nat>, x: nat, inner: Trail, put: bool): Run {
    var r := RunAll(l, nbuf, t, held + {x}, inner);
    if r.Through? && put then LogRun(l, nbuf, r.t, held + {x}, x) else r
  }

  /** What stopped a run. */
  function HaltOf(r: Run): Option<Why> {
    if r.Through? then None else Some(r.why)
  }

  class CachedLog {
    const l: Log.Layout
    const dev: nat
    const cache: BufferCache
    var n: nat
    var sector: seq<nat>
    ghost var writes: seq<Log.Write>

    constructor (l: Log.Layout, dev: nat, cache: BufferCache)
      ensures this.l == l && this.dev == dev && this.cache == cache && n == 0 && |sector| == Log.LOGSIZE && writes == []
    {
      this.l, this.dev, this.cache, n, sector, writes := l, dev, cache, 0, Repeat(0, Log.LOGSIZE), [];
    }

    /** What is on the disk, and what a reader sees. */
    ghost function D(): Disk
      requires Has(cache.disk, dev, l.start + l.size)
      reads cache
    {
      DiskOf(cache.disk, dev, l.start + l.size)
    }

    ghost function V(): Disk
      requires Has(cache.view, dev, l.start + l.size)
      reads cache
    {
      DiskOf(cache.view, dev, l.start + l.size)
    }

    ghost predicate Ready()
      reads this, cache
    {
      && Health(cache) == Known && Has(cache.disk, dev, l.start + l.size) && Has(cache.view, dev, l.start + l.size)
      && 1 <= l.size && |sector| == Log.LOGSIZE && n <= Log.LOGSIZE && Log.Loggable(l, sector[..n])
    }

    /** The buffers of the sectors `held` are busy, those of the sectors `logged` are dirty, and no others. */
    ghost predicate Using(logged: set<nat>, held: set<nat>)
      reads cache
    {
      UsesOf(cache.bufs, dev, logged, held) == Known
    }

    /** Buffer `b` is held for sector `x`. */
    ghost predicate Has1(b: nat, x: nat)
      reads cache
    {
      b < |cache.bufs| && cache.bufs[b].busy && cache.bufs[b].valid && Cache.Holds(cache.bufs[b], Cache.Key(dev, x))
    }

    /** bread: it panics if and only if the sectors in use and this one are more than there are buffers. */
    method Get(x: nat, ghost logged: set<nat>, ghost held: set<nat>) returns (found: bool, b: nat)
      requires Ready() && x < l.start + l.size && Using(logged, held) && x !in held
      modifies cache`bufs
      ensures Ready() && |cache.bufs| == |old(cache.bufs)|
      ensures found <==> |logged + held + {x}| <= |cache.bufs|
      ensures !found ==> cache.bufs == old(cache.bufs)
      ensures found ==> Has1(b, x) && cache.bufs[b].data == V()[x] && Using(logged, held + {x})
      ensures found ==> !old(cache.bufs)[b].busy && OnlyOf(old(cache.bufs), cache.bufs, b) == Known
    {
      Coherence(cache);
      NoneLeftIff(cache.bufs, cache.disk, cache.view, dev, logged, held, x);
      NoneBusy(cache.bufs, dev, logged, held, x);
      var r := ReadBuf(cache, Cache.Key(dev, x));
      if r.NoBuffers? {
        return false, 0;
      }
      found, b := true, r.b;
      GotUses(old(cache.bufs), cache.bufs, cache.disk, cache.view, b, dev, x, logged, held);
    }

    lemma NoneBusy(bs: seq<Cache.Buf>, dev: nat, logged: set<nat>, held: set<nat>, x: nat)
      requires UsesOf(bs, dev, logged, held) == Known && x !in held
      ensures forall i :: 0 <= i < |bs| && Cache.Holds(bs[i], Cache.Key(dev, x)) ==> !bs[i].busy
    {
      UsesIs(bs, dev, logged, held);
    }

    /** brelse */
    method PutBack(b: nat, x: nat, ghost logged: set<nat>, ghost held: set<nat>)
      requires Ready() && Using(logged, held) && Has1(b, x) && x in held
      modifies cache
      ensures Ready() && |cache.bufs| == |old(cache.bufs)| && D() == old(D()) && V() == old(V())
      ensures Using(logged, held - {x})
      ensures OnlyOf(old(cache.bufs), cache.bufs, b) == Known
    {
      Coherence(cache);
      ghost var bs, disk, view := cache.bufs, cache.disk, cache.view;
      DirtyIf(bs, dev, logged, held, b, x);
      Release(cache, b);
      ChangedUses(bs, cache.bufs, disk, view, b, dev, x, logged, held, logged, held - {x});
    }

    lemma DirtyIf(bs: seq<Cache.Buf>, dev: nat, logged: set<nat>, held: set<nat>, b: nat, x: nat)
      requires UsesOf(bs, dev, logged, held) == Known && b < |bs| && Cache.Holds(bs[b], Cache.Key(dev, x))
      ensures bs[b].dirty <==> x in logged
    {
      UsesIs(bs, dev, logged, held);
    }

    /** New bytes and bwrite. */
    method WriteOut(b: nat, x: nat, data: Block, ghost logged: set<nat>, ghost held: set<nat>)
      requires Ready() && x < l.start + l.size && Using(logged, held) && Has1(b, x) && x in held
      modifies this`writes, cache
      ensures Ready() && |cache.bufs| == |old(cache.bufs)| && Has1(b, x) && Using(logged - {x}, held)
      ensures D() == old(D())[x := data] && V() == old(V())[x := data]
      ensures writes == old(writes) + [Log.Write(x, data)]
      ensures OnlyOf(old(cache.bufs), cache.bufs, b) == Known
    {
      Coherence(cache);
      ghost var bs, disk, view := cache.bufs, cache.disk, cache.view;
      DiskSet(cache.disk, dev, l.start + l.size, x, data);
      DiskSet(cache.view, dev, l.start + l.size, x, data);
      WriteBack(cache, b, data);
      writes := writes + [Log.Write(x, data)];
      ChangedUses(bs, cache.bufs, disk, view, b, dev, x, logged, held, logged - {x}, held);
    }

    /** New bytes, and the mark of log_write's last statement. */
    method Mark(b: nat, x: nat, data: Block, ghost logged: set<nat>, ghost held: set<nat>)
      requires Ready() && x < l.start + l.size && Using(logged, held) && Has1(b, x) && x in held
      modifies cache
      ensures Ready() && |cache.bufs| == |old(cache.bufs)| && Has1(b, x) && Using(logged + {x}, held)
      ensures D() == old(D()) && V() == old(V())[x := data]
      ensures OnlyOf(old(cache.bufs), cache.bufs, b) == Known
    {
      Coherence(cache);
      ghost var bs, disk, view := cache.bufs, cache.disk, cache.view;
      DiskSet(cache.view, dev, l.start + l.size, x, data);
      PinBuf(cache, b, data);
      ChangedUses(bs, cache.bufs, disk, view, b, dev, x, logged, held, logged + {x}, held);
    }

    /** log_write's search loop. */
    method FindSlot(x: nat) returns (i: nat)
      requires |sector| == Log.LOGSIZE && n <= Log.LOGSIZE
      ensures i <= n && i == Log.Slot(sector[..n], x) && (i == n ==> x !in sector[..n])
    {
      ghost var h := sector[..n];
      i := 0;
      while i < n && sector[i] != x
        invariant 0 <= i <= n
        invariant forall j :: 0 <= j < i ==> h[j] != x
      {
        i := i + 1;
      }
    }

    /** log_write for the buffer `b` of sector `x` up to its last statement, while the sectors `held` are
        held.  It panics if the log is full, and bget does if no buffer is left for the log's sector. */
    method LogSlot(b: nat, x: nat, data: Block, ghost held: set<nat>) returns (stop: Option<Why>)
      requires Ready() && x < l.start && x in held && Has1(b, x) && n == |Elements(sector[..n])|
      requires Using(Elements(sector[..n]), held) && forall y :: y in held ==> y < l.start
      modifies this, cache
      ensures Ready() && |cache.bufs| == |old(cache.bufs)|
      ensures Using(old(Elements(sector[..n])), held)
      ensures KeptOf(old(cache.bufs), cache.bufs) == Known
      ensures stop == if old(n) >= Log.Capacity(l) then Some(Why.LogFull)
                      else if |old(Elements(sector[..n])) + held| >= |cache.bufs| then Some(Why.NoBuffers)
                      else None
      ensures stop.Some? ==> sector[..n] == old(sector[..n]) && D() == old(D()) && V() == old(V())
      ensures stop.Some? ==> writes == old(writes)
      ensures stop.None? ==> sector[..n] == Log.Absorb(old(sector[..n]), x)
      ensures stop.None? ==> var s := l.start + 1 + Log.Slot(old(sector[..n]), x);
                             && s < l.start + l.size && D() == old(D())[s := data] && V() == old(V())[s := data]
                             && writes == old(writes) + [Log.Write(s, data)]
    {
      KeptSame(cache.bufs);
      if n >= Log.LOGSIZE || n >= l.size - 1 {
        return Some(Why.LogFull);
      }
      var i := FindSlot(x);
      NotLogged(sector[..n], l.start + i + 1);
      var found := WriteSlot(l.start + i + 1, data, Elements(sector[..n]), held);
      if !found {
        return Some(Why.NoBuffers);
      }
      Record(i, x);
      stop := None;
    }

    /** bread of sector `s` of the log, the copy, bwrite and brelse. */
    method WriteSlot(s: nat, data: Block, ghost logged: set<nat>, ghost held: set<nat>) returns (found: bool)
      requires Ready() && s < l.start + l.size && s !in logged && s !in held && Using(logged, held)
      modifies this`writes, cache
      ensures Ready() && |cache.bufs| == |old(cache.bufs)| && Using(logged, held)
      ensures KeptOf(old(cache.bufs), cache.bufs) == Known && (found <==> |logged + held| < |cache.bufs|)
      ensures !found ==> D() == old(D()) && V() == old(V()) && writes == old(writes)
      ensures found ==> D() == old(D())[s := data] && V() == old(V())[s := data]
      ensures found ==> writes == old(writes) + [Log.Write(s, data)]
    {
      KeptSame(cache.bufs);
      OneMoreSector(logged + held, s);
      var lbuf;
      found, lbuf := Get(s, logged, held);
      if found {
        CopyOut(lbuf, s, data, logged, held, old(cache.bufs));
      }
    }

    /** The copy of a logged sector goes to sector `s` of the log: bwrite and brelse. */
    method CopyOut(lbuf: nat, s: nat, data: Block, ghost logged: set<nat>, ghost held: set<nat>,
                   ghost bs: seq<Cache.Buf>)
      requires Ready() && s < l.start + l.size && s !in logged && s !in held && Using(logged, held + {s})
      requires Has1(lbuf, s) && lbuf < |bs| && !bs[lbuf].busy && OnlyOf(bs, cache.bufs, lbuf) == Known
      modifies this`writes, cache
      ensures Ready() && |cache.bufs| == |old(cache.bufs)| && Using(logged, held) && KeptOf(bs, cache.bufs) == Known
      ensures D() == old(D())[s := data] && V() == old(V())[s := data]
      ensures writes == old(writes) + [Log.Write(s, data)]
    {
      ghost var bs1 := cache.bufs;
      WriteOut(lbuf, s, data, logged, held + {s});
      assert logged - {s} == logged && held + {s} - {s} == held;
      ghost var bs2 := cache.bufs;
      PutBack(lbuf, s, logged, held + {s});
      OnlyJoin(bs1, bs2, cache.bufs, lbuf);
      OnlyBut(bs1, cache.bufs, lbuf);
      KeptAround(bs, bs1, cache.bufs, lbuf);
    }

    lemma NotLogged(h: seq<nat>, s: nat)
      requires Log.Loggable(l, h) && l.start <= s
      ensures s !in Elements(h)
    {
    }

    lemma OneMoreSector(xs: set<nat>, s: nat)
      requires s !in xs
      ensures |xs + {s}| == |xs| + 1
    {
    }

    /** Sector `x` is entered in the header at `i`. */
    method Record(i: nat, x: nat)
      requires |sector| == Log.LOGSIZE && n < Log.Capacity(l) && Log.Loggable(l, sector[..n]) && x < l.start
      requires i == Log.Slot(sector[..n], x) && (i == n ==> x !in sector[..n])
      modifies this`n, this`sector
      ensures |sector| == Log.LOGSIZE && n <= Log.LOGSIZE && Log.Loggable(l, sector[..n])
      ensures sector[..n] == Log.Absorb(old(sector[..n]), x)
    {
      ghost var h := sector[..n];
      sector := sector[i := x];
      if i == n {
        n := n + 1;
        assert sector[..n] == h + [x];
      } else {
        assert h[i] == x && sector[..n] == h;
      }
    }

    // ----- A call -----

    /** After `k` log_writes of the transaction `t`. */
    ghost predicate Stands(d: Disk, t: Log.Txn, k: nat, seen: seq<Block>, ws: seq<Log.Write>, before: seq<Log.Write>)
      reads this, cache
    {
      && Ready() && Log.Fits(l, d) && PhaseOf(l, d, t, k, sector[..n], D(), V(), seen, ws) == Known
      && writes == before + ws
    }

    /** The held sectors are home sectors, and all is in order. */
    ghost predicate Holding(held: set<nat>)
      reads this, cache
    {
      n <= |sector| && Using(Elements(sector[..n]), held) && forall y :: y in held ==> y < l.start
    }

    /** log_write of the held buffer of sector `x`, the next of the transaction's, and brelse. */
    method LogPut(b: nat, x: nat, t: Log.Txn, k: nat, seen: seq<Block>, ghost held: set<nat>, ghost d: Disk,
                  ghost ws: seq<Log.Write>, ghost before: seq<Log.Write>)
      returns (stop: Option<Why>, seen': seq<Block>, ghost ws': seq<Log.Write>)
      requires Stands(d, t, k, seen, ws, before) && Holding(held + {x}) && x !in held && Has1(b, x)
      requires k < |t| && t[k].sector == x
      modifies this, cache
      ensures |cache.bufs| == |old(cache.bufs)|
      ensures var r := LogRun(l, |cache.bufs|, SectorList(t)[..k], held + {x}, x);
              && stop == HaltOf(r) && r.t == SectorList(t)[..if stop.None? then k + 1 else k]
      ensures Stands(d, t, if stop.None? then k + 1 else k, seen', ws', before)
      ensures stop.None? ==> Holding(held)
      ensures stop.None? ==> KeptButOf(old(cache.bufs), cache.bufs, b) == Known
    {
      ghost var h, e, v := sector[..n], D(), V();
      PhaseSectors(l, d, t, k, h, e, v, seen, ws);
      var was := cache.bufs[b].data;
      SeenIs(b, x);
      stop := PutOne(b, x, t[k].data, held);
      seen', ws' := seen, ws;
      if stop.None? {
        ghost var s := l.start + 1 + Log.Slot(h, x);
        JoinWrites(before, ws, [Log.Write(s, t[k].data)]);
        PhaseNext(l, d, t, k, h, e, v, seen, ws, s);
        seen', ws' := seen + [was], ws + [Log.Write(s, t[k].data)];
        assert SectorList(t)[..k + 1] == SectorList(t)[..k] + [x];
      }
    }

    lemma SeenIs(b: nat, x: nat)
      requires Ready() && Has1(b, x) && x < l.start + l.size
      ensures cache.bufs[b].data == V()[x]
    {
      Coherence(cache);
      assert Cache.BufOk(cache.bufs[b], cache.view);
    }

    /** log_write and brelse. */
    method PutOne(b: nat, x: nat, data: Block, ghost held: set<nat>) returns (stop: Option<Why>)
      requires Ready() && Holding(held + {x}) && x !in held && Has1(b, x) && n == |Elements(sector[..n])|
      modifies this, cache
      ensures Ready() && |cache.bufs| == |old(cache.bufs)|
      ensures stop == if old(n) >= Log.Capacity(l) then Some(Why.LogFull)
                      else if |old(Elements(sector[..n])) + (held + {x})| >= |cache.bufs| then Some(Why.NoBuffers)
                      else None
      ensures stop.Some? ==> sector[..n] == old(sector[..n]) && D() == old(D()) && V() == old(V())
      ensures stop.Some? ==> writes == old(writes)
      ensures stop.None? ==> sector[..n] == Log.Absorb(old(sector[..n]), x) && Holding(held)
      ensures stop.None? ==> KeptButOf(old(cache.bufs), cache.bufs, b) == Known
      ensures stop.None? ==> var s := l.start + 1 + Log.Slot(old(sector[..n]), x);
                             && s < l.start + l.size && D() == old(D())[s := data]
                             && V() == old(V())[s := data][x := data]
                             && writes == old(writes) + [Log.Write(s, data)]
    {
      ghost var h := sector[..n];
      stop := LogSlot(b, x, data, held + {x});
      if stop.None? {
        ghost var bs1 := cache.bufs;
        KeptAt(old(cache.bufs), bs1, b);
        FinishPut(b, x, data, Elements(h), held);
        OnlyBut(bs1, cache.bufs, b);
        ButJoin(old(cache.bufs), bs1, cache.bufs, b);
        AbsorbSet(h, x);
      }
    }

    lemma AbsorbSet(h: seq<nat>, x: nat)
      ensures Elements(Log.Absorb(h, x)) == Elements(h) + {x}
    {
    }

    /** The last statement of log_write, and brelse. */
    method FinishPut(b: nat, x: nat, data: Block, ghost logged: set<nat>, ghost held: set<nat>)
      requires Ready() && x < l.start && Using(logged, held + {x}) && Has1(b, x) && x !in held
      modifies cache
      ensures Ready() && |cache.bufs| == |old(cache.bufs)| && Using(logged + {x}, held)
      ensures D() == old(D()) && V() == old(V())[x := data]
      ensures OnlyOf(old(cache.bufs), cache.bufs, b) == Known
    {
      ghost var bs := cache.bufs;
      Mark(b, x, data, logged, held + {x});
      assert held + {x} - {x} == held;
      ghost var bs1 := cache.bufs;
      PutBack(b, x, logged + {x}, held + {x});
      OnlyJoin(bs, bs1, cache.bufs, b);
    }

    /** The breads, log_writes and brelses of a call, while the sectors `held` are held: it is stopped
        where and by what its trail says, and finds in each sector that it logs what it has written there
        before. */
    method Perform(tr: Trail, t: Log.Txn, k: nat, seen: seq<Block>, ghost held: set<nat>, ghost d: Disk,
                   ghost ws: seq<Log.Write>, ghost before: seq<Log.Write>)
      returns (stop: Option<Why>, k': nat, seen': seq<Block>, ghost ws': seq<Log.Write>)
      requires Stands(d, t, k, seen, ws, before) && Holding(held) && HomeOnly(l, tr) && Calm(held, tr)
      requires k + |Puts(tr)| <= |t| && SectorList(t)[k..k + |Puts(tr)|] == Puts(tr)
      modifies this, cache
      ensures |cache.bufs| == |old(cache.bufs)|
      ensures var r := RunAll(l, |cache.bufs|, SectorList(t)[..k], held, tr);
              k' <= |t| && stop == HaltOf(r) && r.t == SectorList(t)[..k']
      ensures Stands(d, t, k', seen', ws', before)
      ensures stop.None? ==> Holding(held) && k' == k + |Puts(tr)|
      ensures stop.None? ==> KeptOf(old(cache.bufs), cache.bufs) == Known
      decreases tr, 0
    {
      stop, k', seen', ws' := None, k, seen, ws;
      KeptSame(cache.bufs);
      if tr.Then? {
        SplitPuts(t, k, tr);
        stop, k', seen', ws' := Perform(tr.before, t, k, seen, held, d, ws, before);
        if stop.None? {
          ghost var bs := cache.bufs;
          stop, k', seen', ws' := PerformPiece(tr.last, t, k', seen', held, d, ws', before);
          if stop.None? {
            KeptJoin(old(cache.bufs), bs, cache.bufs);
          }
        }
      }
    }

    method PerformPiece(p: Piece, t: Log.Txn, k: nat, seen: seq<Block>, ghost held: set<nat>, ghost d: Disk,
                        ghost ws: seq<Log.Write>, ghost before: seq<Log.Write>)
      returns (stop: Option<Why>, k': nat, seen': seq<Block>, ghost ws': seq<Log.Write>)
      requires Stands(d, t, k, seen, ws, before) && Holding(held) && HomePiece(l, p) && CalmOf(held, p)
      requires k + |PutsOf(p)| <= |t| && SectorList(t)[k..k + |PutsOf(p)|] == PutsOf(p)
      modifies this, cache
      ensures |cache.bufs| == |old(cache.bufs)|
      ensures var r := RunOf(l, |cache.bufs|, SectorList(t)[..k], held, p);
              k' <= |t| && stop == HaltOf(r) && r.t == SectorList(t)[..k']
      ensures Stands(d, t, k', seen', ws', before)
      ensures stop.None? ==> Holding(held) && k' == k + |PutsOf(p)|
      ensures stop.None? ==> KeptOf(old(cache.bufs), cache.bufs) == Known
      decreases p, 1
    {
      stop, k', seen', ws' := None, k, seen, ws;
      PhaseSectors(l, d, t, k, sector[..n], D(), V(), seen, ws);
      var x := p.x;
      var found, b := Get(x, Elements(sector[..n]), held);
      if !found {
        stop := Some(Why.NoBuffers);
        return;
      }
      ghost var bs1 := cache.bufs;
      stop, k', seen', ws' := PerformHeld(b, p, t, k, seen, held, d, ws, before);
      if stop.None? {
        KeptAround(old(cache.bufs), bs1, cache.bufs, b);
      }
    }

    /** What follows the bread of a piece. */
    method PerformHeld(b: nat, p: Piece, t: Log.Txn, k: nat, seen: seq<Block>, ghost held: set<nat>, ghost d: Disk,
                       ghost ws: seq<Log.Write>, ghost before: seq<Log.Write>)
      returns (stop: Option<Why>, k': nat, seen': seq<Block>, ghost ws': seq<Log.Write>)
      requires Stands(d, t, k, seen, ws, before) && Holding(held + {p.x}) && p.x !in held && Has1(b, p.x)
      requires k + |PutsOf(p)| <= |t| && SectorList(t)[k..k + |PutsOf(p)|] == PutsOf(p)
      requires HomePiece(l, p) && CalmOf(held, p) && Finds(|cache.bufs|, SectorList(t)[..k], held, p.x)
      modifies this, cache
      ensures |cache.bufs| == |old(cache.bufs)|
      ensures var r := RunOf(l, |cache.bufs|, SectorList(t)[..k], held, p);
              k' <= |t| && stop == HaltOf(r) && r.t == SectorList(t)[..k']
      ensures Stands(d, t, k', seen', ws', before)
      ensures stop.None? ==> Holding(held) && k' == k + |PutsOf(p)|
      ensures stop.None? ==> KeptButOf(old(cache.bufs), cache.bufs, b) == Known
      decreases p, 0
    {
      stop, k', seen', ws' := None, k, seen, ws;
      match p {
        case Read(x) =>
          GiveBack(b, x, held);
          OnlyBut(old(cache.bufs), cache.bufs, b);
        case Store(x) =>
          assert SectorList(t)[k..k + 1][0] == SectorList(t)[k];
          stop, seen', ws' := LogPut(b, x, t, k, seen, held, d, ws, before);
          k' := if stop.None? then k + 1 else k;
        case Under(x, inner, put) =>
          InnerPuts(t, k, p);
          stop, k', seen', ws' := PerformUnder(b, x, inner, put, t, k, seen, held, d, ws, before);
      }
    }

    /** What is done while buffer `b` is held for sector `x`, and its log_write if it has one; and brelse. */
    method PerformUnder(b: nat, x: nat, inner: Trail, put: bool, t: Log.Txn, k: nat, seen: seq<Block>,
                        ghost held: set<nat>, ghost d: Disk, ghost ws: seq<Log.Write>, ghost before: seq<Log.Write>)
      returns (stop: Option<Why>, k': nat, seen': seq<Block>, ghost ws': seq<Log.Write>)
      requires Stands(d, t, k, seen, ws, before) && Holding(held + {x}) && x !in held && Has1(b, x)
      requires HomeOnly(l, inner) && Calm(held + {x}, inner)
      requires k + |Puts(inner)| <= |t| && SectorList(t)[k..k + |Puts(inner)|] == Puts(inner)
      requires put ==> k + |Puts(inner)| < |t| && t[k + |Puts(inner)|].sector == x
      modifies this, cache
      ensures |cache.bufs| == |old(cache.bufs)|
      ensures var r := RunUnder(l, |cache.bufs|, SectorList(t)[..k], held, x, inner, put);
              k' <= |t| && stop == HaltOf(r) && r.t == SectorList(t)[..k']
      ensures Stands(d, t, k', seen', ws', before)
      ensures stop.None? ==> Holding(held) && k' == k + |Puts(inner)| + if put then 1 else 0
      ensures stop.None? ==> KeptButOf(old(cache.bufs), cache.bufs, b) == Known
      decreases inner, 1
    {
      stop, k', seen', ws' := Perform(inner, t, k, seen, held + {x}, d, ws, before);
      if stop.None? {
        ghost var bs := cache.bufs;
        KeptAt(old(cache.bufs), bs, b);
        if put {
          stop, seen', ws' := LogPut(b, x, t, k', seen', held, d, ws', before);
          k' := if stop.None? then k' + 1 else k';
        } else {
          GiveBack(b, x, held);
          OnlyBut(bs, cache.bufs, b);
        }
        if stop.None? {
          ButJoin(old(cache.bufs), bs, cache.bufs, b);
        }
      }
    }

    /** brelse of a buffer that was only read. */
    method GiveBack(b: nat, x: nat, ghost held: set<nat>)
      requires Ready() && Holding(held + {x}) && x !in held && Has1(b, x)
      modifies cache
      ensures Ready() && Holding(held) && |cache.bufs| == |old(cache.bufs)| && D() == old(D()) && V() == old(V())
      ensures OnlyOf(old(cache.bufs), cache.bufs, b) == Known
    {
      assert held + {x} - {x} == held;
      PutBack(b, x, Elements(sector[..n]), held + {x});
    }

    lemma SplitPuts(t: Log.Txn, k: nat, tr: Trail)
      requires tr.Then? && k + |Puts(tr)| <= |t| && SectorList(t)[k..k + |Puts(tr)|] == Puts(tr)
      ensures var m := k + |Puts(tr.before)|;
              && m + |PutsOf(tr.last)| == k + |Puts(tr)| && SectorList(t)[k..m] == Puts(tr.before)
              && SectorList(t)[m..m + |PutsOf(tr.last)|] == PutsOf(tr.last)
    {
      var xs, a, b := SectorList(t)[k..k + |Puts(tr)|], Puts(tr.before), PutsOf(tr.last);
      assert xs[..|a|] == a && xs[|a|..] == b;
    }

    lemma InnerPuts(t: Log.Txn, k: nat, p: Piece)
      requires p.Under? && k + |PutsOf(p)| <= |t| && SectorList(t)[k..k + |PutsOf(p)|] == PutsOf(p)
      ensures var m := k + |Puts(p.inner)|;
              && m <= k + |PutsOf(p)| && SectorList(t)[k..m] == Puts(p.inner)
              && (p.put ==> m + 1 == k + |PutsOf(p)| && t[m].sector == p.x)
    {
      var xs, a := SectorList(t)[k..k + |PutsOf(p)|], Puts(p.inner);
      assert xs[..|a|] == a;
      if p.put {
        assert xs[|a|] == p.x;
      }
    }

    // ----- commit_trans -----

    /** write_head, while the sectors `logged` are. */
    method WriteHead(ghost logged: set<nat>)
      requires Ready() && Using(logged, {}) && |logged| < |cache.bufs| && l.start !in logged
      requires V()[l.start] == D()[l.start]
      modifies this`writes, cache
      ensures Ready() && |cache.bufs| == |old(cache.bufs)| && Using(logged, {})
      ensures D() == Log.WithHeader(l, old(D()), sector[..n]) && V() == old(V())[l.start := D()[l.start]]
      ensures writes == old(writes) + [Log.Write(l.start, D()[l.start])]
    {
      assert logged + {} + {l.start} == logged + {l.start};
      OneMoreSector(logged, l.start);
      var found, b := Get(l.start, logged, {});
      var hb := SetWord(cache.bufs[b].data, 0, n);
      ghost var d := cache.bufs[b].data;
      for i := 0 to n
        invariant hb == Log.HeaderBlock(d, sector[..n], i)
      {
        hb := SetWord(hb, i + 1, sector[i]);
      }
      assert {} + {l.start} == {l.start} && {l.start} - {l.start} == {} && logged - {l.start} == logged;
      WriteOut(b, l.start, hb, logged, {l.start});
      PutBack(b, l.start, logged, {l.start});
    }

    /** One turn of install_trans's loop; the sectors `h` are still to be installed. */
    method InstallOne(tail: nat, ghost h: seq<nat>)
      requires Ready() && tail < n && h != [] && h[0] == sector[tail] && Distinct(h) && Using(Elements(h), {})
      requires |Elements(h)| < |cache.bufs|
      requires |h| <= n < l.size && (forall i :: 0 <= i < |h| ==> h[i] < l.start) && Log.SameLog(l, V(), D())
      requires V()[sector[tail]] == D()[l.start + 1 + tail]
      modifies this`writes, cache
      ensures Ready() && |cache.bufs| == |old(cache.bufs)| && Using(Elements(h[1..]), {}) && V() == old(V())
      ensures D() == old(D())[sector[tail] := old(D())[l.start + 1 + tail]]
      ensures writes == old(writes) + [Log.Write(sector[tail], old(D())[l.start + 1 + tail])]
    {
      ghost var logged := Elements(h);
      HeadGone(h);
      assert l.start + tail + 1 !in logged && h[0] in logged;
      var lbuf, dbuf := BothBufs(l.start + tail + 1, sector[tail], logged);
      CopyHome(lbuf, dbuf, l.start + tail + 1, sector[tail], logged);
    }

    lemma HeadGone(h: seq<nat>)
      requires h != [] && Distinct(h)
      ensures Elements(h) - {h[0]} == Elements(h[1..])
    {
      assert h == [h[0]] + h[1..];
      assert h[0] !in h[1..];
    }

    /** bread of sector `s` of the log and of the logged sector `x`. */
    method BothBufs(s: nat, x: nat, ghost logged: set<nat>) returns (lbuf: nat, dbuf: nat)
      requires Ready() && Using(logged, {}) && s < l.start + l.size && x < l.start + l.size
      requires x in logged && s !in logged && |logged| < |cache.bufs|
      modifies cache`bufs
      ensures Ready() && |cache.bufs| == |old(cache.bufs)| && Using(logged, {s} + {x})
      ensures Has1(lbuf, s) && Has1(dbuf, x) && lbuf != dbuf && cache.bufs[lbuf].data == V()[s]
    {
      OneMoreSector(logged, s);
      assert logged + {} + {s} == logged + {s} && logged + {s} + {x} == logged + {s} && {} + {s} == {s};
      var found;
      found, lbuf := Get(s, logged, {});
      ghost var bs := cache.bufs;
      found, dbuf := Get(x, logged, {s});
      OnlyAt(bs, cache.bufs, dbuf, lbuf);
    }

    /** memmove and bwrite, and then brelse of both. */
    method CopyHome(lbuf: nat, dbuf: nat, s: nat, x: nat, ghost logged: set<nat>)
      requires Ready() && Using(logged, {s} + {x}) && s < l.start + l.size && x < l.start + l.size && s != x
      requires Has1(lbuf, s) && Has1(dbuf, x) && lbuf != dbuf && cache.bufs[lbuf].data == V()[s]
      modifies this`writes, cache
      ensures Ready() && |cache.bufs| == |old(cache.bufs)| && Using(logged - {x}, {})
      ensures D() == old(D())[x := old(V())[s]] && V() == old(V())[x := old(V())[s]]
      ensures writes == old(writes) + [Log.Write(x, old(V())[s])]
    {
      assert {s} + {x} - {s} == {x} && {x} - {x} == {};
      ghost var bs := cache.bufs;
      WriteOut(dbuf, x, cache.bufs[lbuf].data, logged, {s} + {x});
      OnlyAt(bs, cache.bufs, dbuf, lbuf);
      bs := cache.bufs;
      PutBack(lbuf, s, logged - {x}, {s} + {x});
      OnlyAt(bs, cache.bufs, lbuf, dbuf);
      PutBack(dbuf, x, logged - {x}, {x});
    }

    /** The same, as a turn of the loop over `h`. */
    method InstallTurn(tail: nat, ghost h: seq<nat>, ghost g: Disk, ghost before: seq<Log.Write>)
      requires Ready() && tail < n == |h| < l.size && sector[tail] == h[tail] && Using(Elements(h[tail..]), {})
      requires n < |cache.bufs| && InstallingOf(l, g, h, V(), tail, D()) == Known && Log.Fits(l, g)
      requires Log.Loggable(l, h) && writes == before + Log.InstallWrites(l, g, h)[..tail]
      modifies this`writes, cache
      ensures Ready() && |cache.bufs| == |old(cache.bufs)| && Using(Elements(h[tail + 1..]), {}) && V() == old(V())
      ensures InstallingOf(l, g, h, V(), tail + 1, D()) == Known
      ensures writes == before + Log.InstallWrites(l, g, h)[..tail + 1]
    {
      InstallFacts(l, g, h, V(), tail, D());
      assert h[tail..][1..] == h[tail + 1..];
      FewElements(h[tail..]);
      InstallOne(tail, h[tail..]);
      OneMoreWrite(before, Log.InstallWrites(l, g, h), tail);
    }

    lemma {:induction false} FewElements(h: seq<nat>)
      ensures |Elements(h)| <= |h|
    {
      if h == [] {
        assert Elements(h) == {};
      } else {
        FewElements(h[..|h| - 1]);
        assert h == h[..|h| - 1] + [h[|h| - 1]];
        assert Elements(h) == Elements(h[..|h| - 1]) + {h[|h| - 1]};
        OneSector(Elements(h[..|h| - 1]), h[|h| - 1]);
      }
    }

    method InstallTrans()
      requires Ready() && Using(Elements(sector[..n]), {}) && Distinct(sector[..n]) && n < l.size && n < |cache.bufs|
      requires SlotsShow(l, sector[..n], V(), D()) && OthersShow(sector[..n], V(), D())
      modifies this`writes, cache
      ensures Ready() && |cache.bufs| == |old(cache.bufs)| && Using({}, {}) && V() == old(V()) == D()
      ensures D() == Log.Installed(l, old(D()), sector[..n])
      ensures writes == old(writes) + Log.InstallWrites(l, old(D()), sector[..n])
    {
      ghost var h, g, v := sector[..n], D(), V();
      ghost var ws := Log.InstallWrites(l, g, h);
      InstallStarts(l, g, h, v);
      assert h[0..] == h && writes == old(writes) + ws[..0];
      for tail := 0 to n
        invariant Ready() && |cache.bufs| == |old(cache.bufs)| && Using(Elements(h[tail..]), {}) && V() == v
        invariant InstallingOf(l, g, h, V(), tail, D()) == Known && writes == old(writes) + ws[..tail]
      {
        InstallTurn(tail, h, g, old(writes));
      }
      assert ws[..n] == ws && h[n..] == [];
      assert Elements([]) == {};
      InstallEnds(l, g, h, V(), D());
    }

    /** The writes of commit_trans for a header with sectors. */
    method WriteInstallClear()
      requires Ready() && 0 < n < l.size && n < |cache.bufs| && Using(Elements(sector[..n]), {})
      requires Distinct(sector[..n])
      requires SlotsShow(l, sector[..n], V(), D()) && OthersShow(sector[..n], V(), D())
      modifies this`writes, this`n, cache
      ensures Ready() && |cache.bufs| == |old(cache.bufs)| && n == 0 && Using({}, {}) && V() == D()
      ensures var cs := Log.CommitPhase(l, old(D()), old(sector[..n]));
              writes == old(writes) + cs && D() == Log.Apply(old(D()), cs, |cs|)
    {
      CommitIs(l, D(), sector[..n]);
      ghost var h, g := sector[..n], Log.WithHeader(l, D(), sector[..n]);
      HeadAndInstall();
      ClearHead();
      JoinWrites(old(writes), [Log.Write(l.start, g[l.start])] + Log.InstallWrites(l, g, h),
                 [Log.Write(l.start, D()[l.start])]);
    }

    method HeadAndInstall()
      requires Ready() && n < l.size && n < |cache.bufs| && Using(Elements(sector[..n]), {}) && Distinct(sector[..n])
      requires SlotsShow(l, sector[..n], V(), D()) && OthersShow(sector[..n], V(), D())
      modifies this`writes, cache
      ensures Ready() && |cache.bufs| == |old(cache.bufs)| && Using({}, {}) && V() == D()
      ensures var h := sector[..n];
              var g := Log.WithHeader(l, old(D()), h);
              && D() == Log.Installed(l, g, h)
              && writes == old(writes) + ([Log.Write(l.start, g[l.start])] + Log.InstallWrites(l, g, h))
    {
      HeaderShows(l, sector[..n], V(), D());
      FewElements(sector[..n]);
      NotLogged(sector[..n], l.start);
      WriteHead(Elements(sector[..n]));
      ghost var g := D();
      InstallTrans();
      JoinWrites(old(writes), [Log.Write(l.start, g[l.start])], Log.InstallWrites(l, g, sector[..n]));
    }

    method ClearHead()
      requires Ready() && Using({}, {}) && V() == D() && 0 < |cache.bufs|
      modifies this`writes, this`n, cache
      ensures Ready() && |cache.bufs| == |old(cache.bufs)| && n == 0 && Using({}, {}) && V() == D()
      ensures D() == Log.WithHeader(l, old(D()), []) && writes == old(writes) + [Log.Write(l.start, D()[l.start])]
    {
      n := 0;
      assert sector[..0] == [];
      WriteHead({});
    }

    /** commit_trans, with a buffer more than there are sectors in the log. */
    method CommitTrans()
      requires Ready() && n < l.size && (n == 0 || n < |cache.bufs|) && Using(Elements(sector[..n]), {})
      requires Distinct(sector[..n])
      requires SlotsShow(l, sector[..n], V(), D()) && OthersShow(sector[..n], V(), D())
      modifies this`writes, this`n, cache
      ensures Ready() && |cache.bufs| == |old(cache.bufs)| && n == 0 && Using({}, {}) && V() == D()
      ensures var cs := Log.CommitPhase(l, old(D()), old(sector[..n]));
              writes == old(writes) + cs && D() == Log.Apply(old(D()), cs, |cs|)
    {
      if n > 0 {
        WriteInstallClear();
      } else {
        assert sector[..n] == [] && V() == D() && Elements([]) == {};
      }
    }

    /** A whole transaction through the cache, with the writes `t` and the trail `tr` of a call.  It is
        stopped where and by what the trail says; then what has been logged is on the disk, and the
        header is as it was.  Otherwise the disk writes are those that the crash theorem is about, in that
        order, the call sees its own changes, and afterwards the disk is what everyone sees and no
        buffer is pinned. */
    method RunTransaction(tr: Trail, t: Log.Txn) returns (stop: Option<Why>, seen: seq<Block>)
      requires Ready() && n == 0 && Using({}, {}) && V() == D() && Log.Clean(l, D())
      requires SectorList(t) == Puts(tr) && HomeOnly(l, tr) && Calm({}, tr)
      modifies this, cache
      ensures |cache.bufs| == |old(cache.bufs)| && Ready() && Log.Fits(l, old(D()))
      ensures stop == HaltOf(RunAll(l, |cache.bufs|, [], {}, tr))
      ensures stop.None? <==> Takes(l, [], Puts(tr)) && Rooms(|cache.bufs|, [], {}, tr)
      ensures stop.Some? ==> var k := |RunAll(l, |cache.bufs|, [], {}, tr).t|;
                             && k <= |t| && D() == Log.LogDisk(l, old(D()), t, k) && seen == Seen(old(D()), t, k)
                             && writes == old(writes) + Log.LogPhase(l, t, k)
      ensures stop.None? ==> n == 0 && Using({}, {}) && V() == D() && Log.Clean(l, D()) && Log.TxnOk(l, t, |t|)
      ensures stop.None? ==> seen == Seen(old(D()), t, |t|) && Log.SameHomes(l, D(), Log.Apply(old(D()), t, |t|))
      ensures stop.None? ==> var ws := Log.TxnWrites(l, old(D()), t);
                             writes == old(writes) + ws && D() == Log.Apply(old(D()), ws, |ws|)
    {
      ghost var k;
      stop, k, seen := Changes(tr, t);
      if stop.None? {
        Commit(t, old(D()), old(writes));
      }
    }

    /** The end of a transaction that started from disk `d`. */
    method Commit(ghost t: Log.Txn, ghost d: Disk, ghost before: seq<Log.Write>)
      requires Ready() && Log.Clean(l, d) && Log.TxnOk(l, t, |t|) && n < l.size && (n == 0 || n < |cache.bufs|)
      requires sector[..n] == Log.HeaderAfter(t, |t|) && D() == Log.LogDisk(l, d, t, |t|)
      requires writes == before + Log.LogPhase(l, t, |t|)
      requires Using(Elements(sector[..n]), {}) && Distinct(sector[..n])
      requires SlotsShow(l, sector[..n], V(), D()) && OthersShow(sector[..n], V(), D())
      modifies this`writes, this`n, cache
      ensures Ready() && |cache.bufs| == |old(cache.bufs)| && n == 0 && Using({}, {}) && V() == D() && Log.Clean(l, D())
      ensures Log.SameHomes(l, D(), Log.Apply(d, t, |t|))
      ensures var ws := Log.TxnWrites(l, d, t); writes == before + ws && D() == Log.Apply(d, ws, |ws|)
    {
      ghost var e, h := D(), sector[..n];
      CommitTrans();
      TxnDone(l, d, t, e, h, D());
      JoinWrites(before, Log.LogPhase(l, t, |t|), Log.CommitPhase(l, e, h));
    }

    /** The calls before commit_trans. */
    method Changes(tr: Trail, t: Log.Txn) returns (stop: Option<Why>, ghost k: nat, seen: seq<Block>)
      requires Ready() && n == 0 && Using({}, {}) && V() == D() && Log.Fits(l, D())
      requires SectorList(t) == Puts(tr) && HomeOnly(l, tr) && Calm({}, tr)
      modifies this, cache
      ensures |cache.bufs| == |old(cache.bufs)| && Ready()
      ensures var r := RunAll(l, |cache.bufs|, [], {}, tr);
              k <= |t| && stop == HaltOf(r) && r.t == SectorList(t)[..k]
      ensures stop.None? <==> Takes(l, [], Puts(tr)) && Rooms(|cache.bufs|, [], {}, tr)
      ensures sector[..n] == Log.HeaderAfter(t, k) && seen == Seen(old(D()), t, k)
      ensures D() == Log.LogDisk(l, old(D()), t, k) && writes == old(writes) + Log.LogPhase(l, t, k)
      ensures stop.None? ==> k == |t| && Using(Elements(sector[..n]), {}) && Log.TxnOk(l, t, |t|)
      ensures stop.None? ==> n < l.size && (n == 0 || n < |cache.bufs|) && Distinct(sector[..n])
      ensures stop.None? ==> SlotsShow(l, sector[..n], V(), D()) && OthersShow(sector[..n], V(), D())
    {
      ghost var d := D();
      assert sector[..0] == [] && writes == old(writes) + [] && Elements([]) == {};
      PhaseStart(l, d, t);
      assert SectorList(t)[0..|Puts(tr)|] == Puts(tr) && SectorList(t)[..0] == [];
      ghost var ws;
      stop, k, seen, ws := Perform(tr, t, 0, [], {}, d, [], old(writes));
      RunIff(l, |cache.bufs|, [], {}, tr);
      PhaseIs(l, d, t, k, sector[..n], D(), V(), seen, ws);
      if stop.None? {
        RunOk(l, |cache.bufs|, tr, t);
        PhaseSectors(l, d, t, k, sector[..n], D(), V(), seen, ws);
        ShowsSlots(l, d, t, V());
      }
    }
  }

  /** What a run that is not stopped has shown. */
  lemma RunOk(l: Log.Layout, nbuf: nat, tr: Trail, t: Log.Txn)
    requires SectorList(t) == Puts(tr) && Takes(l, [], Puts(tr)) && Rooms(nbuf, [], {}, tr)
    ensures Log.TxnOk(l, t, |t|)
    ensures t == [] || |Elements(SectorList(t)[..|t|])| < nbuf
  {
    TakesOk(l, t, |t|);
    if t != [] {
      RoomsSpare(nbuf, tr);
      assert SectorList(t)[..|t|] == SectorList(t);
    }
  }
}

/** The block layer of fs.c as code: balloc, bfree, bmap, readi, writei, itrunc. */
module FilesCode {
  import opened Blocks
  import opened Counting
  import opened Files
  import opened FileBytes
  import opened FileSteps
  import opened DiskInodes
  import opened FileLog
  import opened TruncLog
  import opened Buffers
  import opened FileTrail
  import opened TruncTrail
  import opened FileOps
  import opened Sealed
  import opened TxnBound
  import Log

  lemma SizeLimit(d: Disk, inodes: seq<Inode>, cs: seq<seq<Byte>>, k: nat)
    requires Refines(d, inodes, cs) && k < |cs|
    ensures |cs[k]| <= MAXFILE * BSIZE
  {
    assert Holds(d, inodes[k], cs[k]);
  }

  /** How many chunks filewrite makes of `n` bytes. */
  function Chunks(n: nat): nat {
    (n + MAX_CHUNK - 1) / MAX_CHUNK
  }

  ghost predicate AllOk(l: Log.Layout, ts: seq<Log.Txn>) {
    forall c :: 0 <= c < |ts| ==> Log.TxnOk(l, ts[c], |ts[c]|)
  }

  /** The files with `src` in file `k` from byte `off` on, unless that lies past its end. */
  function Patch(cs: seq<seq<Byte>>, k: nat, off: nat, src: seq<Byte>): (r: seq<seq<Byte>>)
    requires k < |cs|
    ensures |r| == |cs|
  {
    if off <= |cs[k]| then cs[k := Splice(cs[k], off, src)] else cs
  }

  lemma PatchNothing(cs: seq<seq<Byte>>, k: nat, off: nat)
    requires k < |cs|
    ensures Patch(cs, k, off, []) == cs
  {
    if off <= |cs[k]| {
      assert Splice(cs[k], off, []) == cs[k];
    }
  }

  lemma PatchMore(cs: seq<seq<Byte>>, k: nat, off: nat, src: seq<Byte>, t: nat, m: nat)
    requires k < |cs| && t + m <= |src| && off <= |cs[k]|
    ensures off + t <= |Patch(cs, k, off, src[..t])[k]|
    ensures Patch(Patch(cs, k, off, src[..t]), k, off + t, src[t..t + m]) == Patch(cs, k, off, src[..t + m])
  {
    SpliceMore(cs[k], off, src, t, m);
  }

  datatype Outlook = Fine | Tight

  /** The first `i` bytes of the data are in the file. */
  ghost function ProgressOf(cs: seq<seq<Byte>>, now: seq<seq<Byte>>, k: nat, off: nat, data: seq<Byte>, i: nat): Outlook
    requires k < |cs|
  {
    if i <= |data| && now == Patch(cs, k, off, data[..i]) && (i > 0 ==> off <= |cs[k]|) then Fine else Tight
  }

  lemma ProgressEnd(cs: seq<seq<Byte>>, now: seq<seq<Byte>>, k: nat, off: nat, data: seq<Byte>, i: nat)
    requires k < |cs| && ProgressOf(cs, now, k, off, data, i) == Fine
    ensures |now| == |cs| && i <= |data| && (off + i <= |now[k]| <==> off <= |cs[k]|)
  {
  }

  lemma ProgressMore(cs: seq<seq<Byte>>, now: seq<seq<Byte>>, k: nat, off: nat, data: seq<Byte>, i: nat,
                     part: seq<Byte>)
    requires k < |cs| && ProgressOf(cs, now, k, off, data, i) == Fine && off <= |cs[k]|
    requires i + |part| <= |data| && part == data[i..i + |part|] && |now| == |cs|
    ensures ProgressOf(cs, Patch(now, k, off + i, part), k, off, data, i + |part|) == Fine
  {
    PatchMore(cs, k, off, data, i, |part|);
  }

  /** Whole chunks only. */
  function Whole(i: nat): Outlook {
    if i % MAX_CHUNK == 0 then Fine else Tight
  }

  lemma WholeNext(i: nat, m: nat, n: nat)
    requires i < n && Whole(i) == Fine && m == if n - i > MAX_CHUNK then MAX_CHUNK else n - i
    ensures i + m < n ==> Whole(i + m) == Fine
    ensures m <= MAX_CHUNK
  {
    assert MAX_CHUNK == 1536;
    if i + m < n {
      NextMultiple(i);
    }
  }

  lemma NextMultiple(i: nat)
    requires i % 1536 == 0
    ensures (i + 1536) % 1536 == 0
  {
  }

  /** All transactions so far fit, and there is room for the `n` bytes that are left. */
  ghost function OutlookOf(l: Log.Layout, ts: seq<Log.Txn>, room: nat, n: nat): Outlook {
    if AllOk(l, ts) && room >= Chunks(n) then Fine else Tight
  }

  lemma StaysFine(l: Log.Layout, ts: seq<Log.Txn>, ts': seq<Log.Txn>, room: nat, room': nat, n: nat)
    requires OutlookOf(l, ts, room, n) == Fine && n > 0 && |ts'| == |ts| + 1 && ts'[..|ts|] == ts
    requires room > 0 ==> room' >= room - 1 && Log.TxnOk(l, ts'[|ts|], |ts'[|ts|]|)
    ensures OutlookOf(l, ts', room', if n > MAX_CHUNK then n - MAX_CHUNK else 0) == Fine
  {
    forall c | 0 <= c < |ts'| ensures Log.TxnOk(l, ts'[c], |ts'[c]|) {
      assert c < |ts| ==> ts'[c] == ts'[..|ts|][c];
    }
  }

  /** No free block is below `low`; `high` is not in the log, and the log holds seven sectors more
      than those of the free map between `low` and `high`. */
  ghost predicate Placed(l: Log.Layout, sb: Super, d: Disk, o: Owner, k: nat, low: nat, high: nat) {
    && low < high <= l.start && high <= sb.size && DataStart(sb) <= l.start && InodeBlock(k) < l.start && BelowLog(o, l)
    && (forall x :: 0 <= x < low ==> Used(sb, d, x))
    && 7 + BitBlock(sb, high - 1) - BitBlock(sb, low) + 1 < Log.Capacity(l)
  }

  /** How many chunks find their blocks between `low` and `high`, as seen before they are written. */
  ghost function Room(l: Log.Layout, sb: Super, d: Disk, o: Owner, k: nat, low: nat, high: nat): nat {
    if Placed(l, sb, d, o, k, low, high) then |FreeBlocks(sb, d, high)| / 7 else 0
  }

  lemma SectorsHome(l: Log.Layout, sb: Super, o: Owner, o': Owner, k: nat, lo: nat, hi: nat, t: Log.Txn, m: nat)
    requires m <= |t| <= m + 1 && Touches(sb, o, o', k, lo, hi, [], t[..m]) && (m < |t| ==> t[m].sector < l.start)
    requires BelowLog(o', l) && DataStart(sb) <= l.start && forall b :: b in Taken(o, o') ==> b < sb.size
    ensures AllHome(l, t, |t|)
  {
    forall i | 0 <= i < |t| ensures t[i].sector < l.start {
      if i < m {
        assert t[..m][i] == t[i];
        var x := t[i].sector;
        if b :| b in o' && b !in o && x == BitBlock(sb, b) {
          assert b in Taken(o, o') && b < sb.size;
        }
      }
    }
  }

  lemma ChunkOk(l: Log.Layout, sb: Super, d: Disk, inodes: seq<Inode>, o: Owner, d': Disk, inodes': seq<Inode>,
                o': Owner, k: nat, off: nat, n: nat, t: Log.Txn, m: nat, low: nat, high: nat)
    requires Sound(sb, d, inodes, o) && Sound(sb, d', inodes', o') && k < |inodes'| && n <= MAX_CHUNK
    requires m <= |t| <= m + 1
    requires Wrote(sb, o, o', k, off / BSIZE, LastBlock(off, n), [], t[..m])
    requires m < |t| ==> t[m].sector == InodeBlock(k)
    requires Room(l, sb, d, o, k, low, high) > 0
    ensures Log.TxnOk(l, t, |t|) && Room(l, sb, d', o', k, low, high) >= Room(l, sb, d, o, k, low, high) - 1
  {
    TakenFew(sb, d', inodes', o, o', k, off, n);
    TakenBetween(sb, d, inodes, o, d', inodes', o', k, off / BSIZE, LastBlock(off, n), low, high);
    BitsBetween(sb, o, o', low, high);
    forall b | b in o' ensures b < l.start {
      assert b !in o ==> b in Taken(o, o');
    }
    SectorsHome(l, sb, o, o', k, off / BSIZE, LastBlock(off, n), t, m);
    ChunkFits(l, sb, d', inodes', o, o', k, off, n, t, m);
  }

  /** After the loop the inodes on the disk are still those from before. */
  lemma StoredAfterLoop(sb: Super, e0: Image, e: Image, k: nat, off: nat, src: seq<Byte>, ts: seq<Turn>)
    requires |e0.inodes| <= sb.ninodes && |e0.d| == sb.size && DataStart(sb) <= sb.size
    requires InodesStored(e0.d, e0.inodes) && LoopRun(sb, e0, e, k, off, src, ts)
    ensures SameInodeSectors(sb, e0.d, e.d) && OthersStored(e.d, e.inodes, k)
  {
    LoopKeeps(sb, e0.d, e0.inodes, k, off, src, ts, |ts| - 1);
    StoredElsewhere(sb, e0.d, e.d, e0.inodes, k);
  }

  lemma AllStored(d: Disk, inodes: seq<Inode>, d0: Disk, i0: seq<Inode>, k: nat)
    requires OthersStored(d, inodes, k) && inodes == i0 && k < |inodes| && InodesStored(d0, i0)
    requires At(d, InodeBlock(k)) == At(d0, InodeBlock(k))
    ensures InodesStored(d, inodes)
  {
    forall j: nat | j < |inodes| ensures DiskInode(d, j) == inodes[j] {
      assert j == k ==> DiskInode(d0, j) == i0[j];
    }
  }

  /** Metadata is neither blocks nor bytes. */
  lemma MetaHolds(sb: Super, d: Disk, inodes: seq<Inode>, o: Owner, cs: seq<seq<Byte>>, k: nat, meta: Meta)
    requires Sound(sb, d, inodes, o) && Refines(d, inodes, cs) && k < |inodes| && InodesStored(d, inodes)
    ensures var inodes' := inodes[k := inodes[k].(meta := meta)];
            Sound(sb, d, inodes', o) && Refines(d, inodes', cs) && OthersStored(d, inodes', k)
  {
    MetaSound(sb, d, inodes, o, k, meta);
    var ip := inodes[k].(meta := meta);
    forall bn | 0 <= bn && bn * BSIZE < |cs[k]| ensures Ptr(d, ip, DataSlot(bn)) != 0 {
      PtrIgnoresMeta(d, inodes[k], meta, DataSlot(bn));
    }
    forall n | 0 <= n < |cs[k]| ensures ByteAt(d, ip, n) == cs[k][n] {
      PtrIgnoresMeta(d, inodes[k], meta, DataSlot(n / BSIZE));
      assert ByteAt(d, inodes[k], n) == cs[k][n];
    }
  }

  /** The log goes on, and new blocks are in it. */
  ghost predicate Logged(o: Owner, o': Owner, t: Log.Txn, t': Log.Txn) {
    |t| <= |t'| && t'[..|t|] == t && NewLogged(o, o', t, t')
  }

  lemma LoggedOnward(sb: Super, o: Owner, o': Owner, k: nat, lo: nat, hi: nat, t: Log.Txn, t': Log.Txn, m: nat)
    requires m <= |t'| && Wrote(sb, o, o', k, lo, hi, t, t'[..m])
    ensures Logged(o, o', t, t')
  {
    forall b | b in o' && b !in o ensures LoggedAt(t, t', b) {
      assert LoggedAt(t, t'[..m], b);
      var i :| |t| <= i < m && t'[..m][i].sector == b;
      assert t'[i] == t'[..m][i];
    }
    assert t'[..m][..|t|] == t'[..|t|];
  }

  lemma LoggedTrans(o: Owner, o': Owner, o'': Owner, t: Log.Txn, t': Log.Txn, t'': Log.Txn)
    requires Logged(o, o', t, t') && Logged(o', o'', t', t'')
    ensures Logged(o, o'', t, t'')
  {
    forall b | b in o'' && b !in o ensures LoggedAt(t, t'', b) {
      if b in o' {
        assert LoggedAt(t, t', b);
        var i :| |t| <= i < |t'| && t'[i].sector == b;
        assert t''[i] == t''[..|t'|][i];
      } else {
        assert LoggedAt(t', t'', b);
        var i :| |t'| <= i < |t''| && t''[i].sector == b;
        assert t''[i].sector == b;
      }
    }
  }

  /** What one level of bmap looks at when the block is there. */
  lemma ThereLooks(sb: Super, d: Disk, inodes: seq<Inode>, o: Owner, k: nat, s: Slot, tr: Trail)
    requires Sound(sb, d, inodes, o) && k < |inodes| && Legal(s) && (InInode(s) || Home(d, inodes[k], s) != 0)
    ensures LooksWithin(sb, o.Keys, tr, LevelThere(tr, s, Home(d, inodes[k], s))) == Known
  {
    if InInode(s) {
      LooksSame(sb, o.Keys, tr);
    } else {
      HomeIsOwned(sb, d, inodes, o, k, s);
      LooksRead(sb, o.Keys, tr, Home(d, inodes[k], s));
    }
  }

  lemma HomeIsOwned(sb: Super, d: Disk, inodes: seq<Inode>, o: Owner, k: nat, s: Slot)
    requires Sound(sb, d, inodes, o) && k < |inodes| && Legal(s) && !InInode(s) && Home(d, inodes[k], s) != 0
    ensures Home(d, inodes[k], s) in o
  {
    assert Home(d, inodes[k], s) == Ptr(d, inodes[k], HomeSlot(s)) && Legal(HomeSlot(s));
  }

  /** What one level of bmap looks at when it allocates. */
  lemma LevelLooks(sb: Super, d: Disk, inodes: seq<Inode>, o: Owner, k: nat, s: Slot, b: nat, ok: bool, tr: Trail,
                   tr': Trail)
    requires Sound(sb, d, inodes, o) && Vacant(d, inodes, k, s) && (ok ==> b < sb.size)
    requires var q := Home(d, inodes[k], s);
             tr' == if ok then LevelNew(tr, sb, s, q, b) else LevelFull(tr, sb, s, q)
    ensures LooksWithin(sb, o.Keys, tr, tr') == Known
  {
    var q := Home(d, inodes[k], s);
    if ok {
      NewLooks(sb, o.Keys, tr, s, q, b);
    } else {
      if !InInode(s) {
        HomeOwned(sb, d, inodes, o, k, s);
      }
      FullLooks(sb, o.Keys, tr, s, q);
    }
  }

  lemma TruncLooks(sb: Super, e: Image, o: Owner, k: nat)
    requires Sound(sb, e.d, e.inodes, o) && k < |e.inodes|
    ensures LooksWithin(sb, o.Keys, e.trail, AfterTrunc(sb, e, k).trail) == Known
  {
    var tr := TreeOn(e.trail, sb, e.d, e.inodes[k]);
    TreeLooks(sb, e.trail, e.d, e.inodes, o, k);
    LooksStore(sb, o.Keys, tr, InodeBlock(k));
    LooksJoin(sb, o.Keys, o.Keys, e.trail, tr, Then(tr, Store(InodeBlock(k))));
    LooksSame(sb, o.Keys, e.trail);
  }

  // ----- Reads -----

  /** From `a` to `b` one sector after the other has been read, and each released before the next. */
  predicate OnlyReads(a: Trail, b: Trail)
    decreases b
  {
    a == b || (b.Then? && b.last.Read? && OnlyReads(a, b.before))
  }

  lemma {:induction false} ReadsJoin(a: Trail, b: Trail, c: Trail)
    requires OnlyReads(a, b) && OnlyReads(b, c)
    ensures OnlyReads(a, c)
    decreases c
  {
    if b != c {
      ReadsJoin(a, b, c.before);
    }
  }

  // ----- Calls under way -----

  /** The trail has the log_writes of the log, and is orderly. */
  ghost predicate Going(e: Image) {
    Agrees(e) && Orderly(e.trail)
  }

  datatype Standing = Good | Bad

  /** After `n` calls. */
  ghost function StandingOf(sb: Super, e0: Image, f0: Flat, o0: Owner, ops: seq<Op>, n: nat, e: Image, f: Flat,
                            o: Owner): Standing
    requires n <= |ops|
  {
    if e == AfterOps(sb, e0, ops, n) && f == FlatRun(f0, ops, n) && Logged(o0, o, e0.log, e.log) then Good else Bad
  }

  lemma StandingNext(sb: Super, e0: Image, f0: Flat, o0: Owner, ops: seq<Op>, n: nat, e: Image, f: Flat, o: Owner,
                     e': Image, f': Flat, o': Owner)
    requires n < |ops| && StandingOf(sb, e0, f0, o0, ops, n, e, f, o) == Good
    requires e' == AfterOp(sb, e, ops[n])
    requires e'.ok ==> f' == FlatOp(f, ops[n]) && Logged(o, o', e.log, e'.log)
    ensures e'.ok ==> StandingOf(sb, e0, f0, o0, ops, n + 1, e', f', o') == Good
    ensures !e'.ok ==> e' == AfterOps(sb, e0, ops, |ops|)
  {
    if e'.ok {
      LoggedTrans(o0, o, o', e0.log, e.log, e'.log);
    } else {
      OpsStop(sb, e0, ops, n + 1, |ops|);
    }
  }

  /** One more call, in a transaction that has taken only blocks it has logged. */
  lemma LooksOn(sb: Super, t0: Log.Txn, o0: Owner, e: Image, o: Owner, e': Image, o': Owner, tr0: Trail)
    requires Logged(o0, o, t0, e.log) && Logged(o, o', e.log, e'.log)
    requires LooksWithin(sb, o0.Keys + Elements(SectorList(e.log)), tr0, e.trail) == Known
    requires LooksWithin(sb, o.Keys + o'.Keys, e.trail, e'.trail) == Known
    ensures LooksWithin(sb, o0.Keys + Elements(SectorList(e'.log)), tr0, e'.trail) == Known
  {
    var ks := o0.Keys + Elements(SectorList(e'.log));
    LoggedTrans(o0, o, o', t0, e.log, e'.log);
    LoggedKeys(o0, o', t0, e'.log);
    LoggedKeys(o0, o, t0, e.log);
    MoreSectors(e.log, e'.log);
    LooksMore(sb, o0.Keys + Elements(SectorList(e.log)), ks, tr0, e.trail);
    LooksMore(sb, o.Keys + o'.Keys, ks, e.trail, e'.trail);
    LooksJoin(sb, ks, ks, tr0, e.trail, e'.trail);
  }

  lemma LoggedKeys(o: Owner, o': Owner, t: Log.Txn, t': Log.Txn)
    requires Logged(o, o', t, t')
    ensures o'.Keys <= o.Keys + Elements(SectorList(t'))
  {
    forall b | b in o' && b !in o ensures b in Elements(SectorList(t')) {
      assert LoggedAt(t, t', b);
      var i :| |t| <= i < |t'| && t'[i].sector == b;
      assert SectorList(t')[i] == b;
    }
  }

  lemma MoreSectors(t: Log.Txn, t': Log.Txn)
    requires |t| <= |t'| && t'[..|t|] == t
    ensures Elements(SectorList(t)) <= Elements(SectorList(t'))
  {
    forall x | x in SectorList(t) ensures x in SectorList(t') {
      var i :| 0 <= i < |t| && SectorList(t)[i] == x;
      assert t'[..|t|][i] == t'[i] && SectorList(t')[i] == x;
    }
  }

  // ----- Truncation under way -----

  /** Opens the fact below for this disk and list only. */
  predicate OpenAt(z: nat, d: Disk, ps: seq<nat>) {
    true
  }

  /** The slots before rank `r` have been freed, with the numbers `ps` in them. */
  ghost function FreeingOf(sb: Super, e0: Image, o: Owner, k: nat, r: nat, ps: seq<nat>, d: Disk, t: Log.Txn): Seal {
    if forall z: nat {:trigger OpenAt(z, d, ps)} :: OpenAt(z, d, ps) ==>
         && Sound(sb, e0.d, e0.inodes, o) && FreedBelow(sb, e0.d, d, o, k, r)
         && e0.ok && e0.(d := d, log := t) == FreeList(sb, e0, ps)
    then Known else Unknown
  }

  /** Slot `s` of inode `k` has number `p`. */
  ghost function SlotHas(e0: Image, k: nat, s: Slot, p: nat): Seal {
    if forall z: nat {:trigger Open(z)} :: Open(z) ==>
         k < |e0.inodes| && Legal(s) && p == Ptr(e0.d, e0.inodes[k], s)
    then Known else Unknown
  }

  /** The words of the second-level block in entry `i`. */
  ghost function LeavesHave(e0: Image, k: nat, i: nat, ws: seq<nat>): Seal {
    if forall z: nat {:trigger Open(z)} :: Open(z) ==>
         && k < |e0.inodes| && i < NINDIRECT && Ptr(e0.d, e0.inodes[k], DoubleEntry(i)) != 0
         && ws == WordsOf(At(e0.d, Ptr(e0.d, e0.inodes[k], DoubleEntry(i))))
    then Known else Unknown
  }

  lemma LeafHas(e0: Image, k: nat, i: nat, ws: seq<nat>, j: nat)
    requires LeavesHave(e0, k, i, ws) == Known && j < |ws| == NINDIRECT
    ensures SlotHas(e0, k, Leaf(i, j), ws[j]) == Known
  {
    assert Open(0);
  }

  lemma FreeNothing(sb: Super, e0: Image, o: Owner, k: nat)
    requires Sound(sb, e0.d, e0.inodes, o) && e0.ok
    ensures FreeingOf(sb, e0, o, k, 0, [], e0.d, e0.log) == Known
  {
  }

  lemma SkipSlots(sb: Super, e0: Image, o: Owner, k: nat, r: nat, r': nat, ps: seq<nat>, d: Disk, t: Log.Txn)
    requires k < |e0.inodes| && FreeingOf(sb, e0, o, k, r, ps, d, t) == Known
    requires r <= r' && forall s :: Legal(s) && r <= Rank(s) < r' ==> Ptr(e0.d, e0.inodes[k], s) == 0
    ensures FreeingOf(sb, e0, o, k, r', ps, d, t) == Known
  {
    assert OpenAt(0, d, ps);
    FreeSkip(sb, e0.d, d, e0.inodes, o, k, r, r');
  }

  /** A pointer block of the tree stays as it was. */
  lemma TreeBlockKept(sb: Super, e0: Image, o: Owner, k: nat, r: nat, ps: seq<nat>, d: Disk, t: Log.Txn, s: Slot)
    requires k < |e0.inodes| && FreeingOf(sb, e0, o, k, r, ps, d, t) == Known
    requires Legal(s) && Ptr(e0.d, e0.inodes[k], s) != 0
    ensures var q := Ptr(e0.d, e0.inodes[k], s); q < |d| && d[q] == At(e0.d, q)
  {
    assert OpenAt(0, d, ps);
    assert OwnsAt(sb, e0.d, e0.inodes, o, Ptr(e0.d, e0.inodes[k], s));
  }

  lemma NextWord(ps: seq<nat>, ws: seq<nat>, j: nat)
    requires j < |ws|
    ensures ps + ws[..j] + [ws[j]] == ps + ws[..j + 1]
  {
  }

  lemma FreesMore(tr: Trail, sb: Super, ws: seq<nat>, j: nat)
    requires j < |ws|
    ensures FreesOn(tr, sb, ws[..j + 1]) == FreeOn(FreesOn(tr, sb, ws[..j]), sb, ws[j])
  {
    assert ws[..j + 1][..j] == ws[..j];
  }

  lemma EntriesMore(tr: Trail, sb: Super, d: Disk, ws: seq<nat>, i: nat)
    requires i < |ws|
    ensures SecondOn(tr, sb, d, ws[..i + 1]) == EntryOn(SecondOn(tr, sb, d, ws[..i]), sb, d, ws[i])
  {
    assert ws[..i + 1][..i] == ws[..i];
  }

  lemma SecondNext(d: Disk, ps: seq<nat>, ws: seq<nat>, i: nat)
    requires i < |ws|
    ensures ps + SecondLevel(d, ws[..i]) + EntryBlocks(d, ws[i]) == ps + SecondLevel(d, ws[..i + 1])
  {
    SecondMore(d, ws[..i], ws[i]);
    assert ws[..i] + [ws[i]] == ws[..i + 1];
  }

  class FileSystem {
    const sb: Super
    var disk: Disk
    var inodes: seq<Inode>
    ghost var owner: Owner
    ghost var contents: seq<seq<Byte>>
    ghost var txn: Log.Txn
    ghost var trail: Trail
    ghost var commits: seq<Log.Txn>

    /** The image so far; `ok` is false once balloc has panicked. */
    ghost function Now(ok: bool): Image
      reads this
    {
      Image(disk, inodes, txn, ok, trail)
    }

    /** Ownership is sound, every file refines its flat byte sequence, and the inodes are on the
        disk. */
    ghost predicate Valid()
      reads this
    {
      && Sound(sb, disk, inodes, owner) && Refines(disk, inodes, contents)
      && |inodes| <= sb.ninodes && InodesStored(disk, inodes)
    }

    /** The file system on a disk. */
    constructor (super: Super, d: Disk, n: nat, ghost o: Owner, ghost cs: seq<seq<Byte>>)
      requires Sound(super, d, InodesAt(d, n), o) && Refines(d, InodesAt(d, n), cs) && n <= super.ninodes
      ensures Valid() && sb == super && disk == d && |inodes| == n && owner == o && contents == cs
    {
      sb, disk, inodes, owner, contents := super, d, InodesAt(d, n), o, cs;
    }

    method LogWrite(s: nat, b: Block)
      requires s < |disk|
      modifies this`disk, this`txn
      ensures disk == old(disk)[s := b] && txn == old(txn) + [Log.Write(s, b)]
    {
      disk := disk[s := b];
      txn := txn + [Log.Write(s, b)];
    }

    /** bread, log_write of what becomes of the sector, and brelse. */
    method StoreSector(s: nat, b: Block)
      requires s < |disk|
      modifies this`disk, this`txn, this`trail
      ensures disk == old(disk)[s := b] && txn == old(txn) + [Log.Write(s, b)] && trail == Then(old(trail), Store(s))
    {
      LogWrite(s, b);
      trail := Then(trail, Store(s));
    }

    /** bread and brelse. */
    method ReadSector(s: nat) returns (b: Block)
      modifies this`trail
      ensures b == At(disk, s) && trail == Then(old(trail), Read(s))
    {
      b := At(disk, s);
      trail := Then(trail, Read(s));
    }

    /** balloc finds the lowest clear bit, sets it and zeroes the block; it panics
        exactly when every bit is set. */
    method Balloc() returns (b: nat, ok: bool)
      requires |disk| == sb.size && DataStart(sb) <= sb.size
      modifies this`disk, this`txn, this`trail
      ensures ok ==> b < sb.size && !old(Used(sb, disk, b)) && disk == Claimed(sb, old(disk), b)
      ensures ok ==> forall x :: 0 <= x < b ==> old(Used(sb, disk, x))
      ensures ok ==> var p := BitBlock(sb, b);
                     txn == old(txn) + [Log.Write(p, SetUsed(sb, old(disk), b, true)[p]), Log.Write(b, Zero)]
      ensures !ok ==> disk == old(disk) && txn == old(txn)
      ensures !ok ==> Full(sb, disk)
      ensures trail == if ok then BallocOn(old(trail), sb, b) else FullOn(old(trail), sb)
    {
      b, ok := 0, false;
      var super := ReadSector(1);
      while b < sb.size
        invariant b % BPB == 0 && b < sb.size + BPB && disk == old(disk) && txn == old(txn)
        invariant trail == ScanOn(Then(old(trail), Read(1)), sb, b / BPB)
        invariant forall x :: 0 <= x < b && x < sb.size ==> Used(sb, disk, x)
      {
        var bits := BitsOf(disk[BitBlock(sb, b)]);
        var bi := 0;
        while bi < BPB && b + bi < sb.size && bits[bi]
          invariant 0 <= bi <= BPB
          invariant forall x :: 0 <= x < b + bi && x < sb.size ==> Used(sb, disk, x)
        {
          assert BitBlock(sb, b + bi) == BitBlock(sb, b) && (b + bi) % BPB == bi;
          bi := bi + 1;
        }
        if bi < BPB && b + bi < sb.size {
          assert BitBlock(sb, b + bi) == BitBlock(sb, b) && (b + bi) % BPB == bi;
          StoreSector(BitBlock(sb, b), Bits(bits[bi := true]));
          StoreSector(b + bi, Zero);
          assert (b + bi) / BPB == b / BPB;
          b, ok := b + bi, true;
          return;
        }
        trail := Then(trail, Read(BitBlock(sb, b)));
        assert b / BPB * BPB == b && (b + BPB) / BPB == b / BPB + 1;
        b := b + BPB;
      }
      assert b / BPB == (sb.size + BPB - 1) / BPB;
    }

    /** bfree; `ok` is false where the code panics on a block that is already free. */
    method Bfree(b: nat) returns (ok: bool)
      requires |disk| == sb.size && DataStart(sb) <= sb.size && b < sb.size
      modifies this`disk, this`txn, this`trail
      ensures ok == old(Used(sb, disk, b))
      ensures disk == if ok then SetUsed(sb, old(disk), b, false) else old(disk)
      ensures ok ==> txn == old(txn) + [Log.Write(BitBlock(sb, b), disk[BitBlock(sb, b)])]
      ensures !ok ==> txn == old(txn)
      ensures ok ==> trail == Then(Then(old(trail), Read(1)), Store(BitBlock(sb, b)))
    {
      var super := ReadSector(1);
      var bits := BitsOf(disk[BitBlock(sb, b)]);
      ok := bits[b % BPB];
      if ok {
        StoreSector(BitBlock(sb, b), Bits(bits[b % BPB := false]));
      }
    }

    /** balloc for slot `s`.  A pointer block `q` that has the slot is held meanwhile, and is logged
        before its brelse if balloc returns. */
    method BallocFor(s: Slot, ghost q: nat) returns (b: nat, ok: bool)
      requires |disk| == sb.size && DataStart(sb) <= sb.size
      modifies this`disk, this`txn, this`trail
      ensures ok ==> b < sb.size && !old(Used(sb, disk, b)) && disk == Claimed(sb, old(disk), b)
      ensures ok ==> forall x :: 0 <= x < b ==> old(Used(sb, disk, x))
      ensures ok ==> var p := BitBlock(sb, b);
                     txn == old(txn) + [Log.Write(p, SetUsed(sb, old(disk), b, true)[p]), Log.Write(b, Zero)]
      ensures !ok ==> disk == old(disk) && txn == old(txn) && Full(sb, disk)
      ensures trail == if ok then LevelNew(old(trail), sb, s, q, b) else LevelFull(old(trail), sb, s, q)
    {
      if !InInode(s) {
        trail := Start;
      }
      b, ok := Balloc();
      if !InInode(s) {
        trail := Then(old(trail), Under(q, trail, ok));
      }
    }

    /** `addr = balloc()` and its store into slot `s`: in the inode, or in a pointer block. */
    method AllocInto(k: nat, s: Slot, ghost bn: nat) returns (addr: nat, ok: bool)
      requires Sound(sb, disk, inodes, owner) && Vacant(disk, inodes, k, s)
      requires s in Path(bn) && HomeSlot(s) in Path(bn)
      modifies this`disk, this`inodes, this`owner, this`txn, this`trail
      ensures Sound(sb, disk, inodes, owner) && Wrote(sb, old(owner), owner, k, bn, bn, old(txn), txn)
      ensures Now(ok) == Grant(sb, old(Now(true)), k, s)
      ensures Extends(old(disk), old(inodes), disk, inodes, k, Path(bn))
      ensures ok ==> addr == Ptr(disk, inodes[k], s) != 0
      ensures !ok ==> Full(sb, disk)
      ensures LooksWithin(sb, owner.Keys, old(trail), trail) == Known
    {
      var q := Home(disk, inodes[k], s);
      addr, ok := BallocFor(s, q);
      LevelLooks(sb, old(disk), inodes, owner, k, s, addr, ok, old(trail), trail);
      LowestIs(sb, old(disk), 0, if ok then addr else sb.size);
      if ok {
        AllocSound(sb, old(disk), inodes, owner, k, s, addr);
        AllocExtends(sb, old(disk), inodes, owner, k, s, addr, Path(bn));
        if !InInode(s) {
          HomeOwned(sb, old(disk), inodes, old(owner), k, s);
          LogWrite(q, SetWord(disk[q], IndexOf(s), addr));
        }
        assert txn == old(txn) + AllocWrites(sb, old(disk), q, s, addr);
        AllocListed(sb, old(disk), q, s, addr, old(txn));
        AllocWrote(sb, old(disk), owner, k, bn, s, addr, q, old(txn), txn);
        LooksMore(sb, owner.Keys, owner[addr := (k, s)].Keys, old(trail), trail);
        owner := owner[addr := (k, s)];
        inodes := inodes[k := StoreInode(inodes[k], s, addr)];
      }
    }

    /** One level of bmap: read the slot, allocating when it is empty. */
    method EnsureSlot(k: nat, s: Slot, ghost bn: nat) returns (addr: nat, ok: bool)
      requires Sound(sb, disk, inodes, owner) && k < |inodes| && Legal(s)
      requires s in Path(bn) && HomeSlot(s) in Path(bn) && (InInode(s) || Home(disk, inodes[k], s) != 0)
      modifies this`disk, this`inodes, this`owner, this`txn, this`trail
      ensures Sound(sb, disk, inodes, owner) && Wrote(sb, old(owner), owner, k, bn, bn, old(txn), txn)
      ensures Now(ok) == Grant(sb, old(Now(true)), k, s)
      ensures Extends(old(disk), old(inodes), disk, inodes, k, Path(bn))
      ensures ok ==> addr == Ptr(disk, inodes[k], s) != 0
      ensures old(Ptr(disk, inodes[k], s)) != 0 ==> ok && disk == old(disk) && inodes == old(inodes)
      ensures old(Ptr(disk, inodes[k], s)) != 0 ==> owner == old(owner) && txn == old(txn)
      ensures old(Ptr(disk, inodes[k], s)) != 0 ==> OnlyReads(old(trail), trail)
      ensures !ok ==> Full(sb, disk)
      ensures LooksWithin(sb, owner.Keys, old(trail), trail) == Known
    {
      addr, ok := Ptr(disk, inodes[k], s), true;
      if addr == 0 {
        addr, ok := AllocInto(k, s, bn);
      } else {
        ThereLooks(sb, disk, inodes, owner, k, s, trail);
        if !InInode(s) {
          trail := Then(trail, Read(Home(disk, inodes[k], s)));
        }
      }
    }

    /** bmap: the block of file block `bn`, allocating what is missing on the way.  It adds
        to inode `k`'s tree only, and nothing at all when the block is there. */
    method Bmap(k: nat, bn: nat) returns (addr: nat, r: Result)
      requires Sound(sb, disk, inodes, owner) && k < |inodes|
      modifies this`disk, this`inodes, this`owner, this`txn, this`trail
      ensures Sound(sb, disk, inodes, owner) && Wrote(sb, old(owner), owner, k, bn, bn, old(txn), txn)
      ensures Extends(old(disk), old(inodes), disk, inodes, k, Path(bn))
      ensures bn < MAXFILE ==>
                Now(r.Ok?) == MapBlock(sb, old(Now(true)), k, bn)
      ensures r.Ok? || r.OutOfBlocks? || r.OutOfRange?
      ensures r.OutOfRange? <==> bn >= MAXFILE
      ensures r.Ok? ==> addr == Ptr(disk, inodes[k], DataSlot(bn)) != 0
      ensures r.OutOfBlocks? ==> Full(sb, disk)
      ensures bn < MAXFILE && old(Ptr(disk, inodes[k], DataSlot(bn))) != 0 ==>
                && r.Ok? && disk == old(disk) && inodes == old(inodes) && owner == old(owner) && txn == old(txn)
                && OnlyReads(old(trail), trail)
      ensures LooksWithin(sb, owner.Keys, old(trail), trail) == Known
    {
      var ok: bool;
      if bn < NDIRECT {
        addr, ok := EnsureSlot(k, Direct(bn), bn);
        return addr, if ok then Ok(0) else OutOfBlocks;
      }
      var n := bn - NDIRECT;
      if n < NINDIRECT {
        addr, ok := BmapSingle(k, n, bn);
        return addr, if ok then Ok(0) else OutOfBlocks;
      }
      n := n - NINDIRECT;
      if n < NINDIRECT * NINDIRECT {
        addr, ok := BmapDouble(k, n, bn);
        return addr, if ok then Ok(0) else OutOfBlocks;
      }
      LooksSame(sb, owner.Keys, trail);
      return 0, OutOfRange;
    }

    /** bmap through the single-indirect block. */
    method BmapSingle(k: nat, n: nat, ghost bn: nat) returns (addr: nat, ok: bool)
      requires Sound(sb, disk, inodes, owner) && k < |inodes| && n < NINDIRECT && bn == NDIRECT + n
      modifies this`disk, this`inodes, this`owner, this`txn, this`trail
      ensures Sound(sb, disk, inodes, owner) && Wrote(sb, old(owner), owner, k, bn, bn, old(txn), txn)
      ensures Extends(old(disk), old(inodes), disk, inodes, k, Path(bn))
      ensures Now(ok) == MapBlock(sb, old(Now(true)), k, bn)
      ensures ok ==> addr == Ptr(disk, inodes[k], DataSlot(bn)) != 0
      ensures !ok ==> Full(sb, disk)
      ensures old(Ptr(disk, inodes[k], DataSlot(bn))) != 0 ==>
                && ok && disk == old(disk) && inodes == old(inodes) && owner == old(owner) && txn == old(txn)
                && OnlyReads(old(trail), trail)
      ensures LooksWithin(sb, owner.Keys, old(trail), trail) == Known
    {
      addr, ok := EnsureSlot(k, Single, bn);
      if ok {
        addr, ok := EnsureNext(k, SingleEntry(n), bn, old(disk), old(inodes), old(owner), old(txn),
                               old(trail));
      }
    }

    /** bmap through the double-indirect block. */
    method BmapDouble(k: nat, n: nat, ghost bn: nat) returns (addr: nat, ok: bool)
      requires Sound(sb, disk, inodes, owner) && k < |inodes|
      requires n < NINDIRECT * NINDIRECT && bn == NDIRECT + NINDIRECT + n
      modifies this`disk, this`inodes, this`owner, this`txn, this`trail
      ensures Sound(sb, disk, inodes, owner) && Wrote(sb, old(owner), owner, k, bn, bn, old(txn), txn)
      ensures Extends(old(disk), old(inodes), disk, inodes, k, Path(bn))
      ensures Now(ok) == MapBlock(sb, old(Now(true)), k, bn)
      ensures ok ==> addr == Ptr(disk, inodes[k], DataSlot(bn)) != 0
      ensures !ok ==> Full(sb, disk)
      ensures old(Ptr(disk, inodes[k], DataSlot(bn))) != 0 ==>
                && ok && disk == old(disk) && inodes == old(inodes) && owner == old(owner) && txn == old(txn)
                && OnlyReads(old(trail), trail)
      ensures LooksWithin(sb, owner.Keys, old(trail), trail) == Known
    {
      addr, ok := EnsureSlot(k, Double, bn);
      if ok {
        addr, ok := EnsureNext(k, DoubleEntry(n / NINDIRECT), bn, old(disk), old(inodes), old(owner), old(txn),
                               old(trail));
      }
      if ok {
        addr, ok := EnsureNext(k, Leaf(n / NINDIRECT, n % NINDIRECT), bn, old(disk), old(inodes), old(owner), old(txn),
                               old(trail));
      }
    }

    /** EnsureSlot as a later level of one bmap call that began in state (d0, i0, o0, t0). */
    method EnsureNext(k: nat, s: Slot, ghost bn: nat, ghost d0: Disk, ghost i0: seq<Inode>, ghost o0: Owner,
                      ghost t0: Log.Txn, ghost tr0: Trail)
      returns (addr: nat, ok: bool)
      requires Sound(sb, disk, inodes, owner) && k < |inodes| && Legal(s) && bn < MAXFILE
      requires s in Path(bn) && HomeSlot(s) in Path(bn) && (InInode(s) || Home(disk, inodes[k], s) != 0)
      requires Extends(d0, i0, disk, inodes, k, Path(bn)) && Wrote(sb, o0, owner, k, bn, bn, t0, txn)
      requires LooksWithin(sb, owner.Keys, tr0, trail) == Known
      modifies this`disk, this`inodes, this`owner, this`txn, this`trail
      ensures Sound(sb, disk, inodes, owner)
      ensures Extends(d0, i0, disk, inodes, k, Path(bn)) && Wrote(sb, o0, owner, k, bn, bn, t0, txn)
      ensures Now(ok) == Grant(sb, old(Now(true)), k, s)
      ensures ok ==> addr == Ptr(disk, inodes[k], s) != 0
      ensures old(Ptr(disk, inodes[k], s)) != 0 ==> ok && disk == old(disk) && inodes == old(inodes)
      ensures old(Ptr(disk, inodes[k], s)) != 0 ==> owner == old(owner) && txn == old(txn)
      ensures old(Ptr(disk, inodes[k], s)) != 0 ==> OnlyReads(old(trail), trail)
      ensures !ok ==> Full(sb, disk)
      ensures LooksWithin(sb, owner.Keys, tr0, trail) == Known
    {
      addr, ok := EnsureSlot(k, s, bn);
      ExtendsTrans(d0, i0, old(disk), old(inodes), disk, inodes, k, Path(bn));
      WroteTrans(sb, o0, old(owner), owner, k, bn, bn, t0, old(txn), txn);
      LooksJoin(sb, old(owner).Keys, owner.Keys, tr0, old(trail), trail);
    }

    /** One turn of readi's loop. */
    method ReadBlock(k: nat, off: nat, m: nat) returns (part: seq<Byte>)
      requires Valid() && k < |inodes| && off + m <= |contents[k]| && 0 < m && off % BSIZE + m <= BSIZE
      modifies this`disk, this`inodes, this`owner, this`txn, this`trail
      ensures disk == old(disk) && inodes == old(inodes) && owner == old(owner) && txn == old(txn)
      ensures OnlyReads(old(trail), trail)
      ensures part == contents[k][off..off + m]
    {
      assert Ptr(disk, inodes[k], DataSlot(off / BSIZE)) != 0;
      var addr, b := Bmap(k, off / BSIZE);
      BlockBytes(disk, inodes[k], contents[k], off, m);
      var data := ReadSector(addr);
      part := BytesOf(data)[off % BSIZE..off % BSIZE + m];
    }

    /** readi: the bytes of the file from `off`, at most `n` of them.  Nothing is allocated
        or logged, and bmap is never asked for a block out of range. */
    method ReadI(k: nat, off: nat, n: nat) returns (r: Result, dst: seq<Byte>)
      requires Valid() && k < |inodes| && off < UINT_LIMIT && n < UINT_LIMIT
      modifies this`disk, this`inodes, this`owner, this`txn, this`trail
      ensures disk == old(disk) && inodes == old(inodes) && owner == old(owner) && txn == old(txn)
      ensures OnlyReads(old(trail), trail)
      ensures r.Fail? <==> off > |contents[k]| || off + n >= UINT_LIMIT
      ensures !r.Fail? ==> var m := if off + n > |contents[k]| then |contents[k]| - off else n;
                           r == Ok(m) && dst == contents[k][off..off + m]
    {
      dst := [];
      if off > inodes[k].size || (off + n) % UINT_LIMIT < off {
        return Fail, dst;
      }
      var left := if off + n > inodes[k].size then inodes[k].size - off else n;
      ghost var c := contents[k];
      var tot, o := 0, off;
      while tot < left
        invariant 0 <= tot <= left && o == off + tot && off + left <= |c|
        invariant disk == old(disk) && inodes == old(inodes) && owner == old(owner) && txn == old(txn)
        invariant OnlyReads(old(trail), trail)
        invariant dst == c[off..o]
      {
        var m := Step(o, left - tot);
        ghost var tr := trail;
        var part := ReadBlock(k, o, m);
        ReadsJoin(old(trail), tr, trail);
        JoinSlices(c, off, o, o + m);
        dst := dst + part;
        tot, o := tot + m, o + m;
      }
      r := Ok(left);
    }

    /** The memmove and log_write of one turn of writei's loop. */
    method StoreBlock(k: nat, off: nat, part: seq<Byte>, ghost c: seq<Byte>)
      requires Sound(sb, disk, inodes, owner) && k < |inodes| && Holds(disk, inodes[k], c)
      requires OthersHold(disk, inodes, contents, k)
      requires off <= |c| && off % BSIZE + |part| <= BSIZE && off + |part| <= MAXFILE * BSIZE && 0 < |part|
      requires Ptr(disk, inodes[k], DataSlot(off / BSIZE)) != 0
      modifies this`disk, this`txn, this`trail
      ensures Sound(sb, disk, inodes, owner) && Wrote(sb, owner, owner, k, off / BSIZE, off / BSIZE, old(txn), txn)
      ensures Now(true) == PutBytes(sb, old(Now(true)).(inodes := inodes), k, off, part)
      ensures Holds(disk, inodes[k], Splice(c, off, part)) && OthersHold(disk, inodes, contents, k)
      ensures trail == Then(old(trail), Store(Ptr(old(disk), inodes[k], DataSlot(off / BSIZE))))
    {
      ghost var bn := off / BSIZE;
      var addr := Ptr(disk, inodes[k], DataSlot(off / BSIZE));
      DataSlotFacts(bn);
      ghost var bytes := Patched(At(disk, addr), off % BSIZE, part);
      WriteSound(sb, disk, inodes, owner, k, DataSlot(bn), bytes);
      WriteHolds(sb, disk, inodes, owner, k, c, off, part);
      WriteOthers(sb, disk, inodes, owner, k, bn, bytes, contents);
      StoreSector(addr, Data(Patched(disk[addr], off % BSIZE, part)));
      StoreWrote(sb, owner, k, bn, addr, old(txn), txn);
    }

    /** One turn of writei's loop: `part` goes into the block that byte `off` lies in. */
    method WriteBlock(k: nat, off: nat, part: seq<Byte>, ghost c: seq<Byte>) returns (r: Result)
      requires Sound(sb, disk, inodes, owner) && k < |inodes| && Holds(disk, inodes[k], c)
      requires OthersHold(disk, inodes, contents, k)
      requires off <= |c| && off % BSIZE + |part| <= BSIZE && off + |part| <= MAXFILE * BSIZE && 0 < |part|
      modifies this`disk, this`inodes, this`owner, this`txn, this`trail
      ensures Sound(sb, disk, inodes, owner) && SameSizes(old(inodes), inodes)
      ensures Wrote(sb, old(owner), owner, k, off / BSIZE, off / BSIZE, old(txn), txn)
      ensures Now(r.Ok?) ==
              PutBytes(sb, MapBlock(sb, old(Now(true)), k, off / BSIZE), k, off, part)
      ensures r.Ok? || r.OutOfBlocks?
      ensures old(Ptr(disk, inodes[k], DataSlot(off / BSIZE))) != 0 ==> inodes == old(inodes)
      ensures r.Ok? ==> Holds(disk, inodes[k], Splice(c, off, part)) && OthersHold(disk, inodes, contents, k)
      ensures r.OutOfBlocks? ==> Full(sb, disk)
      ensures LooksWithin(sb, owner.Keys, old(trail), trail) == Known
    {
      var bn := off / BSIZE;
      var addr, b := Bmap(k, bn);
      ghost var o1, t1, tr1 := owner, txn, trail;
      if b.Ok? {
        BmapHolds(old(disk), old(inodes), disk, inodes, k, bn, c, contents);
        StoreBlock(k, off, part, c);
        LooksStore(sb, owner.Keys, tr1, addr);
        LooksJoin(sb, owner.Keys, owner.Keys, old(trail), tr1, trail);
        WroteTrans(sb, old(owner), o1, owner, k, bn, bn, old(txn), t1, txn);
      }
      r := b;
    }

    /** The same as the next of the turns `ts` of a loop that writes `src`. */
    method WriteTurn(k: nat, off: nat, src: seq<Byte>, tot: nat, m: nat, ghost c: seq<Byte>, ghost ts: seq<Turn>)
      returns (r: Result, ghost ts': seq<Turn>)
      requires Sound(sb, disk, inodes, owner) && k < |inodes| && Holds(disk, inodes[k], c)
      requires OthersHold(disk, inodes, contents, k)
      requires tot < |src| && m == Step(off + tot, |src| - tot) && off + tot <= |c| && off + |src| <= MAXFILE * BSIZE
      requires ShapeOf(sb, k, off, src, ts) == Chain && ts != []
      requires ts[|ts| - 1] == Turn(Now(true), tot)
      modifies this`disk, this`inodes, this`owner, this`txn, this`trail
      ensures Sound(sb, disk, inodes, owner) && SameSizes(old(inodes), inodes)
      ensures Wrote(sb, old(owner), owner, k, (off + tot) / BSIZE, (off + tot) / BSIZE, old(txn), txn)
      ensures ShapeOf(sb, k, off, src, ts') == Chain && ts' != [] && ts'[0] == ts[0]
      ensures ts'[|ts'| - 1] == Turn(Now(r.Ok?), tot + m)
      ensures r.Ok? || r.OutOfBlocks?
      ensures off + tot < |c| ==> inodes == old(inodes)
      ensures r.Ok? ==> Holds(disk, inodes[k], Splice(c, off + tot, src[tot..tot + m]))
      ensures r.Ok? ==> OthersHold(disk, inodes, contents, k)
      ensures r.OutOfBlocks? ==> Full(sb, disk)
      ensures LooksWithin(sb, owner.Keys, old(trail), trail) == Known
    {
      ghost var e := Now(true);
      r := WriteBlock(k, off + tot, src[tot..tot + m], c);
      OneMoreTurn(sb, k, off, src, ts, e, tot, m, Now(r.Ok?));
      ts' := ts + [Turn(Now(r.Ok?), tot + m)];
    }

    /** iupdate: inode `k` goes to its place in its sector. */
    method Iupdate(k: nat)
      requires InodeBlock(k) < |disk| && k < |inodes|
      modifies this`disk, this`txn, this`trail
      ensures disk == PutInode(old(disk), k, inodes[k])
      ensures txn == old(txn) + [Log.Write(InodeBlock(k), disk[InodeBlock(k)])]
      ensures trail == Then(old(trail), Store(InodeBlock(k)))
    {
      StoreSector(InodeBlock(k), Dinodes(InodesOf(disk[InodeBlock(k)])[k % IPB := inodes[k]]));
    }

    /** writei's loop: `src` replaces the bytes from `off` on. */
    method WriteLoop(k: nat, src: seq<Byte>, off: nat) returns (r: Result, ghost ts: seq<Turn>)
      requires Valid() && k < |inodes| && off <= |contents[k]| && off + |src| <= MAXFILE * BSIZE
      modifies this`disk, this`inodes, this`owner, this`txn, this`trail
      ensures Sound(sb, disk, inodes, owner) && SameSizes(old(inodes), inodes)
      ensures Wrote(sb, old(owner), owner, k, off / BSIZE, LastBlock(off, |src|), old(txn), txn)
      ensures LoopRun(sb, old(Now(true)), Now(r.Ok?),
                      k, off, src, ts)
      ensures off + |src| <= |contents[k]| ==> inodes == old(inodes)
      ensures r == Ok(|src|) || r.OutOfBlocks?
      ensures r.Ok? ==> Holds(disk, inodes[k], Splice(contents[k], off, src)) && OthersHold(disk, inodes, contents, k)
      ensures r.OutOfBlocks? ==> Full(sb, disk)
      ensures LooksWithin(sb, owner.Keys, old(trail), trail) == Known
    {
      ghost var c, lo, hi := contents[k], off / BSIZE, LastBlock(off, |src|);
      ghost var cur := c;
      ts := [Turn(Now(true), 0)];
      FirstTurn(sb, k, off, src, ts[0]);
      var tot, n := 0, |src|;
      assert Splice(c, off, src[..0]) == c;
      LooksSame(sb, owner.Keys, trail);
      while tot < n
        invariant 0 <= tot <= n
        invariant Sound(sb, disk, inodes, owner) && SameSizes(old(inodes), inodes)
        invariant Holds(disk, inodes[k], cur) && OthersHold(disk, inodes, contents, k)
        invariant cur == Splice(c, off, src[..tot])
        invariant Wrote(sb, old(owner), owner, k, lo, hi, old(txn), txn)
        invariant off + n <= |c| ==> inodes == old(inodes)
        invariant ShapeOf(sb, k, off, src, ts) == Chain && ts != []
        invariant ts[0] == Turn(old(Now(true)), 0)
        invariant ts[|ts| - 1] == Turn(Now(true), tot)
        invariant LooksWithin(sb, owner.Keys, old(trail), trail) == Known
      {
        var m := Step(off + tot, n - tot);
        ghost var o1, t1, tr1, bn := owner, txn, trail, (off + tot) / BSIZE;
        r, ts := WriteTurn(k, off, src, tot, m, cur, ts);
        LooksJoin(sb, o1.Keys, owner.Keys, old(trail), tr1, trail);
        WroteWiden(sb, o1, owner, k, bn, bn, lo, hi, t1, txn);
        WroteTrans(sb, old(owner), o1, owner, k, lo, hi, old(txn), t1, txn);
        if !r.Ok? {
          return;
        }
        cur := Splice(cur, off + tot, src[tot..tot + m]);
        SpliceMore(c, off, src, tot, m);
        tot := tot + m;
      }
      assert src[..n] == src;
      r := Ok(n);
    }

    /** The new size at the end of writei, and iupdate. */
    method Enlarge(k: nat, z: nat, ghost c: seq<Byte>, ghost cs: seq<seq<Byte>>)
      requires Sound(sb, disk, inodes, owner) && k < |inodes| <= sb.ninodes && inodes[k].size < z
      requires Holds(disk, inodes[k], c) && OthersHold(disk, inodes, cs, k) && OthersStored(disk, inodes, k)
      modifies this`disk, this`inodes, this`txn, this`trail
      ensures Sound(sb, disk, inodes, owner) && inodes == old(inodes)[k := old(inodes)[k].(size := z)]
      ensures Holds(disk, inodes[k], c) && OthersHold(disk, inodes, cs, k) && InodesStored(disk, inodes)
      ensures Logs(old(txn), txn, [InodeBlock(k)])
      ensures Now(true) == SetSize(old(Now(true)), k, z) && trail == Then(old(trail), Store(InodeBlock(k)))
    {
      SizeSound(sb, disk, inodes, owner, k, z, c, cs);
      inodes := inodes[k := inodes[k].(size := z)];
      PutElsewhere(sb, disk, inodes, owner, k, inodes[k]);
      SoundElsewhere(sb, disk, PutInode(disk, k, inodes[k]), inodes, owner);
      HoldsElsewhere(sb, disk, PutInode(disk, k, inodes[k]), inodes, owner, k, c);
      OthersElsewhere(sb, disk, PutInode(disk, k, inodes[k]), inodes, owner, cs, k);
      PutStored(disk, inodes, k);
      Iupdate(k);
    }

    /** writei: splices `src` into the file, growing it if need be.  Other files are
        untouched, and bmap's out-of-range panic is unreachable. */
    method WriteI(k: nat, src: seq<Byte>, off: nat) returns (r: Result, ghost ts: seq<Turn>, ghost e: Image)
      requires Valid() && k < |inodes| && off < UINT_LIMIT && |src| < UINT_LIMIT
      modifies this`disk, this`inodes, this`owner, this`txn, this`trail, this`contents
      ensures Sound(sb, disk, inodes, owner)
      ensures r.Fail? <==> old(off > |contents[k]|) || off + |src| > MAXFILE * BSIZE
      ensures r.Fail? ==> Valid() && disk == old(disk) && inodes == old(inodes) && owner == old(owner)
      ensures r.Fail? ==> contents == old(contents) && txn == old(txn) && trail == old(trail)
      ensures r.Ok? ==> r == Ok(|src|) && Valid()
      ensures r.Ok? ==> contents == old(contents)[k := Splice(old(contents[k]), off, src)]
      ensures r.Ok? ==> var grew := old(|contents[k]|) < off + |src| && 0 < |src|;
                        var m := if grew then |txn| - 1 else |txn|;
                        var lo, hi := off / BSIZE, LastBlock(off, |src|);
                        && 0 <= m && Wrote(sb, old(owner), owner, k, lo, hi, old(txn), txn[..m])
                        && (grew ==> txn[m].sector == InodeBlock(k))
      ensures !r.Fail? ==> LoopRun(sb, old(Now(true)), e, k, off, src, ts)
      ensures !r.Fail? ==> Now(r.Ok?) == if src == [] then e else SetSize(e, k, off + |src|)
      ensures r.OutOfBlocks? ==> |inodes| == |old(inodes)| && Full(sb, disk)
      ensures !r.OutOfRange?
      ensures LooksWithin(sb, owner.Keys, old(trail), trail) == Known
    {
      ts, e := [], Now(true);
      LooksSame(sb, owner.Keys, trail);
      var n := |src|;
      if off > inodes[k].size || (off + n) % UINT_LIMIT < off {
        return Fail, ts, e;
      }
      if off + n > MAXFILE * BSIZE {
        return Fail, ts, e;
      }
      r, ts := WriteLoop(k, src, off);
      e := Now(r.Ok?);
      if r.Ok? {
        StoredAfterLoop(sb, old(Now(true)), e, k, off, src, ts);
        ghost var t1, tr1 := txn, trail;
        WriteEnd(k, off, n, Splice(contents[k], off, src), old(disk), old(inodes));
        assert t1[..|t1|] == t1;
        LooksStore(sb, owner.Keys, tr1, InodeBlock(k));
        LooksJoin(sb, owner.Keys, owner.Keys, old(trail), tr1, Then(tr1, Store(InodeBlock(k))));
      }
    }

    /** writei after its loop. */
    method WriteEnd(k: nat, off: nat, n: nat, ghost c: seq<Byte>, ghost d0: Disk, ghost i0: seq<Inode>)
      requires Sound(sb, disk, inodes, owner) && k < |inodes| <= sb.ninodes && OthersStored(disk, inodes, k)
      requires Refines(d0, i0, contents) && InodesStored(d0, i0) && SameSizes(i0, inodes)
      requires Holds(disk, inodes[k], c) && OthersHold(disk, inodes, contents, k)
      requires |c| == (if off + n <= inodes[k].size then inodes[k].size else off + n) && off <= inodes[k].size
      requires At(disk, InodeBlock(k)) == At(d0, InodeBlock(k)) && (off + n <= inodes[k].size ==> inodes == i0)
      modifies this`disk, this`inodes, this`txn, this`trail, this`contents
      ensures Valid() && contents == old(contents)[k := c]
      ensures var grew := old(inodes)[k].size < off + n && 0 < n;
              && |txn| == |old(txn)| + (if grew then 1 else 0) && txn[..|old(txn)|] == old(txn)
              && (grew ==> txn[|old(txn)|].sector == InodeBlock(k))
      ensures var e := old(Now(true));
              Now(true) == if n == 0 then e else SetSize(e, k, off + n)
      ensures trail == old(trail) || trail == Then(old(trail), Store(InodeBlock(k)))
    {
      if n > 0 && off + n > inodes[k].size {
        Enlarge(k, off + n, c, contents);
        assert txn[|old(txn)| + 0].sector == [InodeBlock(k)][0];
      } else {
        AllStored(disk, inodes, d0, i0, k);
      }
      RefinesAfter(d0, i0, disk, inodes, contents, k, c);
      contents := contents[k := c];
    }

    /** `if(p) bfree(p)` for the block number `p` of the slot that is next in itrunc's order.  The block
        is still marked in use, so bfree does not panic. */
    method FreeSlot(k: nat, p: nat, ghost s: Slot, ghost o0: Owner, ghost e0: Image, ghost ps: seq<nat>)
      requires SlotHas(e0, k, s, p) == Known && FreeingOf(sb, e0, o0, k, Rank(s), ps, disk, txn) == Known
      modifies this`disk, this`txn, this`trail
      ensures FreeingOf(sb, e0, o0, k, Rank(s) + 1, ps + [p], disk, txn) == Known
      ensures trail == FreeOn(old(trail), sb, p)
    {
      assert Open(0) && OpenAt(0, disk, ps);
      FreeMore(sb, e0, ps, p);
      if p != 0 {
        FreeStep(sb, e0.d, disk, e0.inodes, o0, k, s);
        var ok := Bfree(p);
        assert ok;
      } else {
        forall s' | Legal(s') && Rank(s) <= Rank(s') < Rank(s) + 1
          ensures Ptr(e0.d, e0.inodes[k], s') == 0
        {
          RankInjective(s, s');
        }
        FreeSkip(sb, e0.d, disk, e0.inodes, o0, k, Rank(s), Rank(s) + 1);
      }
    }

    /** The entries of pointer block `q`, then `q` itself. */
    method FreeSingle(k: nat, q: nat, ghost o0: Owner, ghost e0: Image, ghost ps: seq<nat>)
      requires k < |e0.inodes| && q == Ptr(e0.d, e0.inodes[k], Single) != 0
      requires FreeingOf(sb, e0, o0, k, NDIRECT, ps, disk, txn) == Known
      modifies this`disk, this`txn, this`trail
      ensures FreeingOf(sb, e0, o0, k, DoubleRank(0), ps + EntryBlocks(e0.d, q), disk, txn) == Known
      ensures trail == EntryOn(old(trail), sb, e0.d, q)
    {
      TreeBlockKept(sb, e0, o0, k, NDIRECT, ps, disk, txn, Single);
      var a := disk[q];
      ghost var ws := WordsOf(a);
      assert ps + ws[..0] == ps;
      trail := Start;
      for j := 0 to NINDIRECT
        invariant FreeingOf(sb, e0, o0, k, NDIRECT + j, ps + ws[..j], disk, txn) == Known
        invariant trail == FreesOn(Start, sb, ws[..j])
      {
        FreeSlot(k, Word(a, j), SingleEntry(j), o0, e0, ps + ws[..j]);
        NextWord(ps, ws, j);
        FreesMore(Start, sb, ws, j);
      }
      assert ws[..NINDIRECT] == ws;
      trail := Then(old(trail), Under(q, trail, false));
      FreeSlot(k, q, Single, o0, e0, ps + ws);
      assert ps + ws + [q] == ps + EntryBlocks(e0.d, q);
    }

    /** Entry `j` of a second-level block with the words `ws`. */
    method FreeLeaf(k: nat, ws: seq<nat>, i: nat, j: nat, ghost o0: Owner, ghost e0: Image, ghost ps: seq<nat>)
      requires j < |ws| == NINDIRECT && LeavesHave(e0, k, i, ws) == Known
      requires FreeingOf(sb, e0, o0, k, DoubleRank(i) + j, ps + ws[..j], disk, txn) == Known
      modifies this`disk, this`txn, this`trail
      ensures FreeingOf(sb, e0, o0, k, DoubleRank(i) + (j + 1), ps + ws[..j + 1], disk, txn) == Known
      ensures trail == FreeOn(old(trail), sb, ws[j])
    {
      LeafHas(e0, k, i, ws, j);
      FreeSlot(k, ws[j], Leaf(i, j), o0, e0, ps + ws[..j]);
      assert ps + ws[..j] + [ws[j]] == ps + ws[..j + 1];
    }

    /** The entries of a second-level block. */
    method FreeLeaves(k: nat, ws: seq<nat>, i: nat, ghost o0: Owner, ghost e0: Image, ghost ps: seq<nat>)
      requires |ws| == NINDIRECT && LeavesHave(e0, k, i, ws) == Known
      requires FreeingOf(sb, e0, o0, k, DoubleRank(i), ps, disk, txn) == Known
      modifies this`disk, this`txn, this`trail
      ensures FreeingOf(sb, e0, o0, k, Rank(DoubleEntry(i)), ps + ws, disk, txn) == Known
      ensures trail == FreesOn(old(trail), sb, ws)
    {
      assert ps + ws[..0] == ps;
      var j := 0;
      while j < NINDIRECT
        invariant 0 <= j <= NINDIRECT && FreeingOf(sb, e0, o0, k, DoubleRank(i) + j, ps + ws[..j], disk, txn) == Known
        invariant trail == FreesOn(old(trail), sb, ws[..j])
      {
        FreeLeaf(k, ws, i, j, o0, e0, ps);
        FreesMore(old(trail), sb, ws, j);
        j := j + 1;
      }
      assert ws[..NINDIRECT] == ws;
    }

    /** The same for the second-level block in entry `i` of the double-indirect block. */
    method FreeDoubleEntry(k: nat, q: nat, i: nat, ghost o0: Owner, ghost e0: Image, ghost ps: seq<nat>)
      requires k < |e0.inodes|
      requires i < NINDIRECT && q == Ptr(e0.d, e0.inodes[k], DoubleEntry(i))
      requires FreeingOf(sb, e0, o0, k, DoubleRank(i), ps, disk, txn) == Known
      modifies this`disk, this`txn, this`trail
      ensures FreeingOf(sb, e0, o0, k, DoubleRank(i + 1), ps + EntryBlocks(e0.d, q), disk, txn) == Known
      ensures trail == EntryOn(old(trail), sb, e0.d, q)
    {
      if q != 0 {
        TreeBlockKept(sb, e0, o0, k, DoubleRank(i), ps, disk, txn, DoubleEntry(i));
        var ws := WordsOf(disk[q]);
        trail := Start;
        FreeLeaves(k, ws, i, o0, e0, ps);
        trail := Then(old(trail), Under(q, trail, false));
        FreeSlot(k, q, DoubleEntry(i), o0, e0, ps + ws);
        assert ps + ws + [q] == ps + EntryBlocks(e0.d, q);
      } else {
        SkipSlots(sb, e0, o0, k, DoubleRank(i), DoubleRank(i + 1), ps, disk, txn);
        assert ps + EntryBlocks(e0.d, q) == ps;
      }
    }

    method FreeDouble(k: nat, q: nat, ghost o0: Owner, ghost e0: Image, ghost ps: seq<nat>)
      requires k < |e0.inodes| && q == Ptr(e0.d, e0.inodes[k], Double) != 0
      requires FreeingOf(sb, e0, o0, k, DoubleRank(0), ps, disk, txn) == Known
      modifies this`disk, this`txn, this`trail
      ensures FreeingOf(sb, e0, o0, k, RANKS, ps + DoubleBlocks(e0.d, q), disk, txn) == Known
      ensures trail == DoubleOn(old(trail), sb, e0.d, q)
    {
      TreeBlockKept(sb, e0, o0, k, DoubleRank(0), ps, disk, txn, Double);
      var a := disk[q];
      ghost var ws := WordsOf(a);
      assert ps + SecondLevel(e0.d, ws[..0]) == ps;
      trail := Start;
      for i := 0 to NINDIRECT
        invariant FreeingOf(sb, e0, o0, k, DoubleRank(i), ps + SecondLevel(e0.d, ws[..i]), disk, txn) == Known
        invariant trail == SecondOn(Start, sb, e0.d, ws[..i])
      {
        FreeDoubleEntry(k, Word(a, i), i, o0, e0, ps + SecondLevel(e0.d, ws[..i]));
        SecondNext(e0.d, ps, ws, i);
        EntriesMore(Start, sb, e0.d, ws, i);
      }
      assert ws[..NINDIRECT] == ws;
      trail := Then(old(trail), Under(q, trail, false));
      FreeSlot(k, q, Double, o0, e0, ps + SecondLevel(e0.d, ws));
      assert ps + SecondLevel(e0.d, ws) + [q] == ps + DoubleBlocks(e0.d, q);
    }

    /** itrunc's loop over the direct blocks. */
    method FreeDirect(k: nat, addrs0: seq<nat>, ghost o0: Owner, ghost e0: Image) returns (addrs: seq<nat>)
      requires k < |e0.inodes| && addrs0 == e0.inodes[k].addrs && |addrs0| == NDIRECT + 1
      requires FreeingOf(sb, e0, o0, k, 0, [], disk, txn) == Known
      modifies this`disk, this`txn, this`trail
      ensures FreeingOf(sb, e0, o0, k, NDIRECT, addrs0[..NDIRECT], disk, txn) == Known
      ensures trail == FreesOn(old(trail), sb, addrs0[..NDIRECT])
      ensures |addrs| == NDIRECT + 1
      ensures forall j :: 0 <= j <= NDIRECT ==> addrs[j] == if j < NDIRECT then 0 else addrs0[j]
    {
      addrs := addrs0;
      for i := 0 to NDIRECT
        invariant FreeingOf(sb, e0, o0, k, i, addrs0[..i], disk, txn) == Known
        invariant trail == FreesOn(old(trail), sb, addrs0[..i])
        invariant |addrs| == NDIRECT + 1 && forall j :: 0 <= j <= NDIRECT ==> addrs[j] == if j < i then 0 else addrs0[j]
      {
        FreeSlot(k, addrs[i], Direct(i), o0, e0, addrs0[..i]);
        FreesMore(old(trail), sb, addrs0, i);
        assert addrs0[..i] + [addrs0[i]] == addrs0[..i + 1];
        addrs := addrs[i := 0];
      }
    }

    /** itrunc's loops; the addrs they leave behind are all 0. */
    method FreeAll(k: nat, addrs0: seq<nat>, indirect2: nat, ghost o0: Owner, ghost e0: Image)
      returns (addrs: seq<nat>)
      requires k < |e0.inodes|
      requires addrs0 == e0.inodes[k].addrs && indirect2 == e0.inodes[k].indirect2 && |addrs0| == NDIRECT + 1
      requires FreeingOf(sb, e0, o0, k, 0, [], disk, txn) == Known
      modifies this`disk, this`txn, this`trail
      ensures FreeingOf(sb, e0, o0, k, RANKS, TreeBlocks(e0.d, e0.inodes[k]), disk, txn) == Known
      ensures trail == TreeOn(old(trail), sb, e0.d, e0.inodes[k])
      ensures |addrs| == NDIRECT + 1 && forall j :: 0 <= j <= NDIRECT ==> addrs[j] == 0
    {
      addrs := FreeDirect(k, addrs0, o0, e0);
      ghost var ps := addrs0[..NDIRECT];
      if addrs[NDIRECT] != 0 {
        FreeSingle(k, addrs[NDIRECT], o0, e0, ps);
        addrs := addrs[NDIRECT := 0];
      } else {
        SkipSlots(sb, e0, o0, k, NDIRECT, DoubleRank(0), ps, disk, txn);
        assert ps + EntryBlocks(e0.d, 0) == ps;
      }
      ps := ps + EntryBlocks(e0.d, addrs0[NDIRECT]);
      if indirect2 != 0 {
        FreeDouble(k, indirect2, o0, e0, ps);
      } else {
        SkipSlots(sb, e0, o0, k, DoubleRank(0), RANKS, ps, disk, txn);
        assert ps + DoubleBlocks(e0.d, 0) == ps;
      }
    }

    /** The end of itrunc: size and addrs are cleared, and the inode is written. */
    method ClearInode(k: nat, addrs: seq<nat>, ghost o: Owner, ghost cs: seq<seq<Byte>>)
      requires k < |inodes| <= sb.ninodes && addrs == Repeat(0, NDIRECT + 1) && OthersStored(disk, inodes, k)
      requires var ips := inodes[k := Emptied(inodes[k])]; Sound(sb, disk, ips, o) && Refines(disk, ips, cs)
      modifies this`disk, this`inodes, this`owner, this`txn, this`trail, this`contents
      ensures Valid() && contents == cs && owner == o && inodes == old(inodes)[k := Emptied(old(inodes)[k])]
      ensures SameBits(sb, old(disk), disk)
      ensures Now(true) == AfterUpdate(old(Now(true)).(inodes := inodes), k)
    {
      ghost var ip := Emptied(inodes[k]);
      inodes := inodes[k := Inode(addrs, 0, 0, inodes[k].meta)];
      assert inodes[k] == ip;
      owner, contents := o, cs;
      PutElsewhere(sb, disk, inodes, owner, k, inodes[k]);
      SoundElsewhere(sb, disk, PutInode(disk, k, inodes[k]), inodes, owner);
      RefinesElsewhere(sb, disk, PutInode(disk, k, inodes[k]), inodes, owner, contents);
      PutStored(disk, inodes, k);
      Iupdate(k);
    }

    /** itrunc: the file becomes empty, exactly the blocks its inode owned are freed, and
        no free block is freed. */
    method Itrunc(k: nat)
      requires Valid() && k < |inodes|
      modifies this`disk, this`inodes, this`owner, this`txn, this`trail, this`contents
      ensures Valid() && contents == old(contents)[k := []] && owner == Others(old(owner), k)
      ensures inodes == old(inodes)[k := Emptied(old(inodes)[k])]
      ensures Now(true) == AfterTrunc(sb, old(Now(true)), k)
      ensures forall b :: 0 <= b < sb.size ==>
                (Used(sb, disk, b) <==> old(Used(sb, disk, b)) && !(b in old(owner) && old(owner)[b].0 == k))
    {
      ghost var e0 := Now(true);
      FreeNothing(sb, e0, owner, k);
      var addrs := FreeAll(k, inodes[k].addrs, inodes[k].indirect2, owner, e0);
      assert OpenAt(0, disk, TreeBlocks(e0.d, e0.inodes[k]));
      TruncAll(sb, old(disk), disk, inodes, owner, k, contents);
      StoredElsewhere(sb, old(disk), disk, inodes, k);
      assert addrs == Repeat(0, NDIRECT + 1);
      ClearInode(k, addrs, Others(owner, k), contents[k := []]);
    }

    /** iupdate after the metadata has changed. */
    method SetMeta(k: nat, meta: Meta)
      requires Valid() && k < |inodes|
      modifies this`disk, this`inodes, this`txn, this`trail
      ensures Valid() && inodes == old(inodes)[k := old(inodes)[k].(meta := meta)]
      ensures Now(true) == AfterUpdate(old(Now(true)).(inodes := inodes), k)
    {
      MetaHolds(sb, disk, inodes, owner, contents, k, meta);
      inodes := inodes[k := inodes[k].(meta := meta)];
      PutElsewhere(sb, disk, inodes, owner, k, inodes[k]);
      SoundElsewhere(sb, disk, PutInode(disk, k, inodes[k]), inodes, owner);
      RefinesElsewhere(sb, disk, PutInode(disk, k, inodes[k]), inodes, owner, contents);
      PutStored(disk, inodes, k);
      Iupdate(k);
    }

    /** begin_trans, writei, commit_trans.  Which sectors are logged, and so whether a log_write
        panics, is known before. */
    method ChunkTxn(k: nat, off: nat, chunk: seq<Byte>, ghost l: Log.Layout) returns (r: Result, ghost m: nat)
      requires Valid() && k < |inodes| && off < UINT_LIMIT && |chunk| <= MAX_CHUNK
      modifies this
      ensures r.Fail? <==> old(off > |contents[k]|) || off + |chunk| > MAXFILE * BSIZE
      ensures r == Ok(|chunk|) || r.Fail? || r.OutOfBlocks?
      ensures r.OutOfBlocks? ==> Full(sb, disk) && commits == old(commits)
      ensures !r.OutOfBlocks? ==> Valid() && commits == old(commits) + [txn]
      ensures var e := AfterWrite(sb, ImageOf(old(disk), old(inodes)), k, off, chunk);
              && (r.OutOfBlocks? <==> !e.ok)
              && (!r.OutOfBlocks? ==> Now(true) == e)
              && (!r.OutOfBlocks? ==> (Log.TxnOk(l, txn, |txn|) <==> LogOk(l, SectorList(e.log))))
      ensures r.Fail? ==> contents == old(contents) && disk == old(disk) && owner == old(owner) && txn == []
      ensures r.Ok? ==> contents == Patch(old(contents), k, off, chunk)
      ensures r.Ok? ==> m <= |txn| <= m + 1 && (m < |txn| ==> txn[m].sector == InodeBlock(k))
      ensures r.Ok? ==> Wrote(sb, old(owner), owner, k, off / BSIZE, LastBlock(off, |chunk|), [], txn[..m])
      ensures |inodes| == |old(inodes)|
    {
      txn, trail, m := [], Start, 0;
      ghost var ts, e;
      r, ts, e := WriteI(k, chunk, off);
      if !r.Fail? {
        LogIs(sb, ImageOf(old(disk), old(inodes)), e, Now(r.Ok?), k, off, chunk, ts);
      }
      if !r.OutOfBlocks? {
        m := if old(|contents[k]|) < off + |chunk| && 0 < |chunk| && r.Ok? then |txn| - 1 else |txn|;
        commits := commits + [txn];
        TxnOkList(l, txn);
      }
    }

    /** One turn of filewrite's loop.  With room for a chunk the transaction fits in the log, and
        at most that room is used up. */
    method WriteChunk(k: nat, off: nat, chunk: seq<Byte>, ghost l: Log.Layout, ghost low: nat, ghost high: nat)
      returns (r: Result)
      requires Valid() && k < |inodes| && off < UINT_LIMIT && |chunk| <= MAX_CHUNK
      modifies this
      ensures r.Fail? <==> old(off > |contents[k]|) || off + |chunk| > MAXFILE * BSIZE
      ensures r == Ok(|chunk|) || r.Fail? || r.OutOfBlocks?
      ensures r.OutOfBlocks? ==> Full(sb, disk)
      ensures !r.OutOfBlocks? ==> Valid() && |commits| == |old(commits)| + 1
      ensures !r.OutOfBlocks? ==> commits[..|old(commits)|] == old(commits)
      ensures r.Fail? ==> contents == old(contents)
      ensures r.Ok? ==> contents == Patch(old(contents), k, off, chunk)
      ensures !r.OutOfBlocks? && old(Room(l, sb, disk, owner, k, low, high)) > 0 ==>
                && Log.TxnOk(l, commits[|old(commits)|], |commits[|old(commits)|]|)
                && Room(l, sb, disk, owner, k, low, high) >= old(Room(l, sb, disk, owner, k, low, high)) - 1
      ensures |inodes| == |old(inodes)|
    {
      ghost var m;
      r, m := ChunkTxn(k, off, chunk, l);
      if r.Ok? && old(Room(l, sb, disk, owner, k, low, high)) > 0 {
        ChunkOk(l, sb, old(disk), old(inodes), old(owner), disk, inodes, owner, k, off, |chunk|, txn, m, low, high);
      }
    }

    /** filewrite: the data is spliced in chunk by chunk, one transaction each.  It gives up
        only where writei does, and then the chunks before are in the file, as many as fit below the
        maximal size.  With room for all
        chunks every transaction fits in the log; a write is never short. */
    method FileWrite(k: nat, off: nat, data: seq<Byte>, ghost l: Log.Layout, ghost low: nat, ghost high: nat)
      returns (r: Result, i: nat)
      requires Valid() && k < |inodes| && off < UINT_LIMIT
      modifies this
      ensures !r.OutOfRange? && i <= |data|
      ensures !r.OutOfBlocks? ==> Valid()
      ensures r.OutOfBlocks? ==> Full(sb, disk)
      ensures r.Ok? <==> i == |data| && !r.OutOfBlocks?
      ensures !r.OutOfBlocks? ==> contents == Patch(old(contents), k, off, data[..i])
      ensures !r.OutOfBlocks? ==>
                (r.Fail? <==> data != [] && (off > old(|contents[k]|) || off + |data| > MAXFILE * BSIZE))
      ensures r.Fail? && off > old(|contents[k]|) ==> i == 0
      ensures r.Fail? && off <= old(|contents[k]|) ==>
                i % MAX_CHUNK == 0 && off + i <= MAXFILE * BSIZE < off + i + MAX_CHUNK
      ensures !r.OutOfBlocks? && old(Room(l, sb, disk, owner, k, low, high)) >= Chunks(|data|) ==> AllOk(l, commits)
    {
      ghost var fits := Room(l, sb, disk, owner, k, low, high) >= Chunks(|data|);
      commits := [];
      i := 0;
      var n := |data|;
      PatchNothing(contents, k, off);
      SizeLimit(disk, inodes, contents, k);
      assert Whole(0) == Fine;
      while i < n
        invariant 0 <= i <= n && Valid() && |inodes| == |old(inodes)|
        invariant (i > 0 ==> off + i <= MAXFILE * BSIZE) && (i < n ==> Whole(i) == Fine)
        invariant ProgressOf(old(contents), contents, k, off, data, i) == Fine
        invariant fits ==> OutlookOf(l, commits, Room(l, sb, disk, owner, k, low, high), n - i) == Fine
      {
        var n1;
        r, n1 := FileStep(k, off, data, i, old(contents), l, low, high);
        WholeNext(i, n1, n);
        if !r.Ok? {
          return;
        }
        i := i + n1;
      }
      assert data[..n] == data;
      r := Ok(n);
    }

    /** The turn of filewrite's loop after `i` bytes of the data. */
    method FileStep(k: nat, off: nat, data: seq<Byte>, i: nat, ghost cs: seq<seq<Byte>>,
                    ghost l: Log.Layout, ghost low: nat, ghost high: nat)
      returns (r: Result, n1: nat)
      requires Valid() && k < |inodes| && off < UINT_LIMIT
      requires k < |cs| && i < |data| && ProgressOf(cs, contents, k, off, data, i) == Fine
      requires i > 0 ==> off + i <= MAXFILE * BSIZE
      modifies this
      ensures n1 == (if |data| - i > MAX_CHUNK then MAX_CHUNK else |data| - i)
      ensures r == Ok(n1) || r.Fail? || r.OutOfBlocks?
      ensures r.OutOfBlocks? ==> Full(sb, disk)
      ensures !r.OutOfBlocks? ==> Valid()
      ensures r.Ok? ==> ProgressOf(cs, contents, k, off, data, i + n1) == Fine && off + i + n1 <= MAXFILE * BSIZE
      ensures r.Fail? ==> contents == old(contents)
      ensures r.Fail? <==> off > |cs[k]| || off + i + n1 > MAXFILE * BSIZE
      ensures !r.OutOfBlocks? ==>
                old(OutlookOf(l, commits, Room(l, sb, disk, owner, k, low, high), |data| - i)) == Fine ==>
                OutlookOf(l, commits, Room(l, sb, disk, owner, k, low, high), |data| - i - n1) == Fine
      ensures |inodes| == |old(inodes)|
    {
      n1 := if |data| - i > MAX_CHUNK then MAX_CHUNK else |data| - i;
      var part := data[i..i + n1];
      ProgressEnd(cs, contents, k, off, data, i);
      r := FileTurn(k, off + i, part, |data| - i, l, low, high);
      if r.Ok? {
        ProgressMore(cs, old(contents), k, off, data, i, part);
      }
    }

    /** WriteChunk with `left` bytes to go. */
    method FileTurn(k: nat, off: nat, part: seq<Byte>, ghost left: nat, ghost l: Log.Layout, ghost low: nat,
                    ghost high: nat)
      returns (r: Result)
      requires Valid() && k < |inodes| && off < UINT_LIMIT
      requires 0 < left && |part| == (if left > MAX_CHUNK then MAX_CHUNK else left)
      modifies this
      ensures r == Ok(|part|) || r.Fail? || r.OutOfBlocks?
      ensures r.Fail? <==> old(off > |contents[k]|) || off + |part| > MAXFILE * BSIZE
      ensures r.OutOfBlocks? ==> Full(sb, disk)
      ensures !r.OutOfBlocks? ==> Valid()
      ensures r.Ok? ==> contents == Patch(old(contents), k, off, part)
      ensures r.Fail? ==> contents == old(contents)
      ensures !r.OutOfBlocks? && old(OutlookOf(l, commits, Room(l, sb, disk, owner, k, low, high), left)) == Fine ==>
                OutlookOf(l, commits, Room(l, sb, disk, owner, k, low, high), left - |part|) == Fine
      ensures |inodes| == |old(inodes)|
    {
      ghost var had := Room(l, sb, disk, owner, k, low, high);
      r := WriteChunk(k, off, part, l, low, high);
      if !r.OutOfBlocks? && OutlookOf(l, old(commits), had, left) == Fine {
        StaysFine(l, old(commits), commits, had, Room(l, sb, disk, owner, k, low, high), left);
      }
    }

    /** writei as one of the calls. */
    method DoWrite(k: nat, off: nat, src: seq<Byte>) returns (ok: bool)
      requires Valid() && k < |inodes| && off < UINT_LIMIT && |src| < UINT_LIMIT
      modifies this
      ensures Now(ok) ==
              AfterWrite(sb, old(Now(true)), k, off, src)
      ensures ok ==> Valid() && View() == FlatOp(old(View()), WriteOp(k, off, src))
      ensures ok ==> Logged(old(owner), owner, old(txn), txn)
      ensures !ok ==> Full(sb, disk)
      ensures |inodes| == |old(inodes)|
      ensures LooksWithin(sb, owner.Keys, old(trail), trail) == Known
    {
      var r;
      ghost var ts, e;
      r, ts, e := WriteI(k, src, off);
      ok := !r.OutOfBlocks?;
      if !r.Fail? {
        LogIs(sb, old(Now(true)), e, Now(r.Ok?), k, off, src, ts);
      }
      WriteMetas(sb, old(Now(true)), k, off, src);
      if r.Ok? {
        LoggedOnward(sb, old(owner), owner, k, off / BSIZE, LastBlock(off, |src|), old(txn), txn,
                     if old(|contents[k]|) < off + |src| && 0 < |src| then |txn| - 1 else |txn|);
      }
    }

    /** What the files are: their bytes and metadata. */
    ghost function View(): Flat
      reads this
    {
      Flat(contents, MetasOf(inodes))
    }

    /** itrunc as one of the calls. */
    method DoTrunc(k: nat)
      requires Valid() && k < |inodes|
      modifies this
      ensures Now(true) == AfterTrunc(sb, old(Now(true)), k)
      ensures Valid() && View() == FlatOp(old(View()), TruncOp(k))
      ensures Logged(old(owner), owner, old(txn), txn) && |inodes| == |old(inodes)|
      ensures LooksWithin(sb, old(owner).Keys, old(trail), trail) == Known
    {
      TruncExtends(sb, Now(true), k);
      TruncLooks(sb, Now(true), owner, k);
      Itrunc(k);
      assert MetasOf(inodes) == MetasOf(old(inodes));
    }

    /** iupdate as one of the calls. */
    method DoUpdate(k: nat, meta: Meta)
      requires Valid() && k < |inodes|
      modifies this
      ensures Now(true) ==
              AfterOp(sb, old(Now(true)), UpdateOp(k, meta))
      ensures Valid() && View() == FlatOp(old(View()), UpdateOp(k, meta))
      ensures Logged(old(owner), owner, old(txn), txn) && |inodes| == |old(inodes)|
      ensures LooksWithin(sb, owner.Keys, old(trail), trail) == Known
    {
      LooksStore(sb, owner.Keys, trail, InodeBlock(k));
      SetMeta(k, meta);
      assert MetasOf(inodes) == MetasOf(old(inodes))[k := meta];
    }

    /** One call; `ok` is false when balloc panics. */
    method DoOp(op: Op) returns (ok: bool)
      requires Valid() && CanDo(|inodes|, op)
      modifies this
      ensures Now(ok) == AfterOp(sb, old(Now(true)), op)
      ensures ok ==> Valid() && View() == FlatOp(old(View()), op) && Logged(old(owner), owner, old(txn), txn)
      ensures ok && Going(old(Now(true))) ==> Going(Now(true))
      ensures LooksWithin(sb, old(owner).Keys + owner.Keys, old(trail), trail) == Known
      ensures !ok ==> Full(sb, disk)
      ensures |inodes| == |old(inodes)|
    {
      if Going(Now(true)) {
        OpOrderly(sb, Now(true), owner, op);
        OpAgrees(sb, Now(true), op);
      }
      ok := true;
      match op {
        case WriteOp(k, off, src) =>
          ok := DoWrite(k, off, src);
          LooksMore(sb, owner.Keys, old(owner).Keys + owner.Keys, old(trail), trail);
        case TruncOp(k) =>
          DoTrunc(k);
          LooksMore(sb, old(owner).Keys, old(owner).Keys + owner.Keys, old(trail), trail);
        case UpdateOp(k, meta) =>
          DoUpdate(k, meta);
          LooksMore(sb, owner.Keys, old(owner).Keys + owner.Keys, old(trail), trail);
      }
    }

    /** File refinement over any sequence of writes, truncations and updates: as long as blocks last,
        every file equals what the same calls make of flat files, and what they log is known before. */
    method RunOps(ops: seq<Op>) returns (ok: bool)
      requires Valid() && CanDoAll(|inodes|, ops)
      modifies this
      ensures Now(ok) == AfterOps(sb, old(Now(true)), ops, |ops|)
      ensures ok ==> Valid() && View() == FlatRun(old(View()), ops, |ops|) && Logged(old(owner), owner, old(txn), txn)
      ensures ok && Going(old(Now(true))) ==> Going(Now(true))
      ensures ok ==> LooksWithin(sb, old(owner).Keys + Elements(SectorList(txn)), old(trail), trail) == Known
      ensures !ok ==> Full(sb, disk)
      ensures |inodes| == |old(inodes)|
    {
      ghost var e0 := Now(true);
      LooksSame(sb, owner.Keys + Elements(SectorList(txn)), trail);
      for i := 0 to |ops|
        invariant Valid() && |inodes| == |old(inodes)|
        invariant StandingOf(sb, e0, old(View()), old(owner), ops, i,
                             Now(true), View(), owner) == Good
        invariant Going(e0) ==> Going(Now(true))
        invariant LooksWithin(sb, old(owner).Keys + Elements(SectorList(txn)), old(trail), trail) == Known
      {
        ghost var e, f, o := Now(true), View(), owner;
        ok := DoOp(ops[i]);
        StandingNext(sb, e0, old(View()), old(owner), ops, i, e, f, o, Now(ok), View(), owner);
        if !ok {
          return;
        }
        LooksOn(sb, e0.log, old(owner), e, o, Now(true), owner, old(trail));
      }
      ok := true;
    }
  }
}

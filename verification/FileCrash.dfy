/** Files across crashes: the block layer on top of the log.

    A system call that changes files is a transaction of writei, itrunc and iupdate calls.  The
    machine may stop after any of the disk writes of a transaction, also by a panic, and again in any
    recovery; when it is up again the kernel has only the disk to go by. */
module FileCrash {
  import opened Blocks
  import opened Files
  import opened FileBytes
  import opened FileSteps
  import opened DiskInodes
  import opened Counting
  import opened FileLog
  import opened FileTrail
  import opened FileOps
  import opened TxnBound
  import opened FilesCode
  import opened Sealed
  import Buffers
  import Log

  /** The machine runs on or stops after `k` writes of the transaction.  When it has stopped or
      panicked, `retries[i]` is the number of writes after which the i-th recovery is cut off. */
  datatype Fate = Runs(retries: seq<nat>) | Stops(k: nat, retries: seq<nat>)

  /** A system call, from begin_trans to commit_trans. */
  datatype Call = Call(ops: seq<Op>, fate: Fate)

  /** What a call makes of a disk with `n` inodes, and what it logs. */
  function ImageAt(sb: Super, n: nat, d: Disk, ops: seq<Op>): (e: Image)
    ensures Agrees(e)
  {
    OpsAgree(sb, ImageOf(d, InodesAt(d, n)), ops, |ops|);
    AfterOps(sb, ImageOf(d, InodesAt(d, n)), ops, |ops|)
  }

  /** How many log_writes go through. */
  function Passing(l: Log.Layout, nbuf: nat, e: Image): (n: nat)
    requires Agrees(e)
    ensures n <= |e.log| && Log.TxnOk(l, e.log, n) && Log.TxnOk(l, e.log[..n], n)
    ensures EndingOf(l, nbuf, e).Commits? ==> Log.TxnOk(l, e.log, |e.log|)
  {
    PassingOk(l, nbuf, e);
    |RunImage(l, nbuf, e).t|
  }

  lemma PassingOk(l: Log.Layout, nbuf: nat, e: Image)
    requires Agrees(e)
    ensures var n := |RunImage(l, nbuf, e).t|;
            n <= |e.log| && Log.TxnOk(l, e.log, n) && Log.TxnOk(l, e.log[..n], n)
    ensures EndingOf(l, nbuf, e).Commits? ==> Log.TxnOk(l, e.log, |e.log|)
  {
    var n := LogWrites(l, nbuf, e);
    PrefixOk(l, e.log, n);
    Log.TxnOkSlice(l, e.log, n, n);
    EndingIff(l, nbuf, e);
    TxnOkList(l, e.log);
  }

  /** A log_write for a sector of the log is reached; nothing is said about what follows. */
  predicate Astray(l: Log.Layout, nbuf: nat, e: Image, f: Fate)
    requires Agrees(e)
  {
    EndingOf(l, nbuf, e).Strays? && (f.Stops? ==> f.k > Passing(l, nbuf, e))
  }

  /** What happens to the log: the transaction commits or is cut off; a panic cuts it off after the
      log_writes before, with the header not written. */
  function EventOf(l: Log.Layout, nbuf: nat, e: Image, f: Fate): (v: Log.Event)
    requires Agrees(e) && !Astray(l, nbuf, e, f)
    ensures Log.TxnOk(l, v.txn, |v.txn|)
  {
    var n := Passing(l, nbuf, e);
    if EndingOf(l, nbuf, e).Commits? then
      if f.Runs? then Log.Committed(e.log) else Log.Crashed(e.log, f.k, f.retries)
    else
      Log.Crashed(e.log[..n], if f.Stops? && f.k < n then f.k else n, f.retries)
  }

  /** A call lasts only if it commits, and then all of it is logged. */
  lemma LastingIs(l: Log.Layout, nbuf: nat, e: Image, f: Fate)
    requires Agrees(e) && !Astray(l, nbuf, e, f) && Log.Survives(EventOf(l, nbuf, e, f))
    ensures e.ok && EventOf(l, nbuf, e, f).txn == e.log && Log.TxnOk(l, e.log, |e.log|)
  {
    EndingIff(l, nbuf, e);
  }

  /** Exactly when a call lasts: no block is missing, the log takes all of it, there is a buffer for each
      request, and the machine does not stop before the header has been written. */
  lemma LastsIff(l: Log.Layout, nbuf: nat, e: Image, f: Fate)
    requires Agrees(e) && !Astray(l, nbuf, e, f)
    ensures Log.Survives(EventOf(l, nbuf, e, f)) <==>
            && e.ok && LogOk(l, Buffers.SectorList(e.log)) && Buffers.Rooms(nbuf, [], {}, e.trail)
            && (f.Runs? || (e.log != [] && f.k > |e.log|))
  {
    EndingIff(l, nbuf, e);
  }

  /** And when nothing is said about it: a sector of the log is reached while the log has room, after
      fewer log_writes than the machine runs for. */
  lemma AstrayIff(l: Log.Layout, nbuf: nat, e: Image, f: Fate)
    requires Agrees(e)
    ensures Astray(l, nbuf, e, f) ==>
              exists i: nat :: StraysAt(l, Buffers.SectorList(e.log), i) && (f.Stops? ==> f.k > i)
    ensures Buffers.Rooms(nbuf, [], {}, e.trail) ==>
              (Astray(l, nbuf, e, f) <==>
               exists i: nat :: StraysAt(l, Buffers.SectorList(e.log), i) && (f.Stops? ==> f.k > i))
  {
    var m := LogWrites(l, nbuf, e);
    EndingIff(l, nbuf, e);
    if Buffers.Rooms(nbuf, [], {}, e.trail) {
      forall i: nat | StraysAt(l, Buffers.SectorList(e.log), i) ensures i == m {
        OneStray(l, Buffers.SectorList(e.log), i, m);
      }
    }
  }

  lemma OneStray(l: Log.Layout, xs: seq<nat>, i: nat, j: nat)
    requires StraysAt(l, xs, i) && StraysAt(l, xs, j)
    ensures i == j
  {
  }

  /** The first `n` calls, but only those that lasted. */
  function FlatLasting(f: Flat, calls: seq<Call>, es: seq<Log.Event>, n: nat): (r: Flat)
    requires n <= |calls| && n <= |es|
    ensures |r.bytes| == |f.bytes| && |r.metas| == |f.metas|
  {
    if n == 0 then f
    else
      var before := FlatLasting(f, calls, es, n - 1);
      if Log.Survives(es[n - 1]) then FlatRun(before, calls[n - 1].ops, |calls[n - 1].ops|) else before
  }

  lemma {:induction false} FlatLastingSame(f: Flat, calls: seq<Call>, es: seq<Log.Event>, v: Log.Event, n: nat)
    requires n <= |calls| && n <= |es|
    ensures FlatLasting(f, calls, es + [v], n) == FlatLasting(f, calls, es, n)
  {
    if n > 0 {
      FlatLastingSame(f, calls, es, v, n - 1);
    }
  }

  lemma HomeAt(l: Log.Layout, d: Disk, q: Disk, x: nat)
    requires Log.SameHomes(l, d, q) && x < l.start
    ensures At(q, x) == At(d, x)
  {
    assert d[..l.start][x] == q[..l.start][x];
  }

  /** The home sectors are all there is to a file system. */
  lemma Remounts(l: Log.Layout, sb: Super, d: Disk, q: Disk, inodes: seq<Inode>, o: Owner, cs: seq<seq<Byte>>)
    requires Sound(sb, d, inodes, o) && Refines(d, inodes, cs) && |inodes| <= sb.ninodes && InodesStored(d, inodes)
    requires BelowLog(o, l) && DataStart(sb) <= l.start && Log.SameHomes(l, d, q)
    ensures InodesAt(q, |inodes|) == inodes && InodesStored(q, inodes)
    ensures Sound(sb, q, inodes, o) && Refines(q, inodes, cs)
  {
    forall j: nat | j < |inodes| ensures DiskInode(q, j) == inodes[j] {
      InodeSectorBelow(sb, j);
      HomeAt(l, d, q, InodeBlock(j));
      assert DiskInode(d, j) == inodes[j];
    }
    forall b | b in o ensures At(q, b) == At(d, b) {
      assert o[b] == o[b] && b < l.start;
      HomeAt(l, d, q, b);
    }
    forall x | 0 <= x < sb.size ensures Used(sb, q, x) == Used(sb, d, x) {
      HomeAt(l, d, q, BitBlock(sb, x));
    }
    SoundElsewhere(sb, d, q, inodes, o);
    RefinesElsewhere(sb, d, q, inodes, o, cs);
  }

  /** A transaction of home sectors takes only blocks below the log. */
  lemma TakenBelow(l: Log.Layout, o: Owner, o': Owner, t: Log.Txn)
    requires NewLogged(o, o', [], t) && BelowLog(o, l) && Log.TxnOk(l, t, |t|)
    ensures BelowLog(o', l)
  {
    TxnOkIff(l, t, |t|);
    forall b | b in o' ensures b < l.start {
      if b in o {
        assert o[b] == o[b];
      } else {
        assert LoggedAt([], t, b);
      }
    }
  }

  ghost predicate Mounted(fs: FileSystem, l: Log.Layout)
    reads fs
  {
    fs.Valid() && Log.Clean(l, fs.disk) && BelowLog(fs.owner, l) && DataStart(fs.sb) <= l.start
  }

  lemma InodesRead(d: Disk, inodes: seq<Inode>)
    requires InodesStored(d, inodes)
    ensures InodesAt(d, |inodes|) == inodes
  {
    forall j: nat | j < |inodes| ensures InodesAt(d, |inodes|)[j] == inodes[j] {
      assert DiskInode(d, j) == inodes[j];
    }
  }

  /** The call in memory, up to commit_trans: no sector is asked for that it holds, and only those before
      the data, its own blocks and the ones it logs are asked for. */
  method CallInMemory(fs: FileSystem, ops: seq<Op>)
    requires fs.Valid() && CanDoAll(|fs.inodes|, ops) && ImageAt(fs.sb, |fs.inodes|, fs.disk, ops).ok
    modifies fs
    ensures fs.Valid() && |fs.inodes| == |old(fs.inodes)| && fs.View() == FlatRun(old(fs.View()), ops, |ops|)
    ensures var e := ImageAt(fs.sb, |old(fs.inodes)|, old(fs.disk), ops);
            && fs.disk == e.d == Log.Apply(old(fs.disk), e.log, |e.log|)
            && NewLogged(old(fs.owner), fs.owner, [], e.log) && Orderly(e.trail)
            && LooksWithin(fs.sb, old(fs.owner).Keys + Elements(Buffers.SectorList(e.log)), Buffers.Start, e.trail) ==
               Known
  {
    InodesRead(fs.disk, fs.inodes);
    fs.txn, fs.trail := [], Buffers.Start;
    assert Buffers.SectorList([]) == [] == Buffers.Puts(Buffers.Start);
    var ok := fs.RunOps(ops);
    OpsApplied(fs.sb, old(fs.disk), ImageOf(old(fs.disk), old(fs.inodes)), ops, |ops|);
  }

  /** The kernel on a disk with the same home sectors. */
  method Reread(fs: FileSystem, l: Log.Layout, q: Disk)
    requires fs.Valid() && BelowLog(fs.owner, l) && DataStart(fs.sb) <= l.start
    requires Log.Clean(l, q) && Log.SameHomes(l, q, fs.disk)
    modifies fs
    ensures Mounted(fs, l) && fs.disk == q && fs.View() == old(fs.View())
  {
    Remounts(l, fs.sb, fs.disk, q, fs.inodes, fs.owner, fs.contents);
    fs.disk, fs.inodes := q, InodesAt(q, |fs.inodes|);
  }

  /** mkfs's disk without files. */
  method FreshMount(sb: Super, n: nat, l: Log.Layout) returns (fs: FileSystem)
    requires n <= sb.ninodes && DataStart(sb) <= l.start && 1 <= l.size && l.start + l.size == sb.size
    ensures fresh(fs) && Mounted(fs, l) && fs.sb == sb && |fs.inodes| == n
    ensures forall k :: 0 <= k < n ==> fs.contents[k] == []
  {
    FreshSound(sb, n);
    fs := new FileSystem(sb, FreshDisk(sb), n, map[], seq(n, _ => []));
  }

  /** One call and its fate.  Afterwards the disk is the one the log leaves behind, the file system read
      back from it is sound, and of the call there is all or nothing, all if commit_trans has
      returned.  `stray` is the case that nothing is said about. */
  method CrashingCall(fs: FileSystem, l: Log.Layout, nbuf: nat, c: Call) returns (stray: bool, v: Log.Event)
    requires Mounted(fs, l) && CanDoAll(|fs.inodes|, c.ops)
    modifies fs
    ensures var e := ImageAt(fs.sb, |old(fs.inodes)|, old(fs.disk), c.ops);
            && (stray <==> Astray(l, nbuf, e, c.fate))
            && (!stray ==> v == EventOf(l, nbuf, e, c.fate) && fs.disk == Log.EventDisk(l, old(fs.disk), v))
            && (!stray ==> (Log.Survives(v) <==>
                  && e.ok && LogOk(l, Buffers.SectorList(e.log)) && Buffers.Rooms(nbuf, [], {}, e.trail)
                  && (c.fate.Runs? || (e.log != [] && c.fate.k > |e.log|))))
    ensures !stray ==> Mounted(fs, l) && |fs.inodes| == |old(fs.inodes)|
    ensures !stray ==> fs.View() == if Log.Survives(v) then FlatRun(old(fs.View()), c.ops, |c.ops|) else old(fs.View())
  {
    var n, p := |fs.inodes|, fs.disk;
    var e := ImageAt(fs.sb, n, p, c.ops);
    stray, v := Astray(l, nbuf, e, c.fate), Log.Committed([]);
    if stray {
      return;
    }
    v := EventOf(l, nbuf, e, c.fate);
    LastsIff(l, nbuf, e, c.fate);
    var q := Log.EventDisk(l, p, v);
    if Log.Survives(v) {
      LastingIs(l, nbuf, e, c.fate);
      ghost var o := fs.owner;
      CallInMemory(fs, c.ops);
      TakenBelow(l, o, fs.owner, e.log);
    }
    Reread(fs, l, q);
  }

  /** Call `i` was this event, on the disk that the calls before have left, and led to the next disk. */
  ghost predicate EventAt(l: Log.Layout, nbuf: nat, sb: Super, n: nat, calls: seq<Call>, disks: seq<Disk>,
                          es: seq<Log.Event>, i: nat)
  {
    && i < |calls| && i < |es| && i + 1 < |disks| && Log.Clean(l, disks[i])
    && var e := ImageAt(sb, n, disks[i], calls[i].ops);
       && !Astray(l, nbuf, e, calls[i].fate) && es[i] == EventOf(l, nbuf, e, calls[i].fate)
       && disks[i + 1] == Log.EventDisk(l, disks[i], es[i])
  }

  ghost predicate IsRun(l: Log.Layout, nbuf: nat, sb: Super, n: nat, calls: seq<Call>, disks: seq<Disk>,
                        es: seq<Log.Event>)
  {
    |disks| == |es| + 1 && |es| <= |calls| &&
    forall i: nat {:trigger EventAt(l, nbuf, sb, n, calls, disks, es, i)} ::
      i < |es| ==> EventAt(l, nbuf, sb, n, calls, disks, es, i)
  }

  ghost function RunOf(l: Log.Layout, nbuf: nat, sb: Super, n: nat, calls: seq<Call>, disks: seq<Disk>,
                       es: seq<Log.Event>): Seal
  {
    if forall z: nat {:trigger Open(z)} :: Open(z) ==> IsRun(l, nbuf, sb, n, calls, disks, es) then Known else Unknown
  }

  lemma RunIs(l: Log.Layout, nbuf: nat, sb: Super, n: nat, calls: seq<Call>, disks: seq<Disk>, es: seq<Log.Event>)
    requires RunOf(l, nbuf, sb, n, calls, disks, es) == Known
    ensures IsRun(l, nbuf, sb, n, calls, disks, es)
  {
    assert Open(0);
  }

  lemma RunStarts(l: Log.Layout, nbuf: nat, sb: Super, n: nat, calls: seq<Call>, d: Disk)
    ensures RunOf(l, nbuf, sb, n, calls, [d], []) == Known
  {
  }

  lemma RunMore(l: Log.Layout, nbuf: nat, sb: Super, n: nat, calls: seq<Call>, disks: seq<Disk>, es: seq<Log.Event>,
                d: Disk, v: Log.Event)
    requires RunOf(l, nbuf, sb, n, calls, disks, es) == Known && |es| < |calls| && |disks| == |es| + 1
    requires EventAt(l, nbuf, sb, n, calls, disks + [d], es + [v], |es|)
    ensures RunOf(l, nbuf, sb, n, calls, disks + [d], es + [v]) == Known
  {
    RunIs(l, nbuf, sb, n, calls, disks, es);
    forall i: nat | i < |es| ensures EventAt(l, nbuf, sb, n, calls, disks + [d], es + [v], i) {
      EventStays(l, nbuf, sb, n, calls, disks, es, d, v, i);
    }
  }

  lemma EventStays(l: Log.Layout, nbuf: nat, sb: Super, n: nat, calls: seq<Call>, disks: seq<Disk>,
                   es: seq<Log.Event>, d: Disk, v: Log.Event, i: nat)
    requires EventAt(l, nbuf, sb, n, calls, disks, es, i) && |disks| == |es| + 1
    ensures EventAt(l, nbuf, sb, n, calls, disks + [d], es + [v], i)
  {
    assert (disks + [d])[i] == disks[i] && (disks + [d])[i + 1] == disks[i + 1] && (es + [v])[i] == es[i];
  }

  /** One more call of a run. */
  method NextCall(fs: FileSystem, l: Log.Layout, nbuf: nat, calls: seq<Call>, es: seq<Log.Event>,
                  ghost disks: seq<Disk>, ghost f: Flat)
    returns (es': seq<Log.Event>, ghost disks': seq<Disk>)
    requires Mounted(fs, l) && |es| < |calls| && CanDoAll(|fs.inodes|, calls[|es|].ops)
    requires !Astray(l, nbuf, ImageAt(fs.sb, |fs.inodes|, fs.disk, calls[|es|].ops), calls[|es|].fate)
    requires |disks| == |es| + 1 && disks[|es|] == fs.disk
    requires RunOf(l, nbuf, fs.sb, |fs.inodes|, calls, disks, es) == Known
    requires fs.View() == FlatLasting(f, calls, es, |es|)
    modifies fs
    ensures Mounted(fs, l) && |fs.inodes| == |old(fs.inodes)|
    ensures |es'| == |es| + 1 && |disks'| == |disks| + 1 && disks'[0] == disks[0] && disks'[|es'|] == fs.disk
    ensures RunOf(l, nbuf, fs.sb, |fs.inodes|, calls, disks', es') == Known
    ensures fs.View() == FlatLasting(f, calls, es', |es'|)
  {
    var n := |es|;
    var stray, v := CrashingCall(fs, l, nbuf, calls[n]);
    FlatLastingSame(f, calls, es, v, n);
    es', disks' := es + [v], disks + [fs.disk];
    RunMore(l, nbuf, fs.sb, |fs.inodes|, calls, disks, es, fs.disk, v);
  }

  /** Any number of system calls and crashes: the disk at every point is the one the log leaves behind,
      the file system on it is sound, and the files are what the lasting calls make of them; a call
      that has committed lasts.  The run ends early only at a call that goes astray. */
  method RunCalls(fs: FileSystem, l: Log.Layout, nbuf: nat, calls: seq<Call>)
    returns (n: nat, es: seq<Log.Event>, ghost disks: seq<Disk>)
    requires Mounted(fs, l) && forall i :: 0 <= i < |calls| ==> CanDoAll(|fs.inodes|, calls[i].ops)
    modifies fs
    ensures Mounted(fs, l) && |fs.inodes| == |old(fs.inodes)| && n == |es| <= |calls| && |disks| == n + 1
    ensures disks[0] == old(fs.disk) && disks[n] == fs.disk && IsRun(l, nbuf, fs.sb, |fs.inodes|, calls, disks, es)
    ensures fs.View() == FlatLasting(old(fs.View()), calls, es, n)
    ensures n < |calls| ==> Astray(l, nbuf, ImageAt(fs.sb, |fs.inodes|, fs.disk, calls[n].ops), calls[n].fate)
  {
    n, es, disks := 0, [], [fs.disk];
    RunStarts(l, nbuf, fs.sb, |fs.inodes|, calls, fs.disk);
    while n < |calls| && !Astray(l, nbuf, ImageAt(fs.sb, |fs.inodes|, fs.disk, calls[n].ops), calls[n].fate)
      invariant Mounted(fs, l) && |fs.inodes| == |old(fs.inodes)| && n == |es| <= |calls| && |disks| == n + 1
      invariant disks[0] == old(fs.disk) && disks[n] == fs.disk
      invariant RunOf(l, nbuf, fs.sb, |fs.inodes|, calls, disks, es) == Known
      invariant fs.View() == FlatLasting(old(fs.View()), calls, es, n)
      decreases |calls| - n
    {
      es, disks := NextCall(fs, l, nbuf, calls, es, disks, old(fs.View()));
      n := n + 1;
    }
    RunIs(l, nbuf, fs.sb, |fs.inodes|, calls, disks, es);
  }
}

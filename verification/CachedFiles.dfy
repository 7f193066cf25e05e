/** A system call that changes files, with its blocks, the log and the buffer cache together: the breads,
    log_writes and brelses that writei, itrunc and iupdate make go through the cache. */
module CachedFiles {
  import opened Blocks
  import opened Counting
  import opened Options
  import opened Files
  import opened FileSteps
  import opened DiskInodes
  import opened Buffers
  import opened FileTrail
  import opened FileLog
  import opened FileOps
  import opened TxnBound
  import opened FilesCode
  import opened FileCrash
  import opened Storage
  import opened StorageCode
  import opened Sealed
  import Log

  /** A call on a mounted file system asks only for sectors before the log, if it logs only such. */
  lemma CallHome(l: Log.Layout, sb: Super, o: Owner, e: Image)
    requires LooksWithin(sb, o.Keys + Elements(SectorList(e.log)), Start, e.trail) == Known && Agrees(e)
    requires BelowLog(o, l) && DataStart(sb) <= l.start && forall x :: x in SectorList(e.log) ==> x < l.start
    ensures HomeOnly(l, e.trail)
  {
    assert OpenLook(0, e.trail);
    forall x | x in Looks(e.trail) ensures x < l.start {
      assert x in o ==> o[x] == o[x];
    }
    HomeIf(l, e.trail);
  }

  /** A call through the cache.  It goes through or is stopped as its trail says.  If it goes through, the
      disk and every reader have the files it makes; if not, recovery finds the files from before. */
  method CachedCall(fs: FileSystem, s: CachedLog, ops: seq<Op>) returns (stop: Option<Why>)
    requires Mounted(fs, s.l) && CanDoAll(|fs.inodes|, ops)
    requires s.Ready() && s.n == 0 && s.Using({}, {}) && s.V() == s.D() == fs.disk
    requires var e := ImageAt(fs.sb, |fs.inodes|, fs.disk, ops);
             e.ok && forall x :: x in SectorList(e.log) ==> x < s.l.start
    modifies fs, s, s.cache
    ensures s.Ready() && |s.cache.bufs| == |old(s.cache.bufs)|
    ensures var e := ImageAt(fs.sb, |old(fs.inodes)|, old(fs.disk), ops);
            && stop == HaltOf(RunImage(s.l, |s.cache.bufs|, e))
            && (stop.None? <==> EndingOf(s.l, |s.cache.bufs|, e).Commits?)
    ensures stop.None? ==> Mounted(fs, s.l) && s.n == 0 && s.Using({}, {}) && s.V() == s.D() == fs.disk
    ensures stop.None? ==> fs.View() == FlatRun(old(fs.View()), ops, |ops|) && |fs.inodes| == |old(fs.inodes)|
    ensures stop.Some? ==> Log.Clean(s.l, s.D()) && Log.SameHomes(s.l, Log.Recovered(s.l, s.D()), old(fs.disk))
  {
    var e := ImageAt(fs.sb, |fs.inodes|, fs.disk, ops);
    ghost var d, o := fs.disk, fs.owner;
    CallInMemory(fs, ops);
    CallHome(s.l, fs.sb, o, e);
    var seen;
    stop, seen := s.RunTransaction(e.trail, e.log);
    Endings(s.l, |s.cache.bufs|, e);
    if stop.None? {
      TakenBelow(s.l, o, fs.owner, e.log);
      Reread(fs, s.l, DiskOf(s.cache.disk, s.dev, s.l.start + s.l.size));
    } else {
      Log.CrashBeforeHeader(s.l, d, e.log, Passing(s.l, |s.cache.bufs|, e));
    }
  }

  lemma Endings(l: Log.Layout, nbuf: nat, e: Image)
    requires Agrees(e) && e.ok
    ensures HaltOf(RunImage(l, nbuf, e)).None? <==> EndingOf(l, nbuf, e).Commits?
    ensures |RunImage(l, nbuf, e).t| == Passing(l, nbuf, e)
  {
  }
}

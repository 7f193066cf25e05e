/** log.c as code: the in-memory header, and the sector writes each call issues. */
module LogCode {
  import opened Blocks
  import opened Log

  /** struct log and the disk below it.  `writes` records every sector write in order. */
  class TransactionLog {
    const l: Layout
    var disk: Disk
    var busy: bool
    var n: nat
    var sector: seq<nat>
    ghost var writes: seq<Write>

    ghost predicate Valid()
      reads this
    {
      Fits(l, disk) && |sector| == LOGSIZE && n <= LOGSIZE && Loggable(l, sector[..n])
    }

    /** A boot: nothing of the in-memory header survives, and initlog recovers. */
    constructor Boot(l: Layout, disk: Disk)
      requires ValidImage(l, disk)
      ensures Valid() && !busy && n == 0 && this.l == l
      ensures this.disk == Recovered(l, disk) && writes == RecoveryWrites(l, disk)
      ensures Clean(l, this.disk)
    {
      this.l, this.disk, busy, n, sector, writes := l, disk, false, 0, Repeat(0, LOGSIZE), [];
      new;
      RecoverFromLog();
    }

    /** One bwrite of a buffer holding `data`. */
    method DiskWrite(s: nat, data: Block)
      requires s < |disk|
      modifies this`disk, this`writes
      ensures disk == old(disk)[s := data]
      ensures writes == old(writes) + [Write(s, data)]
    {
      disk := disk[s := data];
      writes := writes + [Write(s, data)];
    }

    method InstallTrans()
      requires Valid()
      modifies this`disk, this`writes
      ensures Valid()
      ensures writes == old(writes) + InstallWrites(l, old(disk), sector[..n])
      ensures disk == Installed(l, old(disk), sector[..n])
      ensures SameLog(l, disk, old(disk))
    {
      ghost var ws := InstallWrites(l, disk, sector[..n]);
      for tail := 0 to n
        invariant writes == old(writes) + ws[..tail]
        invariant disk == Apply(old(disk), ws, tail)
      {
        InstallKeepsLog(l, old(disk), sector[..n], tail);
        assert ws[..tail + 1] == ws[..tail] + [ws[tail]];
        DiskWrite(sector[tail], disk[l.start + tail + 1]);
      }
      InstallKeepsLog(l, old(disk), sector[..n], n);
      assert ws[..n] == ws;
    }

    method ReadHead()
      requires Valid() && ValidImage(l, disk)
      modifies this`n, this`sector
      ensures Valid() && sector[..n] == Header(l, disk)
    {
      var hb := disk[l.start];
      n := Word(hb, 0);
      for i := 0 to n
        invariant n == Word(hb, 0) && |sector| == LOGSIZE
        invariant sector[..i] == HeaderSectors(hb, i)
      {
        sector := sector[i := Word(hb, i + 1)];
        assert sector[..i + 1] == sector[..i] + [Word(hb, i + 1)];
      }
    }

    method WriteHead()
      requires Valid()
      modifies this`disk, this`writes
      ensures Valid()
      ensures disk == WithHeader(l, old(disk), sector[..n])
      ensures writes == old(writes) + [Write(l.start, disk[l.start])]
    {
      var hb := SetWord(disk[l.start], 0, n);
      for i := 0 to n
        invariant hb == HeaderBlock(disk[l.start], sector[..n], i)
      {
        hb := SetWord(hb, i + 1, sector[i]);
      }
      DiskWrite(l.start, hb);
    }

    /** Installs the log and clears the header: the tail shared by recovery and commit. */
    method InstallAndClear()
      requires Valid() && ValidImage(l, disk) && sector[..n] == Header(l, disk)
      modifies this`disk, this`writes, this`n
      ensures Valid() && n == 0
      ensures writes == old(writes) + RecoveryWrites(l, old(disk))
      ensures disk == Recovered(l, old(disk)) && Clean(l, disk)
    {
      RecoveredIs(l, disk);
      InstallTrans();
      n := 0;
      WriteHead();
    }

    method RecoverFromLog()
      requires Valid() && ValidImage(l, disk)
      modifies this`disk, this`writes, this`n, this`sector
      ensures Valid() && n == 0
      ensures writes == old(writes) + RecoveryWrites(l, old(disk))
      ensures disk == Recovered(l, old(disk)) && Clean(l, disk)
    {
      ReadHead();
      InstallAndClear();
    }

    /** The wait for `log.busy` to clear is over when this runs. */
    method BeginTrans()
      requires !busy
      modifies this`busy
      ensures busy
    {
      busy := true;
    }

    /** log_write; `ok` is false where the code panics.  It does not test whether the sector is one of the
        log's own, which no commit could install. */
    method LogWrite(b: Write) returns (ok: bool)
      requires Valid()
      modifies this`disk, this`writes, this`n, this`sector
      ensures n <= LOGSIZE == |sector| && Fits(l, disk) && (!ok || b.sector < l.start ==> Valid())
      ensures ok == (busy && old(n) < Capacity(l))
      ensures !ok ==> disk == old(disk) && writes == old(writes) && sector[..n] == old(sector[..n])
      ensures ok ==> sector[..n] == Absorb(old(sector[..n]), b.sector)
      ensures ok ==> var s := l.start + 1 + Slot(old(sector[..n]), b.sector);
                     && s < |disk| && disk == old(disk)[s := b.data]
                     && writes == old(writes) + [Write(s, b.data)]
    {
      if n >= LOGSIZE || n >= l.size - 1 || !busy {
        return false;
      }
      ghost var h := sector[..n];
      var i := 0;
      while i < n && sector[i] != b.sector
        invariant 0 <= i <= n
        invariant forall j :: 0 <= j < i ==> h[j] != b.sector
      {
        i := i + 1;
      }
      assert i == Slot(h, b.sector);
      sector := sector[i := b.sector];
      DiskWrite(l.start + i + 1, b.data);
      if i == n {
        n := n + 1;
        assert b.sector !in h;
        assert sector[..n] == h + [b.sector];
      } else {
        assert h[i] == b.sector && sector[..n] == h;
      }
      ok := true;
    }

    method CommitTrans()
      requires Valid() && busy
      modifies this`disk, this`writes, this`n, this`busy
      ensures Valid() && !busy && n == 0
      ensures var cs := CommitPhase(l, old(disk), old(sector[..n]));
              writes == old(writes) + cs && disk == Apply(old(disk), cs, |cs|)
    {
      if n > 0 {
        WriteInstallClear();
      }
      busy := false;
    }

    method WriteInstallClear()
      requires Valid() && n > 0
      modifies this`disk, this`writes, this`n
      ensures Valid() && n == 0
      ensures var cs := CommitPhase(l, old(disk), old(sector[..n]));
              writes == old(writes) + cs && disk == Apply(old(disk), cs, |cs|)
    {
      ghost var h := sector[..n];
      CommitParts(l, disk, h);
      WriteHead();
      InstallAndClear();
    }

    method LogWrites(t: Txn)
      requires Valid() && busy && n == 0 && TxnOk(l, t, |t|)
      modifies this`disk, this`writes, this`n, this`sector
      ensures Valid() && sector[..n] == HeaderAfter(t, |t|)
      ensures writes == old(writes) + LogPhase(l, t, |t|)
      ensures disk == LogDisk(l, old(disk), t, |t|)
    {
      for i := 0 to |t|
        invariant Valid() && sector[..n] == HeaderAfter(t, i)
        invariant writes == old(writes) + LogPhase(l, t, i)
        invariant disk == LogDisk(l, old(disk), t, i)
      {
        TxnOkPrefix(l, t, i + 1, |t|);
        var ok := LogWrite(t[i]);
        LogDiskStep(l, old(disk), t, i + 1);
      }
    }

    /** A whole system call's transaction: it issues the writes of its two phases
        (Log.TxnWrites), leaves the log clean, and performs exactly its home writes. */
    method RunTransaction(t: Txn)
      requires Valid() && !busy && n == 0 && Clean(l, disk) && TxnOk(l, t, |t|)
      modifies this
      ensures Valid() && !busy && n == 0 && Clean(l, disk)
      ensures var e, h := LogDisk(l, old(disk), t, |t|), HeaderAfter(t, |t|);
              && Fits(l, e) && Loggable(l, h)
              && writes == old(writes) + LogPhase(l, t, |t|) + CommitPhase(l, e, h)
      ensures SameHomes(l, disk, Apply(old(disk), t, |t|))
    {
      BeginTrans();
      LogWrites(t);
      CommitTrans();
      PhasesAreClean(l, old(disk), t);
    }
  }
}

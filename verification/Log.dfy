/** The physical redo log of log.c.

    The disk is a sequence of sectors and every sector write is one atomic step.  A crash
    may fall between any two writes, also between the writes of a recovery.  The functions
    say which writes each call issues (module LogCode proves the code against them); the
    lemmas say what a crash after any number of them leaves behind. */
module Log {
  import opened Blocks
  import opened Counting

  const LOGSIZE := 10

  datatype Write = Write(sector: nat, data: Block)

  /** The writes one system call hands to log_write between begin_trans and commit_trans. */
  type Txn = seq<Write>

  /** log.start and log.size: the log occupies the last `size` sectors of the disk. */
  datatype Layout = Layout(start: nat, size: nat)

  /** How many sectors log_write takes. */
  function Capacity(l: Layout): int {
    if l.size - 1 < LOGSIZE then l.size - 1 else LOGSIZE
  }

  /** log_write's test. */
  lemma CapacityIs(l: Layout, n: nat)
    ensures n >= Capacity(l) <==> n >= LOGSIZE || n >= l.size - 1
  {
  }

  // ----- Writes -----

  /** The disk after the first `k` of the writes `ws`. */
  function Apply(d: Disk, ws: seq<Write>, k: nat): (r: Disk)
    requires k <= |ws|
    ensures |r| == |d|
  {
    if k == 0 then d else
      var e := Apply(d, ws, k - 1);
      var w := ws[k - 1];
      if w.sector < |e| then e[w.sector := w.data] else e
  }

  lemma {:induction false} ApplyFirst(d: Disk, a: seq<Write>, b: seq<Write>, k: nat)
    requires k <= |a|
    ensures Apply(d, a + b, k) == Apply(d, a, k)
  {
    if k > 0 {
      ApplyFirst(d, a, b, k - 1);
    }
  }

  lemma {:induction false} ApplyThen(d: Disk, a: seq<Write>, b: seq<Write>, k: nat)
    requires k <= |b|
    ensures Apply(d, a + b, |a| + k) == Apply(Apply(d, a, |a|), b, k)
  {
    if k == 0 {
      ApplyFirst(d, a, b, |a|);
    } else {
      ApplyThen(d, a, b, k - 1);
      assert (a + b)[|a| + k - 1] == b[k - 1];
    }
  }

  /** One of the first `k` writes goes to sector `x`. */
  predicate Writes(ws: seq<Write>, k: nat, x: nat)
    requires k <= |ws|
  {
    exists i :: 0 <= i < k && ws[i].sector == x
  }

  /** A written sector ends up the same whatever it held before; any other is kept. */
  lemma {:induction false} ApplyAt(d: Disk, e: Disk, ws: seq<Write>, k: nat, x: nat)
    requires |d| == |e| && x < |d| && k <= |ws|
    ensures Writes(ws, k, x) ==> Apply(d, ws, k)[x] == Apply(e, ws, k)[x]
    ensures !Writes(ws, k, x) ==> Apply(d, ws, k)[x] == d[x]
  {
    if k > 0 {
      ApplyAt(d, e, ws, k - 1, x);
      if ws[k - 1].sector != x && Writes(ws, k, x) {
        assert Writes(ws, k - 1, x);
      }
    }
  }

  /** Replaying a write sequence over a partly replayed one changes nothing. */
  lemma Replay(d: Disk, ws: seq<Write>, k: nat)
    requires k <= |ws|
    ensures Apply(Apply(d, ws, k), ws, |ws|) == Apply(d, ws, |ws|)
  {
    var e := Apply(d, ws, k);
    forall x | 0 <= x < |d|
      ensures Apply(e, ws, |ws|)[x] == Apply(d, ws, |ws|)[x]
    {
      ApplyAt(d, e, ws, |ws|, x);
      ApplyAt(e, d, ws, |ws|, x);
      ApplyAt(d, d, ws, k, x);
    }
  }

  /** Writes to distinct sectors each survive. */
  lemma {:induction false} ApplyDistinct(d: Disk, ws: seq<Write>, k: nat, i: nat)
    requires i < k <= |ws| && ws[i].sector < |d|
    requires forall j :: i < j < k ==> ws[j].sector != ws[i].sector
    ensures Apply(d, ws, k)[ws[i].sector] == ws[i].data
  {
    if i < k - 1 {
      ApplyDistinct(d, ws, k - 1, i);
    }
  }

  // ----- The on-disk header -----

  predicate Fits(l: Layout, d: Disk) {
    1 <= l.size && |d| == l.start + l.size
  }

  function HeaderCount(l: Layout, d: Disk): nat
    requires Fits(l, d)
  {
    Word(d[l.start], 0)
  }

  /** The sector numbers read_head finds. */
  function Header(l: Layout, d: Disk): (ss: seq<nat>)
    requires Fits(l, d) && HeaderCount(l, d) <= LOGSIZE
    ensures |ss| == HeaderCount(l, d)
  {
    HeaderSectors(d[l.start], HeaderCount(l, d))
  }

  function HeaderSectors(b: Block, k: nat): (ss: seq<nat>)
    requires k <= LOGSIZE
    ensures |ss| == k && forall i :: 0 <= i < k ==> ss[i] == Word(b, i + 1)
  {
    if k == 0 then [] else HeaderSectors(b, k - 1) + [Word(b, k)]
  }

  /** Sectors a log of this layout can hold: few enough, and outside the log. */
  predicate Loggable(l: Layout, h: seq<nat>) {
    |h| <= Capacity(l) && forall i :: 0 <= i < |h| ==> h[i] < l.start
  }

  /** An image that recovery can read. */
  predicate ValidImage(l: Layout, d: Disk) {
    Fits(l, d) && HeaderCount(l, d) <= LOGSIZE && Loggable(l, Header(l, d))
  }

  /** No committed transaction waits in the log. */
  predicate Clean(l: Layout, d: Disk) {
    ValidImage(l, d) && HeaderCount(l, d) == 0
  }

  predicate SameHomes(l: Layout, d: Disk, e: Disk) {
    l.start <= |d| == |e| && d[..l.start] == e[..l.start]
  }

  predicate SameLog(l: Layout, d: Disk, e: Disk) {
    |d| == |e| && forall x :: l.start <= x < |d| ==> d[x] == e[x]
  }

  /** The header block that write_head builds over `b`: it stores n and n sector numbers. */
  function HeaderBlock(b: Block, ss: seq<nat>, k: nat): (r: Block)
    requires k <= |ss| <= LOGSIZE
    ensures Word(r, 0) == |ss|
    ensures forall i :: 0 <= i < k ==> Word(r, i + 1) == ss[i]
  {
    if k == 0 then SetWord(b, 0, |ss|) else SetWord(HeaderBlock(b, ss, k - 1), k, ss[k - 1])
  }

  function WithHeader(l: Layout, d: Disk, h: seq<nat>): (r: Disk)
    requires Fits(l, d) && Loggable(l, h)
    ensures ValidImage(l, r) && Header(l, r) == h && SameHomes(l, r, d)
    ensures forall x :: l.start < x < |d| ==> r[x] == d[x]
  {
    var r := d[l.start := HeaderBlock(d[l.start], h, |h|)];
    assert Header(l, r) == h;
    r
  }

  // ----- Recovery -----

  /** install_trans: copy log block i to the home sector it belongs to. */
  function InstallWrites(l: Layout, d: Disk, h: seq<nat>): (ws: seq<Write>)
    requires Fits(l, d) && Loggable(l, h)
    ensures |ws| == |h|
    ensures forall i :: 0 <= i < |h| ==> ws[i] == Write(h[i], d[l.start + 1 + i])
  {
    InstallFirst(l, d, h, |h|)
  }

  function InstallFirst(l: Layout, d: Disk, h: seq<nat>, k: nat): (ws: seq<Write>)
    requires Fits(l, d) && Loggable(l, h) && k <= |h|
    ensures |ws| == k
    ensures forall i :: 0 <= i < k ==> ws[i] == Write(h[i], d[l.start + 1 + i])
  {
    if k == 0 then [] else InstallFirst(l, d, h, k - 1) + [Write(h[k - 1], d[l.start + k])]
  }

  function Installed(l: Layout, d: Disk, h: seq<nat>): Disk
    requires Fits(l, d) && Loggable(l, h)
  {
    Apply(d, InstallWrites(l, d, h), |h|)
  }

  /** recover_from_log: install, then clear the header. */
  function RecoveryWrites(l: Layout, d: Disk): (ws: seq<Write>)
    requires ValidImage(l, d)
    ensures |ws| == HeaderCount(l, d) + 1
  {
    InstallWrites(l, d, Header(l, d)) + [Write(l.start, SetWord(d[l.start], 0, 0))]
  }

  function Recovered(l: Layout, d: Disk): Disk
    requires ValidImage(l, d)
  {
    Apply(d, RecoveryWrites(l, d), |RecoveryWrites(l, d)|)
  }

  /** Installing writes home sectors only. */
  lemma InstallKeepsLog(l: Layout, d: Disk, h: seq<nat>, k: nat)
    requires Fits(l, d) && Loggable(l, h) && k <= |h|
    ensures SameLog(l, Apply(d, InstallWrites(l, d, h), k), d)
  {
    forall x | l.start <= x < |d|
      ensures Apply(d, InstallWrites(l, d, h), k)[x] == d[x]
    {
      ApplyAt(d, d, InstallWrites(l, d, h), k, x);
    }
  }

  /** What recovery does to an image: homes receive the log blocks, the header count is 0. */
  lemma RecoveredIs(l: Layout, d: Disk)
    requires ValidImage(l, d)
    ensures Recovered(l, d) == Installed(l, d, Header(l, d))[l.start := SetWord(d[l.start], 0, 0)]
    ensures Clean(l, Recovered(l, d))
    ensures SameHomes(l, Recovered(l, d), Installed(l, d, Header(l, d)))
  {
    var ws := InstallWrites(l, d, Header(l, d));
    ApplyFirst(d, ws, [Write(l.start, SetWord(d[l.start], 0, 0))], |ws|);
  }

  /** A crash after any number of recovery writes leaves an image from which recovery
      reaches the same home sectors. */
  lemma CrashInRecovery(l: Layout, d: Disk, k: nat)
    requires ValidImage(l, d) && k <= |RecoveryWrites(l, d)|
    ensures ValidImage(l, Apply(d, RecoveryWrites(l, d), k))
    ensures SameHomes(l, Recovered(l, Apply(d, RecoveryWrites(l, d), k)), Recovered(l, d))
  {
    RecoveredIs(l, d);
    if k == |RecoveryWrites(l, d)| {
      CleanRecovers(l, Recovered(l, d));
    } else {
      CrashInInstall(l, d, k);
      ApplyFirst(d, InstallWrites(l, d, Header(l, d)), [Write(l.start, SetWord(d[l.start], 0, 0))], k);
    }
  }

  lemma CrashInInstall(l: Layout, d: Disk, k: nat)
    requires ValidImage(l, d) && k <= HeaderCount(l, d)
    ensures var e := Apply(d, InstallWrites(l, d, Header(l, d)), k);
            ValidImage(l, e) && SameHomes(l, Recovered(l, e), Recovered(l, d))
  {
    var h := Header(l, d);
    var e := Apply(d, InstallWrites(l, d, h), k);
    InstallKeepsLog(l, d, h, k);
    assert Header(l, e) == h;
    assert InstallWrites(l, e, h) == InstallWrites(l, d, h);
    Replay(d, InstallWrites(l, d, h), k);
    RecoveredIs(l, d);
    RecoveredIs(l, e);
  }

  /** Recovering a clean image changes no home sector. */
  lemma CleanRecovers(l: Layout, d: Disk)
    requires Clean(l, d)
    ensures SameHomes(l, Recovered(l, d), d)
  {
    RecoveredIs(l, d);
  }

  // ----- One transaction -----

  /** log_write reuses the slot of a sector that is already logged. */
  function Absorb(h: seq<nat>, s: nat): seq<nat> {
    if s in h then h else h + [s]
  }

  /** The in-memory header after the first `k` writes of `t`. */
  function HeaderAfter(t: Txn, k: nat): seq<nat>
    requires k <= |t|
  {
    if k == 0 then [] else Absorb(HeaderAfter(t, k - 1), t[k - 1].sector)
  }

  /** The slot log_write's search loop stops at. */
  function Slot(h: seq<nat>, s: nat): (i: nat)
    ensures i <= |h|
    ensures forall j :: 0 <= j < i ==> h[j] != s
    ensures i < |h| ==> h[i] == s
  {
    if h == [] then 0 else if h[0] == s then 0 else 1 + Slot(h[1..], s)
  }

  /** None of the first `k` log_writes of `t` panics and each is for a home sector. */
  predicate TxnOk(l: Layout, t: Txn, k: nat)
    requires k <= |t|
  {
    k > 0 ==> TxnOk(l, t, k - 1) && t[k - 1].sector < l.start && |HeaderAfter(t, k - 1)| < Capacity(l)
  }

  lemma {:induction false} TxnOkPrefix(l: Layout, t: Txn, k: nat, n: nat)
    requires k <= n <= |t| && TxnOk(l, t, n)
    ensures TxnOk(l, t, k)
  {
    if k < n {
      TxnOkPrefix(l, t, k, n - 1);
    }
  }

  lemma {:induction false} HeaderSlice(t: Txn, n: nat, k: nat)
    requires k <= n <= |t|
    ensures HeaderAfter(t[..n], k) == HeaderAfter(t, k)
  {
    if k > 0 {
      HeaderSlice(t, n, k - 1);
    }
  }

  /** The first log_writes on their own. */
  lemma {:induction false} TxnOkSlice(l: Layout, t: Txn, n: nat, k: nat)
    requires k <= n <= |t| && TxnOk(l, t, k)
    ensures TxnOk(l, t[..n], k)
  {
    if k > 0 {
      TxnOkSlice(l, t, n, k - 1);
      HeaderSlice(t, n, k - 1);
    }
  }

  /** log_write issues one write each, to the slot of its sector. */
  function LogPhase(l: Layout, t: Txn, k: nat): (ws: seq<Write>)
    requires k <= |t|
    ensures |ws| == k
  {
    if k == 0 then [] else
      var w := t[k - 1];
      LogPhase(l, t, k - 1) + [Write(l.start + 1 + Slot(HeaderAfter(t, k - 1), w.sector), w.data)]
  }

  /** The disk after the first `k` log_writes. */
  function LogDisk(l: Layout, d: Disk, t: Txn, k: nat): (r: Disk)
    requires k <= |t|
    ensures |r| == |d|
  {
    Apply(d, LogPhase(l, t, k), k)
  }

  lemma LogDiskStep(l: Layout, d: Disk, t: Txn, k: nat)
    requires 0 < k <= |t| && l.start + 1 + Slot(HeaderAfter(t, k - 1), t[k - 1].sector) < |d|
    ensures LogDisk(l, d, t, k) ==
            LogDisk(l, d, t, k - 1)[l.start + 1 + Slot(HeaderAfter(t, k - 1), t[k - 1].sector) := t[k - 1].data]
  {
    var w := t[k - 1];
    ApplyFirst(d, LogPhase(l, t, k - 1),
               [Write(l.start + 1 + Slot(HeaderAfter(t, k - 1), w.sector), w.data)], k - 1);
  }

  lemma {:induction false} LogDiskPrefix(l: Layout, d: Disk, t: Txn, k: nat, n: nat)
    requires k <= n <= |t|
    ensures Apply(d, LogPhase(l, t, n), k) == LogDisk(l, d, t, k)
  {
    if k < n {
      LogDiskPrefix(l, d, t, k, n - 1);
      var w := t[n - 1];
      ApplyFirst(d, LogPhase(l, t, n - 1),
                 [Write(l.start + 1 + Slot(HeaderAfter(t, n - 1), w.sector), w.data)], k);
    }
  }

  /** commit_trans: the header, the home sectors, the cleared header. */
  function CommitPhase(l: Layout, d: Disk, h: seq<nat>): (ws: seq<Write>)
    requires Fits(l, d) && Loggable(l, h)
    ensures h != [] ==> |ws| == |h| + 2
  {
    if h == [] then [] else
      var g := WithHeader(l, d, h);
      [Write(l.start, g[l.start])] + RecoveryWrites(l, g)
  }

  /** log_write finds the one slot of a sector. */
  lemma SlotAbsorb(h: seq<nat>, s: nat)
    requires Distinct(h)
    ensures var h' := Absorb(h, s); var slot := Slot(h, s);
            && slot < |h'| <= |h| + 1 && h'[slot] == s
            && (forall i :: 0 <= i < |h'| && i != slot ==> i < |h| && h'[i] == h[i] && h[i] != s)
            && Distinct(h')
            && (forall x :: x in h' <==> x in h || x == s)
  {
    if s in h {
      var k :| 0 <= k < |h| && h[k] == s;
    }
  }

  predicate SlotsHold(l: Layout, h: seq<nat>, e: Disk, f: Disk)
    requires |e| == |f| == l.start + l.size && Loggable(l, h)
  {
    forall i :: 0 <= i < |h| ==> e[l.start + 1 + i] == f[h[i]]
  }

  predicate OthersKept(l: Layout, d: Disk, h: seq<nat>, f: Disk)
    requires l.start <= |d| == |f|
  {
    forall x :: 0 <= x < l.start && x !in h ==> f[x] == d[x]
  }

  /** `e` is the disk `d` after a log phase with header `h`, and `f` is the disk it stands
      for: slot i of `e` holds the newest data of h[i] and the homes are as before. */
  predicate Holds(l: Layout, d: Disk, h: seq<nat>, e: Disk, f: Disk) {
    && Fits(l, d) && |e| == |f| == |d|
    && Loggable(l, h) && Distinct(h)
    && SameHomes(l, d, e)
    && SlotsHold(l, h, e, f)
    && OthersKept(l, d, h, f)
  }

  lemma SlotsHoldStep(l: Layout, h: seq<nat>, e: Disk, f: Disk, w: Write)
    requires |e| == |f| == l.start + l.size && Loggable(l, h)
    requires |h| < Capacity(l) && w.sector < l.start && Distinct(h) && SlotsHold(l, h, e, f)
    ensures Loggable(l, Absorb(h, w.sector)) && Distinct(Absorb(h, w.sector))
    ensures SlotsHold(l, Absorb(h, w.sector), e[l.start + 1 + Slot(h, w.sector) := w.data], f[w.sector := w.data])
  {
    SlotAbsorb(h, w.sector);
  }

  lemma HoldsStep(l: Layout, d: Disk, h: seq<nat>, e: Disk, f: Disk, w: Write)
    requires Holds(l, d, h, e, f) && |h| < Capacity(l) && w.sector < l.start
    ensures Holds(l, d, Absorb(h, w.sector), e[l.start + 1 + Slot(h, w.sector) := w.data], f[w.sector := w.data])
  {
    SlotsHoldStep(l, h, e, f, w);
    assert OthersKept(l, d, Absorb(h, w.sector), f[w.sector := w.data]);
  }

  lemma {:induction false} LogPhaseHolds(l: Layout, d: Disk, t: Txn, k: nat)
    requires k <= |t| && TxnOk(l, t, k) && Fits(l, d)
    ensures Holds(l, d, HeaderAfter(t, k), LogDisk(l, d, t, k), Apply(d, t, k))
    ensures LogDisk(l, d, t, k)[l.start] == d[l.start]
    ensures k > 0 ==> HeaderAfter(t, k) != []
  {
    if k > 0 {
      LogPhaseHolds(l, d, t, k - 1);
      HoldsStep(l, d, HeaderAfter(t, k - 1), LogDisk(l, d, t, k - 1), Apply(d, t, k - 1), t[k - 1]);
      LogDiskStep(l, d, t, k);
    }
  }

  /** After installing, each logged sector holds its log block and the others are kept. */
  lemma InstalledAt(l: Layout, d: Disk, h: seq<nat>, x: nat)
    requires Fits(l, d) && Loggable(l, h) && Distinct(h) && x < l.start
    ensures x in h ==> exists i :: 0 <= i < |h| && h[i] == x && Installed(l, d, h)[x] == d[l.start + 1 + i]
    ensures x !in h ==> Installed(l, d, h)[x] == d[x]
  {
    var ws := InstallWrites(l, d, h);
    if x in h {
      var i :| 0 <= i < |h| && h[i] == x;
      ApplyDistinct(d, ws, |h|, i);
      assert ws[i] == Write(x, d[l.start + 1 + i]);
    } else {
      assert forall i :: 0 <= i < |h| ==> ws[i].sector == h[i];
      ApplyAt(d, d, ws, |h|, x);
    }
  }

  /** Once the header is written, recovery yields the homes the log stands for. */
  lemma RecoveryRealizes(l: Layout, d: Disk, h: seq<nat>, e: Disk, f: Disk)
    requires Holds(l, d, h, e, f)
    ensures SameHomes(l, Recovered(l, WithHeader(l, e, h)), f)
  {
    var g := WithHeader(l, e, h);
    RecoveredIs(l, g);
    forall x | 0 <= x < l.start
      ensures Installed(l, g, h)[x] == f[x]
    {
      InstalledAt(l, g, h, x);
    }
  }

  /** A commit is one header write followed by the writes a recovery would issue. */
  lemma CommitIsRecovery(l: Layout, e: Disk, h: seq<nat>, k: nat)
    requires Fits(l, e) && Loggable(l, h) && h != [] && k <= |h| + 1
    ensures var g := WithHeader(l, e, h);
            Apply(e, CommitPhase(l, e, h), 1 + k) == Apply(g, RecoveryWrites(l, g), k)
  {
    var g := WithHeader(l, e, h);
    var first := [Write(l.start, g[l.start])];
    ApplyThen(e, first, RecoveryWrites(l, g), k);
    assert Apply(e, first, 0) == e;
  }

  /** commit_trans writes the header and then does what recovery does. */
  lemma CommitParts(l: Layout, e: Disk, h: seq<nat>)
    requires Fits(l, e) && Loggable(l, h) && h != []
    ensures var g, cs := WithHeader(l, e, h), CommitPhase(l, e, h);
            && ValidImage(l, g) && Header(l, g) == h && cs == [Write(l.start, g[l.start])] + RecoveryWrites(l, g)
            && Apply(e, cs, |cs|) == Recovered(l, g)
  {
    CommitIsRecovery(l, e, h, |h| + 1);
  }

  lemma CrashRecovers(l: Layout, g: Disk, f: Disk, k: nat)
    requires ValidImage(l, g) && SameHomes(l, Recovered(l, g), f) && k <= |RecoveryWrites(l, g)|
    ensures var c := Apply(g, RecoveryWrites(l, g), k); ValidImage(l, c) && SameHomes(l, Recovered(l, c), f)
  {
    CrashInRecovery(l, g, k);
  }

  lemma CrashAfterHeader(l: Layout, d: Disk, h: seq<nat>, e: Disk, f: Disk, k: nat)
    requires Holds(l, d, h, e, f) && h != [] && 1 <= k <= |CommitPhase(l, e, h)|
    ensures var c := Apply(e, CommitPhase(l, e, h), k);
            ValidImage(l, c) && SameHomes(l, Recovered(l, c), f)
  {
    CommitIsRecovery(l, e, h, k - 1);
    RecoveryRealizes(l, d, h, e, f);
    CrashRecovers(l, WithHeader(l, e, h), f, k - 1);
  }

  lemma LogFits(l: Layout, d: Disk, t: Txn)
    requires Fits(l, d) && TxnOk(l, t, |t|)
    ensures Fits(l, LogDisk(l, d, t, |t|)) && Loggable(l, HeaderAfter(t, |t|))
    ensures t != [] ==> HeaderAfter(t, |t|) != []
  {
    LogPhaseHolds(l, d, t, |t|);
  }

  function TxnWrites(l: Layout, d: Disk, t: Txn): seq<Write>
    requires TxnOk(l, t, |t|) && Fits(l, d)
  {
    LogFits(l, d, t);
    LogPhase(l, t, |t|) + CommitPhase(l, LogDisk(l, d, t, |t|), HeaderAfter(t, |t|))
  }

  /** The commit point: whether the first k writes of a transaction contain the header write. */
  predicate ReachedHeader(t: Txn, k: nat) {
    t != [] && k > |t|
  }

  /** Atomicity at every crash point: recovery finds all of the transaction when its
      header was written, and none of it otherwise. */
  lemma CrashInTxn(l: Layout, d: Disk, t: Txn, k: nat)
    requires Clean(l, d) && TxnOk(l, t, |t|) && k <= |TxnWrites(l, d, t)|
    ensures ValidImage(l, Apply(d, TxnWrites(l, d, t), k))
    ensures SameHomes(l, Recovered(l, Apply(d, TxnWrites(l, d, t), k)),
                      if ReachedHeader(t, k) then Apply(d, t, |t|) else d)
  {
    if k <= |t| {
      TxnOkPrefix(l, t, k, |t|);
      CrashBeforeHeader(l, d, t, k);
      TxnFirst(l, d, t, k);
    } else {
      CrashAfterLogging(l, d, t, k);
    }
  }

  lemma CrashAfterLogging(l: Layout, d: Disk, t: Txn, k: nat)
    requires Fits(l, d) && TxnOk(l, t, |t|) && |t| < k <= |TxnWrites(l, d, t)|
    ensures t != [] && ValidImage(l, Apply(d, TxnWrites(l, d, t), k))
    ensures SameHomes(l, Recovered(l, Apply(d, TxnWrites(l, d, t), k)), Apply(d, t, |t|))
  {
    TxnThen(l, d, t, k);
    LogPhaseHolds(l, d, t, |t|);
    CrashAfterHeader(l, d, HeaderAfter(t, |t|), LogDisk(l, d, t, |t|), Apply(d, t, |t|), k - |t|);
  }

  lemma TxnFirst(l: Layout, d: Disk, t: Txn, k: nat)
    requires TxnOk(l, t, |t|) && Fits(l, d) && k <= |t|
    ensures Apply(d, TxnWrites(l, d, t), k) == LogDisk(l, d, t, k)
  {
    LogFits(l, d, t);
    ApplyFirst(d, LogPhase(l, t, |t|), CommitPhase(l, LogDisk(l, d, t, |t|), HeaderAfter(t, |t|)), k);
    LogDiskPrefix(l, d, t, k, |t|);
  }

  lemma ApplyTail(d: Disk, a: seq<Write>, b: seq<Write>, ws: seq<Write>, k: nat)
    requires ws == a + b && |a| <= k <= |ws|
    ensures Apply(d, ws, k) == Apply(Apply(d, a, |a|), b, k - |a|)
  {
    ApplyThen(d, a, b, k - |a|);
  }

  lemma TxnThen(l: Layout, d: Disk, t: Txn, k: nat)
    requires Fits(l, d) && TxnOk(l, t, |t|) && |t| <= k <= |TxnWrites(l, d, t)|
    ensures var e, h := LogDisk(l, d, t, |t|), HeaderAfter(t, |t|);
            && Fits(l, e) && Loggable(l, h) && |t| + |CommitPhase(l, e, h)| == |TxnWrites(l, d, t)|
            && Apply(d, TxnWrites(l, d, t), k) == Apply(e, CommitPhase(l, e, h), k - |t|)
  {
    LogFits(l, d, t);
    var a, b := LogPhase(l, t, |t|), CommitPhase(l, LogDisk(l, d, t, |t|), HeaderAfter(t, |t|));
    ApplyTail(d, a, b, TxnWrites(l, d, t), k);
  }

  lemma CrashBeforeHeader(l: Layout, d: Disk, t: Txn, k: nat)
    requires Clean(l, d) && k <= |t| && TxnOk(l, t, k)
    ensures var e := LogDisk(l, d, t, k); Clean(l, e) && SameHomes(l, Recovered(l, e), d)
  {
    LogPhaseHolds(l, d, t, k);
    CleanRecovers(l, LogDisk(l, d, t, k));
  }

  /** A transaction whose commit_trans returned has cleared the log and reached its homes. */
  lemma CommittedIsClean(l: Layout, d: Disk, t: Txn)
    requires Clean(l, d) && TxnOk(l, t, |t|)
    ensures var ws := TxnWrites(l, d, t); var e := Apply(d, ws, |ws|);
            Clean(l, e) && SameHomes(l, e, Apply(d, t, |t|))
  {
    TxnThen(l, d, t, |TxnWrites(l, d, t)|);
    PhasesAreClean(l, d, t);
  }

  /** The same, phase by phase. */
  lemma PhasesAreClean(l: Layout, d: Disk, t: Txn)
    requires Clean(l, d) && TxnOk(l, t, |t|)
    ensures var e, h := LogDisk(l, d, t, |t|), HeaderAfter(t, |t|);
            && Fits(l, e) && Loggable(l, h)
            && TxnWrites(l, d, t) == LogPhase(l, t, |t|) + CommitPhase(l, e, h)
            && Clean(l, Apply(e, CommitPhase(l, e, h), |CommitPhase(l, e, h)|))
            && SameHomes(l, Apply(e, CommitPhase(l, e, h), |CommitPhase(l, e, h)|), Apply(d, t, |t|))
  {
    LogPhaseHolds(l, d, t, |t|);
    CommitRealizes(l, d, HeaderAfter(t, |t|), LogDisk(l, d, t, |t|), Apply(d, t, |t|));
  }

  lemma CommitRealizes(l: Layout, d: Disk, h: seq<nat>, e: Disk, f: Disk)
    requires Holds(l, d, h, e, f) && Clean(l, e)
    ensures var c := Apply(e, CommitPhase(l, e, h), |CommitPhase(l, e, h)|);
            Clean(l, c) && SameHomes(l, c, f)
  {
    if h != [] {
      CommitIsRecovery(l, e, h, |h| + 1);
      RecoveryRealizes(l, d, h, e, f);
      RecoveredIs(l, WithHeader(l, e, h));
    }
  }

  // ----- Whole runs -----

  /** What happens between two moments at which the log is idle: a transaction whose
      commit_trans returned, or a transaction cut off after `k` of its writes and followed
      by recoveries cut off after `retries[i]` of their writes and one that completes. */
  datatype Event =
    | Committed(txn: Txn)
    | Crashed(txn: Txn, k: nat, retries: seq<nat>)

  function AtMost(k: nat, n: nat): nat {
    if k <= n then k else n
  }

  function Retry(l: Layout, d: Disk, retries: seq<nat>): (r: Disk)
    requires ValidImage(l, d)
    ensures ValidImage(l, r) && SameHomes(l, Recovered(l, r), Recovered(l, d))
    decreases |retries|
  {
    if retries == [] then d else
      var rs := RecoveryWrites(l, d);
      CrashInRecovery(l, d, AtMost(retries[0], |rs|));
      Retry(l, Apply(d, rs, AtMost(retries[0], |rs|)), retries[1..])
  }

  function EventDisk(l: Layout, d: Disk, e: Event): (r: Disk)
    requires Clean(l, d) && TxnOk(l, e.txn, |e.txn|)
    ensures Clean(l, r)
    ensures SameHomes(l, r, if Survives(e) then Apply(d, e.txn, |e.txn|) else d)
  {
    var ws := TxnWrites(l, d, e.txn);
    match e
    case Committed(t) =>
      CommittedIsClean(l, d, t);
      Apply(d, ws, |ws|)
    case Crashed(t, k, retries) =>
      CrashInTxn(l, d, t, AtMost(k, |ws|));
      CommitLength(l, d, t);
      var at := Retry(l, Apply(d, ws, AtMost(k, |ws|)), retries);
      RecoveredIs(l, at);
      Recovered(l, at)
  }

  lemma CommitLength(l: Layout, d: Disk, t: Txn)
    requires TxnOk(l, t, |t|) && Fits(l, d)
    ensures t != [] ==> |TxnWrites(l, d, t)| > |t|
  {
    LogFits(l, d, t);
  }

  /** A committed transaction lasts; a cut-off one lasts exactly when its header write
      was issued. */
  predicate Survives(e: Event) {
    e.Committed? || ReachedHeader(e.txn, e.k)
  }

  /** The writes of the lasting transactions among the first `k` events, in order. */
  function Survivors(es: seq<Event>, k: nat): seq<Write>
    requires k <= |es|
  {
    if k == 0 then [] else
      Survivors(es, k - 1) + (if Survives(es[k - 1]) then es[k - 1].txn else [])
  }

  predicate EventsOk(l: Layout, es: seq<Event>) {
    forall i :: 0 <= i < |es| ==> TxnOk(l, es[i].txn, |es[i].txn|)
  }

  /** The disk after the first `k` events. */
  function RunDisk(l: Layout, d: Disk, es: seq<Event>, k: nat): (r: Disk)
    requires Clean(l, d) && EventsOk(l, es) && k <= |es|
    ensures Clean(l, r)
  {
    if k == 0 then d else EventDisk(l, RunDisk(l, d, es, k - 1), es[k - 1])
  }

  lemma {:induction false} ApplySameHomes(l: Layout, d: Disk, e: Disk, t: Txn, k: nat)
    requires k <= |t| && SameHomes(l, d, e)
    ensures SameHomes(l, Apply(d, t, k), Apply(e, t, k))
  {
    if k > 0 {
      ApplySameHomes(l, d, e, t, k - 1);
    }
  }

  /** Crash atomicity and durability over every run of transactions and crashes: the home
      sectors are those of the initial disk with the lasting transactions applied. */
  lemma {:induction false} CrashAtomicity(l: Layout, d: Disk, es: seq<Event>, k: nat)
    requires Clean(l, d) && EventsOk(l, es) && k <= |es|
    ensures var ws := Survivors(es, k); SameHomes(l, RunDisk(l, d, es, k), Apply(d, ws, |ws|))
  {
    if k > 0 {
      CrashAtomicity(l, d, es, k - 1);
      var mid := RunDisk(l, d, es, k - 1);
      var t := if Survives(es[k - 1]) then es[k - 1].txn else [];
      ApplyLasting(l, d, mid, Survivors(es, k - 1), t);
    }
  }

  lemma ApplyLasting(l: Layout, d: Disk, mid: Disk, ws: seq<Write>, t: Txn)
    requires SameHomes(l, mid, Apply(d, ws, |ws|))
    ensures SameHomes(l, Apply(mid, t, |t|), Apply(d, ws + t, |ws + t|))
  {
    ApplyThen(d, ws, t, |t|);
    ApplySameHomes(l, mid, Apply(d, ws, |ws|), t, |t|);
  }
}

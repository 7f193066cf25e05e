/** How the calls of fs.c use the buffer cache: breads and brelses are nested like brackets, and a
    log_write, which itself reads a sector of the log, comes between the two of its buffer.

    A buffer cannot be recycled while it is held or while its sector is in the log (log.c marks it
    dirty), so a call is stopped by bget when the sectors that are held or logged are as many as
    there are buffers. */
module Buffers {
  import opened Counting
  import opened Sealed
  import Log

  /** param.h */
  const NBUF := 10

  /** bread and brelse; bread, log_write, brelse; or bread, a trail of its own, perhaps log_write, brelse. */
  datatype Piece =
    | Read(x: nat)
    | Store(x: nat)
    | Under(x: nat, inner: Trail, put: bool)

  datatype Trail = Start | Then(before: Trail, last: Piece)

  /** The log_writes, in order. */
  function Puts(tr: Trail): seq<nat>
    decreases tr
  {
    if tr.Start? then [] else Puts(tr.before) + PutsOf(tr.last)
  }

  function PutsOf(p: Piece): seq<nat>
    decreases p
  {
    match p
    case Read(_) => []
    case Store(x) => [x]
    case Under(x, inner, put) => Puts(inner) + if put then [x] else []
  }

  // ----- The sectors in the log -----

  function SectorList(t: Log.Txn): seq<nat> {
    seq(|t|, i requires 0 <= i < |t| => t[i].sector)
  }

  lemma ListOf(t: Log.Txn, u: Log.Txn)
    ensures SectorList(t + u) == SectorList(t) + SectorList(u)
  {
  }

  /** The sectors of the first `k` writes. */
  function Sectors(t: Log.Txn, k: nat): set<nat>
    requires k <= |t|
  {
    if k == 0 then {} else Sectors(t, k - 1) + {t[k - 1].sector}
  }

  lemma {:induction false} SectorsWithin(t: Log.Txn, k: nat, s: set<nat>)
    requires k <= |t| && forall i :: 0 <= i < k ==> t[i].sector in s
    ensures Sectors(t, k) <= s
  {
    if k > 0 {
      SectorsWithin(t, k - 1, s);
    }
  }

  ghost predicate SameElements(h: seq<nat>, s: set<nat>) {
    forall x :: x in h <==> x in s
  }

  lemma AbsorbElements(h: seq<nat>, s: set<nat>, x: nat)
    requires SameElements(h, s) && |h| == |s|
    ensures SameElements(Log.Absorb(h, x), s + {x}) && |Log.Absorb(h, x)| == |s + {x}|
  {
    if x in h {
      assert s + {x} == s;
    }
  }

  /** The header in memory lists each sector once. */
  lemma {:induction false} HeaderElements(t: Log.Txn, k: nat)
    requires k <= |t|
    ensures SameElements(Log.HeaderAfter(t, k), Sectors(t, k)) && |Log.HeaderAfter(t, k)| == |Sectors(t, k)|
  {
    if k > 0 {
      HeaderElements(t, k - 1);
      AbsorbElements(Log.HeaderAfter(t, k - 1), Sectors(t, k - 1), t[k - 1].sector);
    }
  }

  lemma HeaderSize(t: Log.Txn, k: nat)
    requires k <= |t|
    ensures |Log.HeaderAfter(t, k)| == |Sectors(t, k)|
  {
    HeaderElements(t, k);
  }

  lemma {:induction false} SectorsListed(t: Log.Txn, k: nat)
    requires k <= |t|
    ensures Sectors(t, k) == Elements(SectorList(t)[..k])
  {
    if k > 0 {
      SectorsListed(t, k - 1);
      assert SectorList(t)[..k] == SectorList(t)[..k - 1] + [t[k - 1].sector];
    }
  }

  // ----- Running through -----

  /** Which panic: of log_write, of bget; or a sector of the log, which nothing tests for. */
  datatype Why = LogFull | NoBuffers | IntoLog

  /** The log_writes so far, and what has stopped the call if something has. */
  datatype Run = Through(t: seq<nat>) | Stuck(t: seq<nat>, why: Why)

  /** bread of sector `x` finds a buffer. */
  predicate Finds(nbuf: nat, t: seq<nat>, held: set<nat>, x: nat) {
    |Elements(t) + held + {x}| <= nbuf
  }

  /** bread of a sector of the log, which has no buffer yet. */
  predicate FindsSlot(nbuf: nat, t: seq<nat>, held: set<nat>) {
    |Elements(t) + held| < nbuf
  }

  /** log_write of `x`, which is held. */
  function LogRun(l: Log.Layout, nbuf: nat, t: seq<nat>, held: set<nat>, x: nat): Run {
    if |Elements(t)| >= Log.Capacity(l) then Stuck(t, LogFull)
    else if !FindsSlot(nbuf, t, held) then Stuck(t, NoBuffers)
    else if x >= l.start then Stuck(t, IntoLog)
    else Through(t + [x])
  }

  function RunOf(l: Log.Layout, nbuf: nat, t: seq<nat>, held: set<nat>, p: Piece): Run
    decreases p
  {
    if !Finds(nbuf, t, held, p.x) then Stuck(t, NoBuffers)
    else
      match p
      case Read(_) => Through(t)
      case Store(x) => LogRun(l, nbuf, t, held + {x}, x)
      case Under(x, inner, put) =>
        var r := RunAll(l, nbuf, t, held + {x}, inner);
        if r.Through? && put then LogRun(l, nbuf, r.t, held + {x}, x) else r
  }

  function RunAll(l: Log.Layout, nbuf: nat, t: seq<nat>, held: set<nat>, tr: Trail): Run
    decreases tr
  {
    if tr.Start? then Through(t)
    else
      var r := RunAll(l, nbuf, t, held, tr.before);
      if r.Through? then RunOf(l, nbuf, r.t, held, tr.last) else r
  }

  // ----- When nothing stops it -----

  /** The log takes these log_writes after the ones in `t`. */
  predicate Takes(l: Log.Layout, t: seq<nat>, xs: seq<nat>) {
    forall i :: 0 <= i < |xs| ==> xs[i] < l.start && |Elements(t + xs[..i])| < Log.Capacity(l)
  }

  lemma TakesConcat(l: Log.Layout, t: seq<nat>, a: seq<nat>, b: seq<nat>)
    ensures Takes(l, t, a + b) <==> Takes(l, t, a) && Takes(l, t + a, b)
  {
    forall i | 0 <= i < |a| ensures (a + b)[i] == a[i] && (a + b)[..i] == a[..i] {
    }
    forall i | 0 <= i < |b| ensures (a + b)[|a| + i] == b[i] && t + (a + b)[..|a| + i] == t + a + b[..i] {
    }
    if Takes(l, t, a + b) {
      forall i | 0 <= i < |b| ensures b[i] < l.start && |Elements(t + a + b[..i])| < Log.Capacity(l) {
        assert (a + b)[|a| + i] < l.start;
      }
    }
  }

  lemma OnePut(l: Log.Layout, t: seq<nat>, x: nat)
    ensures Takes(l, t, [x]) <==> |Elements(t)| < Log.Capacity(l) && x < l.start
  {
    assert t + [x][..0] == t;
  }

  /** That is what log_write tests. */
  lemma {:induction false} TakesOk(l: Log.Layout, t: Log.Txn, k: nat)
    requires k <= |t| && Takes(l, [], SectorList(t))
    ensures Log.TxnOk(l, t, k)
  {
    if k > 0 {
      TakesOk(l, t, k - 1);
      TakesAt(l, t, k - 1);
    }
  }

  lemma TakesAt(l: Log.Layout, t: Log.Txn, i: nat)
    requires i < |t| && Takes(l, [], SectorList(t))
    ensures t[i].sector < l.start && |Log.HeaderAfter(t, i)| < Log.Capacity(l)
  {
    var xs := SectorList(t);
    HeaderSize(t, i);
    SectorsListed(t, i);
    assert xs[i] < l.start;
    assert [] + xs[..i] == xs[..i];
  }

  /** There are buffers for the piece whatever the log takes. */
  predicate RoomOf(nbuf: nat, t: seq<nat>, held: set<nat>, p: Piece)
    decreases p
  {
    && Finds(nbuf, t, held, p.x)
    && match p
       case Read(_) => true
       case Store(x) => FindsSlot(nbuf, t, held + {x})
       case Under(x, inner, put) =>
         && Rooms(nbuf, t, held + {x}, inner)
         && (put ==> FindsSlot(nbuf, t + Puts(inner), held + {x}))
  }

  predicate Rooms(nbuf: nat, t: seq<nat>, held: set<nat>, tr: Trail)
    decreases tr
  {
    tr.Then? ==> Rooms(nbuf, t, held, tr.before) && RoomOf(nbuf, t + Puts(tr.before), held, tr.last)
  }

  /** A call goes through if and only if the log takes its log_writes and there are buffers for all of it. */
  lemma {:induction false} RunIff(l: Log.Layout, nbuf: nat, t: seq<nat>, held: set<nat>, tr: Trail)
    ensures var r := RunAll(l, nbuf, t, held, tr);
            && (r.Through? <==> Takes(l, t, Puts(tr)) && Rooms(nbuf, t, held, tr))
            && (r.Through? ==> r.t == t + Puts(tr))
    decreases tr
  {
    if tr.Start? {
      assert t + Puts(tr) == t;
    } else {
      var a, p := tr.before, tr.last;
      RunIff(l, nbuf, t, held, a);
      RunOfIff(l, nbuf, t + Puts(a), held, p);
      TakesConcat(l, t, Puts(a), PutsOf(p));
      assert t + Puts(a) + PutsOf(p) == t + Puts(tr);
    }
  }

  lemma {:induction false} RunOfIff(l: Log.Layout, nbuf: nat, t: seq<nat>, held: set<nat>, p: Piece)
    ensures var r := RunOf(l, nbuf, t, held, p);
            && (r.Through? <==> Takes(l, t, PutsOf(p)) && RoomOf(nbuf, t, held, p))
            && (r.Through? ==> r.t == t + PutsOf(p))
    decreases p
  {
    match p
    case Read(_) => assert t + [] == t;
    case Store(x) => OnePut(l, t, x);
    case Under(x, inner, put) =>
      RunIff(l, nbuf, t, held + {x}, inner);
      if put {
        TakesConcat(l, t, Puts(inner), [x]);
        OnePut(l, t + Puts(inner), x);
        assert t + Puts(inner) + [x] == t + (Puts(inner) + [x]);
      } else {
        assert Puts(inner) + [] == Puts(inner);
      }
  }

  // ----- The log_writes decide -----

  /** At every log_write the sectors logged so far and the held ones leave a buffer for the log's own. */
  predicate Slots(nbuf: nat, t: seq<nat>, held: set<nat>, tr: Trail)
    decreases tr
  {
    tr.Then? ==> Slots(nbuf, t, held, tr.before) && SlotsOf(nbuf, t + Puts(tr.before), held, tr.last)
  }

  predicate SlotsOf(nbuf: nat, t: seq<nat>, held: set<nat>, p: Piece)
    decreases p
  {
    match p
    case Read(_) => true
    case Store(x) => FindsSlot(nbuf, t, held + {x})
    case Under(x, inner, put) =>
      && Slots(nbuf, t, held + {x}, inner)
      && (put ==> FindsSlot(nbuf, t + Puts(inner), held + {x}))
  }

  predicate PutsLast(p: Piece) {
    p.Store? || (p.Under? && p.put)
  }

  /** What is done under a buffer, if anything, ends with a log_write. */
  predicate InnerEnds(tr: Trail)
    decreases tr, 0
  {
    tr.Then? ==> InnerEnds(tr.before) && (tr.last.Under? ==> Ended(tr.last.inner))
  }

  predicate Ended(tr: Trail)
    decreases tr, 1
  {
    InnerEnds(tr) && (tr.Then? ==> PutsLast(tr.last))
  }

  lemma MoreLogged(t: seq<nat>, held: set<nat>, xs: seq<nat>)
    ensures |Elements(t) + held| <= |Elements(t + xs) + held|
  {
    SubsetFits(Elements(t) + held, Elements(t + xs) + held);
  }

  /** After a log_write there is a buffer to spare. */
  lemma SpareAfter(nbuf: nat, t: seq<nat>, held: set<nat>, tr: Trail)
    requires tr.Then? && PutsLast(tr.last) && Slots(nbuf, t, held, tr)
    ensures |Elements(t + Puts(tr)) + held| < nbuf
  {
    var u, y := t + Puts(tr.before), tr.last.x;
    if tr.last.Store? {
      PutSpare(nbuf, u, held, y);
      assert t + Puts(tr) == u + [y];
    } else {
      PutSpare(nbuf, u + Puts(tr.last.inner), held, y);
      assert t + Puts(tr) == u + Puts(tr.last.inner) + [y];
    }
  }

  lemma PutSpare(nbuf: nat, u: seq<nat>, held: set<nat>, y: nat)
    requires FindsSlot(nbuf, u, held + {y})
    ensures |Elements(u + [y]) + held| < nbuf
  {
    assert Elements(u + [y]) + held == Elements(u) + (held + {y});
  }

  lemma {:induction false} SlotsRoom(nbuf: nat, t: seq<nat>, held: set<nat>, tr: Trail)
    requires InnerEnds(tr) && Slots(nbuf, t, held, tr) && |Elements(t + Puts(tr)) + held| < nbuf
    ensures Rooms(nbuf, t, held, tr)
    decreases tr
  {
    if tr.Then? {
      var u, p := t + Puts(tr.before), tr.last;
      assert t + Puts(tr) == u + PutsOf(p);
      MoreLogged(u, held, PutsOf(p));
      SlotsRoom(nbuf, t, held, tr.before);
      OneSector(Elements(u) + held, p.x);
      if p.Under? {
        if p.inner.Then? {
          SpareAfter(nbuf, u, held + {p.x}, p.inner);
          SlotsRoom(nbuf, u, held + {p.x}, p.inner);
        }
      }
    }
  }

  lemma OneSector(a: set<nat>, x: nat)
    ensures |a + {x}| <= |a| + 1
  {
    if x in a {
      assert a + {x} == a;
    }
  }

  lemma {:induction false} RoomsSlots(nbuf: nat, t: seq<nat>, held: set<nat>, tr: Trail)
    requires Rooms(nbuf, t, held, tr)
    ensures Slots(nbuf, t, held, tr)
    decreases tr
  {
    if tr.Then? {
      RoomsSlots(nbuf, t, held, tr.before);
      if tr.last.Under? {
        RoomsSlots(nbuf, t + Puts(tr.before), held + {tr.last.x}, tr.last.inner);
      }
    }
  }

  /** No bget of a call that ends with a log_write panics if and only if at every log_write there is a
      buffer besides those of the logged sectors, of the held ones and of this one. */
  lemma RoomsIff(nbuf: nat, t: seq<nat>, held: set<nat>, tr: Trail)
    requires tr.Then? && Ended(tr)
    ensures Rooms(nbuf, t, held, tr) <==> Slots(nbuf, t, held, tr)
  {
    if Rooms(nbuf, t, held, tr) {
      RoomsSlots(nbuf, t, held, tr);
    } else if Slots(nbuf, t, held, tr) {
      SpareAfter(nbuf, t, held, tr);
      SlotsRoom(nbuf, t, held, tr);
    }
  }

  /** After the log_writes there is a buffer that is not of a logged sector. */
  lemma {:induction false} SlotsSpare(nbuf: nat, t: seq<nat>, held: set<nat>, tr: Trail)
    requires Slots(nbuf, t, held, tr) && Puts(tr) != []
    ensures |Elements(t + Puts(tr))| < nbuf
    decreases tr
  {
    var u, p := t + Puts(tr.before), tr.last;
    assert t + Puts(tr) == u + PutsOf(p);
    if PutsOf(p) == [] {
      assert Puts(tr) == Puts(tr.before);
      SlotsSpare(nbuf, t, held, tr.before);
    } else if PutsLast(p) {
      SpareAfter(nbuf, t, held, tr);
      SubsetFits(Elements(t + Puts(tr)), Elements(t + Puts(tr)) + held);
    } else {
      SlotsSpare(nbuf, u, held + {p.x}, p.inner);
      assert PutsOf(p) == Puts(p.inner);
    }
  }

  lemma RoomsSpare(nbuf: nat, tr: Trail)
    requires Rooms(nbuf, [], {}, tr) && Puts(tr) != []
    ensures |Elements(Puts(tr))| < nbuf
  {
    RoomsSlots(nbuf, [], {}, tr);
    SlotsSpare(nbuf, [], {}, tr);
    assert [] + Puts(tr) == Puts(tr);
  }

  // ----- Which panic -----

  /** With buffers for all of it bget does not panic. */
  lemma {:induction false} RoomsKeep(l: Log.Layout, nbuf: nat, t: seq<nat>, held: set<nat>, tr: Trail)
    requires Rooms(nbuf, t, held, tr)
    ensures var r := RunAll(l, nbuf, t, held, tr); r.Stuck? ==> !r.why.NoBuffers?
    decreases tr
  {
    if tr.Then? {
      RoomsKeep(l, nbuf, t, held, tr.before);
      if RunAll(l, nbuf, t, held, tr.before).Through? {
        RunIff(l, nbuf, t, held, tr.before);
        PieceKeeps(l, nbuf, t + Puts(tr.before), held, tr.last);
      }
    }
  }

  lemma {:induction false} PieceKeeps(l: Log.Layout, nbuf: nat, t: seq<nat>, held: set<nat>, p: Piece)
    requires RoomOf(nbuf, t, held, p)
    ensures var r := RunOf(l, nbuf, t, held, p); r.Stuck? ==> !r.why.NoBuffers?
    decreases p
  {
    if p.Under? {
      RoomsKeep(l, nbuf, t, held + {p.x}, p.inner);
      if RunAll(l, nbuf, t, held + {p.x}, p.inner).Through? {
        RunIff(l, nbuf, t, held + {p.x}, p.inner);
      }
    }
  }

  // ----- Where it stops -----

  /** The first `m` of the log_writes `xs` have gone through when the call stops like this. */
  predicate StopsAt(l: Log.Layout, t: seq<nat>, xs: seq<nat>, m: nat, r: Run) {
    && m <= |xs| && r.t == t + xs[..m] && Takes(l, t, xs[..m])
    && (r.Stuck? && r.why.IntoLog? ==> m < |xs| && xs[m] >= l.start && |Elements(r.t)| < Log.Capacity(l))
    && (r.Stuck? && r.why.LogFull? ==> m < |xs| && |Elements(r.t)| >= Log.Capacity(l))
  }

  /** Opens the fact below for this point only. */
  predicate OpenStop(z: nat, xs: seq<nat>, m: nat) {
    true
  }

  ghost function StopPoint(l: Log.Layout, t: seq<nat>, xs: seq<nat>, m: nat, r: Run): Seal {
    if forall z: nat {:trigger OpenStop(z, xs, m)} :: OpenStop(z, xs, m) ==> StopsAt(l, t, xs, m, r)
    then Known else Unknown
  }

  lemma StopIs(l: Log.Layout, t: seq<nat>, xs: seq<nat>, m: nat, r: Run)
    requires StopPoint(l, t, xs, m, r) == Known
    ensures StopsAt(l, t, xs, m, r)
  {
    assert OpenStop(0, xs, m);
  }

  lemma StopsLater(l: Log.Layout, t: seq<nat>, a: seq<nat>, b: seq<nat>, m: nat, r: Run)
    requires StopPoint(l, t + a, b, m, r) == Known && Takes(l, t, a)
    ensures StopPoint(l, t, a + b, |a| + m, r) == Known
  {
    StopIs(l, t + a, b, m, r);
    assert (a + b)[..|a| + m] == a + b[..m] && t + a + b[..m] == t + (a + b[..m]);
    TakesConcat(l, t, a, b[..m]);
  }

  lemma StopsBefore(l: Log.Layout, t: seq<nat>, a: seq<nat>, b: seq<nat>, m: nat, r: Run)
    requires StopPoint(l, t, a, m, r) == Known
    ensures StopPoint(l, t, a + b, m, r) == Known
  {
    StopIs(l, t, a, m, r);
    assert (a + b)[..m] == a[..m];
  }

  lemma ThroughAll(l: Log.Layout, nbuf: nat, t: seq<nat>, held: set<nat>, tr: Trail)
    requires RunAll(l, nbuf, t, held, tr).Through?
    ensures RunAll(l, nbuf, t, held, tr).t == t + Puts(tr) && Takes(l, t, Puts(tr))
    ensures StopPoint(l, t, Puts(tr), |Puts(tr)|, RunAll(l, nbuf, t, held, tr)) == Known
  {
    RunIff(l, nbuf, t, held, tr);
    assert Puts(tr)[..|Puts(tr)|] == Puts(tr);
  }

  lemma {:induction false} StopOf(l: Log.Layout, nbuf: nat, t: seq<nat>, held: set<nat>, tr: Trail) returns (m: nat)
    ensures StopPoint(l, t, Puts(tr), m, RunAll(l, nbuf, t, held, tr)) == Known
    decreases tr
  {
    var r := RunAll(l, nbuf, t, held, tr);
    if r.Through? {
      ThroughAll(l, nbuf, t, held, tr);
      m := |Puts(tr)|;
    } else if RunAll(l, nbuf, t, held, tr.before).Through? {
      ThroughAll(l, nbuf, t, held, tr.before);
      var i := PieceStop(l, nbuf, t + Puts(tr.before), held, tr.last);
      StopsLater(l, t, Puts(tr.before), PutsOf(tr.last), i, r);
      m := |Puts(tr.before)| + i;
    } else {
      m := StopOf(l, nbuf, t, held, tr.before);
      StopsBefore(l, t, Puts(tr.before), PutsOf(tr.last), m, r);
    }
  }

  lemma {:induction false} PieceStop(l: Log.Layout, nbuf: nat, t: seq<nat>, held: set<nat>, p: Piece) returns (m: nat)
    requires RunOf(l, nbuf, t, held, p).Stuck?
    ensures StopPoint(l, t, PutsOf(p), m, RunOf(l, nbuf, t, held, p)) == Known
    decreases p
  {
    var r := RunOf(l, nbuf, t, held, p);
    m := 0;
    assert t + PutsOf(p)[..0] == t;
    if p.Under? && Finds(nbuf, t, held, p.x) {
      RunIff(l, nbuf, t, held + {p.x}, p.inner);
      var i := StopOf(l, nbuf, t, held + {p.x}, p.inner);
      if RunAll(l, nbuf, t, held + {p.x}, p.inner).Through? {
        m := |Puts(p.inner)|;
        assert PutsOf(p)[..m] == Puts(p.inner);
      } else {
        m := i;
        StopsBefore(l, t, Puts(p.inner), if p.put then [p.x] else [], m, r);
      }
    }
  }

  /** A call all of whose log_writes are for home sectors does not go astray. */
  lemma NeverAstray(l: Log.Layout, nbuf: nat, tr: Trail)
    requires forall x :: x in Puts(tr) ==> x < l.start
    ensures var r := RunAll(l, nbuf, [], {}, tr); r.Stuck? ==> !r.why.IntoLog?
  {
    var m := StopOf(l, nbuf, [], {}, tr);
    StopIs(l, [], Puts(tr), m, RunAll(l, nbuf, [], {}, tr));
    if m < |Puts(tr)| {
      assert Puts(tr)[m] in Puts(tr);
    }
  }

  // ----- Home sectors -----

  /** Only sectors before the log are asked for. */
  predicate HomeOnly(l: Log.Layout, tr: Trail)
    decreases tr
  {
    tr.Then? ==> HomeOnly(l, tr.before) && HomePiece(l, tr.last)
  }

  predicate HomePiece(l: Log.Layout, p: Piece)
    decreases p
  {
    p.x < l.start && (p.Under? ==> HomeOnly(l, p.inner))
  }

  /** The sectors that are read or held and not logged. */
  function Looks(tr: Trail): set<nat>
    decreases tr
  {
    if tr.Start? then {} else Looks(tr.before) + LooksOf(tr.last)
  }

  function LooksOf(p: Piece): set<nat>
    decreases p
  {
    match p
    case Read(x) => {x}
    case Store(_) => {}
    case Under(x, inner, put) => Looks(inner) + if put then {} else {x}
  }

  /** Those and the logged ones are all there are. */
  lemma {:induction false} HomeIf(l: Log.Layout, tr: Trail)
    requires (forall x :: x in Looks(tr) ==> x < l.start) && forall x :: x in Puts(tr) ==> x < l.start
    ensures HomeOnly(l, tr)
    decreases tr
  {
    if tr.Then? {
      var p := tr.last;
      assert Looks(tr) == Looks(tr.before) + LooksOf(p) && Puts(tr) == Puts(tr.before) + PutsOf(p);
      assert forall x :: x in Puts(tr.before) ==> x in Puts(tr);
      assert forall x :: x in Looks(tr.before) ==> x in Looks(tr);
      HomeIf(l, tr.before);
      assert forall x :: x in LooksOf(p) ==> x in Looks(tr);
      assert forall x :: x in PutsOf(p) ==> x in Puts(tr);
      HomePieceIf(l, p);
    }
  }

  lemma {:induction false} HomePieceIf(l: Log.Layout, p: Piece)
    requires (forall x :: x in LooksOf(p) ==> x < l.start) && forall x :: x in PutsOf(p) ==> x < l.start
    ensures HomePiece(l, p)
    decreases p
  {
    match p
    case Read(x) => assert x in LooksOf(p);
    case Store(x) => assert x in PutsOf(p);
    case Under(x, inner, put) =>
      assert forall y :: y in Looks(inner) ==> y in LooksOf(p);
      assert forall y :: y in Puts(inner) ==> y in PutsOf(p);
      HomeIf(l, inner);
      if put {
        assert PutsOf(p)[|Puts(inner)|] == x && x in PutsOf(p);
      } else {
        assert x in LooksOf(p);
      }
  }

  // ----- No sector is taken twice -----

  /** No piece asks for a sector that is held; it would wait for itself. */
  predicate Calm(held: set<nat>, tr: Trail)
    decreases tr
  {
    tr.Then? ==> Calm(held, tr.before) && CalmOf(held, tr.last)
  }

  predicate CalmOf(held: set<nat>, p: Piece)
    decreases p
  {
    p.x !in held && (p.Under? ==> Calm(held + {p.x}, p.inner))
  }
}

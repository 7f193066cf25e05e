/** Pipes (pipe.c) as a system of any number of readers and writers.

    A step takes a process from where it got the pipe's lock to where it sleeps or returns;
    nobody else touches the pipe in between.  The ring is seen here through the bytes ever
    written and the bytes ever read. */
module Pipe {
  import opened Blocks

  const PIPESIZE := 512

  datatype Buf = Buf(written: seq<Byte>, got: seq<Byte>, readopen: bool, writeopen: bool)

  /** The bytes read are the first bytes written, and the rest fits the ring. */
  predicate Fifo(b: Buf) {
    b.got <= b.written && |b.written| - |b.got| <= PIPESIZE
  }

  function Avail(b: Buf): (n: nat)
    requires Fifo(b)
    ensures n <= PIPESIZE
  {
    |b.written| - |b.got|
  }

  datatype Outcome = Done | Failed | Sleeps

  // ----- What one turn of a writer or a reader does -----

  /** Bytes a writer with `left` bytes to go stores before the ring is full. */
  function Stored(b: Buf, left: nat): (k: nat)
    requires Fifo(b)
    ensures k <= left && k <= PIPESIZE - Avail(b) && (k == left || k == PIPESIZE - Avail(b))
  {
    if left <= PIPESIZE - Avail(b) then left else PIPESIZE - Avail(b)
  }

  function WriteEnds(b: Buf, left: nat, killed: bool): Outcome
    requires Fifo(b)
  {
    if Stored(b, left) == left then Done else if !b.readopen || killed then Failed else Sleeps
  }

  function Taken(b: Buf, n: nat): (k: nat)
    requires Fifo(b)
    ensures k <= n && k <= Avail(b) && (k == n || k == Avail(b))
  {
    if n <= Avail(b) then n else Avail(b)
  }

  function ReadEnds(b: Buf, killed: bool): Outcome
    requires Fifo(b)
  {
    if Avail(b) > 0 || !b.writeopen then Done else if killed then Failed else Sleeps
  }

  function AfterWrite(b: Buf, addr: seq<Byte>, i: nat): (b': Buf)
    requires Fifo(b) && i <= |addr|
    ensures Fifo(b')
  {
    b.(written := b.written + addr[i..i + Stored(b, |addr| - i)])
  }

  function AfterRead(b: Buf, n: nat, killed: bool): (b': Buf)
    requires Fifo(b)
    ensures Fifo(b')
  {
    if ReadEnds(b, killed).Done? then b.(got := b.written[..|b.got| + Taken(b, n)]) else b
  }

  // ----- The system -----

  datatype Proc = Idle | Writing(addr: seq<Byte>, i: nat, asleep: bool) | Reading(n: nat, asleep: bool)

  datatype State = State(buf: Buf, procs: seq<Proc>, killed: set<nat>)

  datatype Event =
    | BeginWrite(p: nat, addr: seq<Byte>)
    | BeginRead(p: nat, n: nat)
    | WriteTurn(p: nat)
    | ReadTurn(p: nat)
    | Kill(p: nat)
    | CloseRead
    | CloseWrite

  predicate SleepingReader(p: Proc) {
    p.Reading? && p.asleep
  }

  predicate SleepingWriter(p: Proc) {
    p.Writing? && p.asleep
  }

  /** A killed process exits before its next system call (trap.c). */
  predicate Enabled(s: State, e: Event) {
    match e {
      case BeginWrite(p, addr) => p < |s.procs| && s.procs[p].Idle? && p !in s.killed
      case BeginRead(p, n) => p < |s.procs| && s.procs[p].Idle? && p !in s.killed
      case WriteTurn(p) =>
        p < |s.procs| && s.procs[p].Writing? && !s.procs[p].asleep && s.procs[p].i <= |s.procs[p].addr|
      case ReadTurn(p) => p < |s.procs| && s.procs[p].Reading? && !s.procs[p].asleep
      case Kill(p) => p < |s.procs|
      case CloseRead => true
      case CloseWrite => true
    }
  }

  function Wake(p: Proc): Proc {
    if p.Idle? then p else p.(asleep := false)
  }

  /** How the turn of the step's process ends. */
  function Ends(s: State, e: Event): Outcome
    requires Fifo(s.buf) && Enabled(s, e)
  {
    match e {
      case WriteTurn(p) => WriteEnds(s.buf, |s.procs[p].addr| - s.procs[p].i, p in s.killed)
      case ReadTurn(p) => ReadEnds(s.buf, p in s.killed)
      case _ => Done
    }
  }

  /** Does the step call wakeup on nread, or on nwrite? */
  predicate WakesReaders(s: State, e: Event)
    requires Fifo(s.buf) && Enabled(s, e)
  {
    (e.WriteTurn? && !Ends(s, e).Failed?) || e.CloseWrite?
  }

  predicate WakesWriters(s: State, e: Event)
    requires Fifo(s.buf) && Enabled(s, e)
  {
    (e.ReadTurn? && Ends(s, e).Done?) || e.CloseRead?
  }

  function BufAfter(s: State, e: Event): Buf
    requires Fifo(s.buf) && Enabled(s, e)
  {
    match e {
      case WriteTurn(p) => AfterWrite(s.buf, s.procs[p].addr, s.procs[p].i)
      case ReadTurn(p) => AfterRead(s.buf, s.procs[p].n, p in s.killed)
      case CloseRead => s.buf.(readopen := false)
      case CloseWrite => s.buf.(writeopen := false)
      case _ => s.buf
    }
  }

  /** The process of the step, after it. */
  function Moved(s: State, e: Event): Proc
    requires Fifo(s.buf) && Enabled(s, e) && !e.CloseRead? && !e.CloseWrite?
  {
    var q := s.procs[e.p];
    match e {
      case BeginWrite(p, addr) => Writing(addr, 0, false)
      case BeginRead(p, n) => Reading(n, false)
      case Kill(p) => Wake(q)
      case WriteTurn(p) =>
        if Ends(s, e).Sleeps? then Writing(q.addr, q.i + Stored(s.buf, |q.addr| - q.i), true) else Idle
      case ReadTurn(p) => if Ends(s, e).Sleeps? then Reading(q.n, true) else Idle
    }
  }

  function ProcAfter(s: State, e: Event, i: nat): Proc
    requires Fifo(s.buf) && Enabled(s, e) && i < |s.procs|
  {
    if !e.CloseRead? && !e.CloseWrite? && e.p == i then Moved(s, e)
    else if SleepingReader(s.procs[i]) && WakesReaders(s, e) then Wake(s.procs[i])
    else if SleepingWriter(s.procs[i]) && WakesWriters(s, e) then Wake(s.procs[i])
    else s.procs[i]
  }

  ghost predicate Next(s: State, e: Event, s': State) {
    && Fifo(s.buf) && Enabled(s, e) && s'.buf == BufAfter(s, e) && |s'.procs| == |s.procs|
    && (forall i: nat {:trigger ProcAfter(s, e, i)} :: i < |s.procs| ==> s'.procs[i] == ProcAfter(s, e, i))
    && s'.killed == (if e.Kill? then s.killed + {e.p} else s.killed)
  }

  // ----- What holds in every state -----

  /** A sleeping writer has something left to write, a full ring and a reader's end. */
  ghost predicate WritersOk(s: State)
    requires Fifo(s.buf)
  {
    forall i: nat {:trigger WriterOk(s, i)} :: i < |s.procs| ==> WriterOk(s, i)
  }

  ghost predicate WriterOk(s: State, i: nat)
    requires Fifo(s.buf) && i < |s.procs|
  {
    && (s.procs[i].Writing? ==> s.procs[i].i <= |s.procs[i].addr|)
    && (SleepingWriter(s.procs[i]) ==> s.procs[i].i < |s.procs[i].addr| && Avail(s.buf) == PIPESIZE && s.buf.readopen)
  }

  ghost predicate Inv(s: State) {
    Fifo(s.buf) && WritersOk(s)
  }

  /** A sleeping reader has an empty ring and a writer's end. */
  ghost predicate ReaderOk(s: State, i: nat)
    requires Fifo(s.buf) && i < |s.procs|
  {
    SleepingReader(s.procs[i]) ==> Avail(s.buf) == 0 && s.buf.writeopen
  }

  ghost predicate ReadersOk(s: State)
    requires Fifo(s.buf)
  {
    forall i: nat {:trigger ReaderOk(s, i)} :: i < |s.procs| ==> ReaderOk(s, i)
  }

  lemma InvKept(s: State, e: Event, s': State)
    requires Inv(s) && Next(s, e, s')
    ensures Inv(s')
  {
    forall i: nat | i < |s.procs| ensures WriterOk(s', i) {
      assert WriterOk(s, i) && s'.procs[i] == ProcAfter(s, e, i);
      if e.WriteTurn? || e.ReadTurn? {
        assert WriterOk(s, e.p);
      }
    }
  }

  /** Whom a step wakes: sleeping readers when bytes have been written or the writers have closed the
      pipe, sleeping writers when bytes may have been read or the readers have closed it, and a process
      that is killed.  Only a turn of its own puts a process to sleep. */
  lemma SleepersWoken(s: State, e: Event, s': State, i: nat)
    requires Inv(s) && Next(s, e, s') && i < |s.procs|
    ensures SleepingReader(s.procs[i]) ==>
              (!SleepingReader(s'.procs[i]) <==>
               e == Kill(i) || e.CloseWrite? || (e.WriteTurn? && !Ends(s, e).Failed?))
    ensures SleepingWriter(s.procs[i]) ==>
              (!SleepingWriter(s'.procs[i]) <==>
               e == Kill(i) || e.CloseRead? || (e.ReadTurn? && Ends(s, e).Done?))
    ensures !SleepingReader(s.procs[i]) && SleepingReader(s'.procs[i]) ==> e == ReadTurn(i)
    ensures !SleepingWriter(s.procs[i]) && SleepingWriter(s'.procs[i]) ==> e == WriteTurn(i)
    ensures s'.killed == (if e.Kill? then s.killed + {e.p} else s.killed)
  {
    assert s'.procs[i] == ProcAfter(s, e, i);
  }

  /** A writer that gives up after it stored something, while a reader sleeps. */
  ghost predicate Strands(s: State, e: Event) {
    && Inv(s) && Enabled(s, e) && e.WriteTurn? && Ends(s, e).Failed?
    && Stored(s.buf, |s.procs[e.p].addr| - s.procs[e.p].i) > 0
    && exists i :: 0 <= i < |s.procs| && SleepingReader(s.procs[i])
  }

  /** The exact condition under which a step leaves a reader asleep beside bytes it could
      read: pipewrite returns -1 without its wakeup. */
  lemma ReadersKeptIff(s: State, e: Event, s': State)
    requires Inv(s) && ReadersOk(s) && Next(s, e, s')
    ensures Inv(s') && (ReadersOk(s') <==> !Strands(s, e))
  {
    InvKept(s, e, s');
    if Strands(s, e) {
      var i :| 0 <= i < |s.procs| && SleepingReader(s.procs[i]);
      assert s'.procs[i] == ProcAfter(s, e, i);
      assert !ReaderOk(s', i);
    } else {
      forall i: nat | i < |s.procs| ensures ReaderOk(s', i) {
        assert ReaderOk(s, i) && s'.procs[i] == ProcAfter(s, e, i);
      }
    }
  }

  // ----- Runs -----

  /** A new pipe, with every process outside it. */
  ghost predicate Fresh(s: State) {
    s.buf == Buf([], [], true, true) && forall i :: 0 <= i < |s.procs| ==> s.procs[i].Idle?
  }

  ghost predicate IsRun(ss: seq<State>, es: seq<Event>) {
    |ss| == |es| + 1 && Fresh(ss[0]) && forall k: nat {:trigger StepAt(ss, es, k)} :: k < |es| ==> StepAt(ss, es, k)
  }

  ghost predicate StepAt(ss: seq<State>, es: seq<Event>, k: nat)
    requires |ss| == |es| + 1 && k < |es|
  {
    Next(ss[k], es[k], ss[k + 1])
  }

  /** In every reachable state the bytes read are the first bytes written, at most PIPESIZE
      wait in the ring, and whoever sleeps to write sleeps beside a full ring. */
  lemma {:induction false} FifoAlways(ss: seq<State>, es: seq<Event>, k: nat)
    requires IsRun(ss, es) && k < |ss|
    ensures Inv(ss[k])
  {
    if k > 0 {
      FifoAlways(ss, es, k - 1);
      assert StepAt(ss, es, k - 1);
      InvKept(ss[k - 1], es[k - 1], ss[k]);
    }
  }

  /** Nothing written or read is ever taken back. */
  lemma {:induction false} HistoryGrows(ss: seq<State>, es: seq<Event>, j: nat, k: nat)
    requires IsRun(ss, es) && j <= k < |ss|
    ensures ss[j].buf.written <= ss[k].buf.written && ss[j].buf.got <= ss[k].buf.got
  {
    if j < k {
      HistoryGrows(ss, es, j, k - 1);
      assert StepAt(ss, es, k - 1);
    }
  }

  // ----- Which bytes a call moves -----

  /** What the step puts into the pipe. */
  function Adds(s: State, s': State): seq<Byte> {
    if |s.buf.written| <= |s'.buf.written| then s'.buf.written[|s.buf.written|..] else []
  }

  /** What process `p` has put into the pipe in the steps from `j` up to `k`, in order. */
  function PutBy(ss: seq<State>, es: seq<Event>, p: nat, j: nat, k: nat): seq<Byte>
    requires j <= k <= |es| && |ss| == |es| + 1
  {
    if j == k then []
    else PutBy(ss, es, p, j, k - 1) + if es[k - 1] == WriteTurn(p) then Adds(ss[k - 1], ss[k]) else []
  }

  /** Steps `j` up to `k` belong to one write call of `p` of the bytes `addr`, which begins at `j`. */
  ghost predicate WriteCall(es: seq<Event>, p: nat, addr: seq<Byte>, j: nat, k: nat) {
    && j < k <= |es| && es[j] == BeginWrite(p, addr)
    && forall i :: j < i < k ==> !(es[i].BeginWrite? && es[i].p == p) && !(es[i].BeginRead? && es[i].p == p)
  }

  /** A turn puts the next bytes of the call into the pipe, and nobody else puts any. */
  lemma TurnAdds(s: State, e: Event, s': State)
    requires Inv(s) && Next(s, e, s')
    ensures s.buf.written <= s'.buf.written && (!e.WriteTurn? ==> Adds(s, s') == [])
    ensures e.WriteTurn? ==>
              var q, q', n := s.procs[e.p], s'.procs[e.p], |Adds(s, s')|;
              && q.Writing? && q.i + n <= |q.addr| && Adds(s, s') == q.addr[q.i..q.i + n]
              && (Ends(s, e).Done? <==> q.i + n == |q.addr|)
              && (if Ends(s, e).Sleeps? then q' == Writing(q.addr, q.i + n, true) else q' == Idle)
              && (!Ends(s, e).Done? ==> Avail(s'.buf) == PIPESIZE)
              && (Ends(s, e).Failed? <==> q.i + n < |q.addr| && (!s.buf.readopen || e.p in s.killed))
  {
    if e.WriteTurn? {
      assert WriterOk(s, e.p) && s'.procs[e.p] == ProcAfter(s, e, e.p);
      var q := s.procs[e.p];
      var more := q.addr[q.i..q.i + Stored(s.buf, |q.addr| - q.i)];
      assert s'.buf.written == s.buf.written + more;
      assert Adds(s, s') == more;
    }
  }

  /** A process inside a write call, which has put the first `n` bytes into the pipe; or the call has
      ended. */
  predicate Inside(q: Proc, addr: seq<Byte>, n: nat) {
    q.Idle? || (q.Writing? && q.addr == addr && q.i == n)
  }

  lemma CallBegins(s: State, s': State, p: nat, addr: seq<Byte>)
    requires Next(s, BeginWrite(p, addr), s')
    ensures p < |s'.procs| && s'.procs[p] == Writing(addr, 0, false)
  {
    assert s'.procs[p] == ProcAfter(s, BeginWrite(p, addr), p);
  }

  /** One step of a run, seen from the call. */
  lemma CallStep(s: State, e: Event, s': State, p: nat, addr: seq<Byte>, n: nat)
    requires Inv(s) && Next(s, e, s') && p < |s.procs| && n <= |addr| && Inside(s.procs[p], addr, n)
    requires !(e.BeginWrite? && e.p == p) && !(e.BeginRead? && e.p == p)
    ensures e != WriteTurn(p) ==> Inside(s'.procs[p], addr, n)
    ensures e == WriteTurn(p) ==>
              var m := |Adds(s, s')|;
              && n + m <= |addr| && addr[..n] + Adds(s, s') == addr[..n + m] && Inside(s'.procs[p], addr, n + m)
              && (Ends(s, e).Done? ==> n + m == |addr|) && (Ends(s, e).Failed? ==> n + m < |addr|)
  {
    assert s'.procs[p] == ProcAfter(s, e, p);
    TurnAdds(s, e, s');
  }

  /** What a write call has put into the pipe, over all its turns and whatever the others do in
      between, is the bytes it was given, up to where it is; a call that has returned without an error
      has put all of them there, and one that has failed fewer. */
  lemma {:induction false} WritesItsBytes(ss: seq<State>, es: seq<Event>, p: nat, addr: seq<Byte>, j: nat, k: nat)
    requires IsRun(ss, es) && WriteCall(es, p, addr, j, k)
    ensures var n := |PutBy(ss, es, p, j, k)|;
            && p < |ss[k].procs| && n <= |addr| && PutBy(ss, es, p, j, k) == addr[..n]
            && Inside(ss[k].procs[p], addr, n)
    ensures Inv(ss[k - 1]) && StepAt(ss, es, k - 1)
    ensures es[k - 1] == WriteTurn(p) && Ends(ss[k - 1], es[k - 1]).Done? ==> PutBy(ss, es, p, j, k) == addr
    ensures es[k - 1] == WriteTurn(p) && Ends(ss[k - 1], es[k - 1]).Failed? ==> |PutBy(ss, es, p, j, k)| < |addr|
    decreases k - j
  {
    FifoAlways(ss, es, k - 1);
    assert StepAt(ss, es, k - 1);
    if k == j + 1 {
      CallBegins(ss[j], ss[k], p, addr);
      assert PutBy(ss, es, p, j, k) == [] == addr[..0];
    } else {
      WritesItsBytes(ss, es, p, addr, j, k - 1);
      CallStep(ss[k - 1], es[k - 1], ss[k], p, addr, |PutBy(ss, es, p, j, k - 1)|);
      assert addr[..|addr|] == addr;
    }
  }

  /** A turn of a reader that returns takes the next bytes of the pipe, as many as it asked for or all
      there are, and nobody else takes any. */
  lemma TurnTakes(s: State, e: Event, s': State)
    requires Inv(s) && Next(s, e, s')
    ensures s.buf.got <= s'.buf.got && (!(e.ReadTurn? && Ends(s, e).Done?) ==> s'.buf.got == s.buf.got)
    ensures e.ReadTurn? && Ends(s, e).Done? ==>
              var n, m := |s'.buf.got| - |s.buf.got|, |s.buf.written| - |s.buf.got|;
              && s'.buf.got[|s.buf.got|..] == s.buf.written[|s.buf.got|..|s.buf.got| + n]
              && n == if s.procs[e.p].n <= m then s.procs[e.p].n else m
    ensures e.ReadTurn? ==>
              var m := |s.buf.written| - |s.buf.got|;
              && (Ends(s, e).Done? <==> m > 0 || !s.buf.writeopen)
              && (Ends(s, e).Failed? <==> m == 0 && s.buf.writeopen && e.p in s.killed)
  {
  }

  /** Steps `j` up to `k` belong to one read call of `p` for `n` bytes, which begins at `j`. */
  ghost predicate ReadCall(es: seq<Event>, p: nat, n: nat, j: nat, k: nat) {
    && j < k <= |es| && es[j] == BeginRead(p, n)
    && forall i :: j < i < k ==> !(es[i].BeginWrite? && es[i].p == p) && !(es[i].BeginRead? && es[i].p == p)
  }

  lemma {:induction false} StaysReading(ss: seq<State>, es: seq<Event>, p: nat, n: nat, j: nat, k: nat)
    requires IsRun(ss, es) && ReadCall(es, p, n, j, k)
    ensures p < |ss[k].procs| && (ss[k].procs[p].Idle? || (ss[k].procs[p].Reading? && ss[k].procs[p].n == n))
    decreases k - j
  {
    if k > j + 1 {
      StaysReading(ss, es, p, n, j, k - 1);
    }
    assert StepAt(ss, es, k - 1);
    assert ss[k].procs[p] == ProcAfter(ss[k - 1], es[k - 1], p);
  }

  /** A read call for `n` bytes that returns, after however many turns, gets the first bytes in the pipe
      that nobody has got before: `n` of them, or all there are.  There is one at least, unless none
      was asked for or the writers have closed the pipe. */
  lemma ReadsNextBytes(ss: seq<State>, es: seq<Event>, p: nat, n: nat, j: nat, k: nat)
    requires IsRun(ss, es) && k < |es| && ReadCall(es, p, n, j, k) && es[k] == ReadTurn(p)
    ensures Inv(ss[k]) && StepAt(ss, es, k)
    ensures Ends(ss[k], es[k]).Done? ==>
              var b, b' := ss[k].buf, ss[k + 1].buf;
              var m := |b'.got| - |b.got|;
              && b'.got == b.got + b.written[|b.got|..|b.got| + m] && b'.written == b.written
              && m <= n && (m == n || b'.got == b.written)
              && (m == 0 ==> n == 0 || !b.writeopen)
    ensures !Ends(ss[k], es[k]).Done? ==> ss[k + 1].buf == ss[k].buf
  {
    FifoAlways(ss, es, k);
    assert StepAt(ss, es, k);
    StaysReading(ss, es, p, n, j, k);
    TurnTakes(ss[k], es[k], ss[k + 1]);
    FifoAlways(ss, es, k + 1);
  }

  /** When no writer gives up in the middle, sleeping readers find the ring empty and readers
      and writers never sleep at the same time. */
  lemma {:induction false} NoDeadlock(ss: seq<State>, es: seq<Event>, k: nat)
    requires IsRun(ss, es) && k < |ss| && forall j :: 0 <= j < k ==> !Strands(ss[j], es[j])
    ensures Inv(ss[k]) && ReadersOk(ss[k])
    ensures forall i, j :: 0 <= i < |ss[k].procs| && 0 <= j < |ss[k].procs| && SleepingReader(ss[k].procs[i]) ==>
            !SleepingWriter(ss[k].procs[j])
  {
    FifoAlways(ss, es, k);
    if k > 0 {
      NoDeadlock(ss, es, k - 1);
      assert StepAt(ss, es, k - 1);
      ReadersKeptIff(ss[k - 1], es[k - 1], ss[k]);
    }
    forall i: nat, j: nat | i < |ss[k].procs| && j < |ss[k].procs| && SleepingReader(ss[k].procs[i])
      ensures !SleepingWriter(ss[k].procs[j])
    {
      assert ReaderOk(ss[k], i) && WriterOk(ss[k], j);
    }
  }

  lemma OneMore(ss: seq<State>, es: seq<Event>, e: Event, s': State)
    requires IsRun(ss, es) && Next(ss[|es|], e, s')
    ensures IsRun(ss + [s'], es + [e])
  {
    forall k: nat | k < |es| + 1 ensures StepAt(ss + [s'], es + [e], k) {
      assert k < |es| ==> StepAt(ss, es, k);
    }
  }

  /** A writer of more than PIPESIZE bytes, killed after its system call has begun. */
  lemma KilledWriter(s: State, addr: seq<Byte>, s': State)
    requires |addr| > PIPESIZE && s.buf == Buf([], [], true, true)
    requires s.procs == [Reading(1, true), Writing(addr, 0, false)] && s.killed == {1}
    requires s' == State(s.buf.(written := addr[..PIPESIZE]), [Reading(1, true), Idle], {1})
    ensures Next(s, WriteTurn(1), s')
  {
    assert [] + addr[0..PIPESIZE] == addr[..PIPESIZE];
  }

  /** It does happen: a reader sleeps, and such a writer fills the ring and returns -1. */
  lemma StrandedReader(addr: seq<Byte>) returns (ss: seq<State>, es: seq<Event>)
    requires |addr| > PIPESIZE
    ensures IsRun(ss, es) && |es| == 5
    ensures |ss[5].procs| == 2 && SleepingReader(ss[5].procs[0]) && ss[5].procs[1].Idle?
    ensures Fifo(ss[5].buf) && Avail(ss[5].buf) == PIPESIZE
  {
    var b, asleep, writing := Buf([], [], true, true), Reading(1, true), Writing(addr, 0, false);
    var s1, s2 := State(b, [Reading(1, false), Idle], {}), State(b, [asleep, Idle], {});
    var s3, s4 := State(b, [asleep, writing], {}), State(b, [asleep, writing], {1});
    ss, es := [State(b, [Idle, Idle], {})], [];
    OneMore(ss, es, BeginRead(0, 1), s1);
    ss, es := ss + [s1], es + [BeginRead(0, 1)];
    OneMore(ss, es, ReadTurn(0), s2);
    ss, es := ss + [s2], es + [ReadTurn(0)];
    OneMore(ss, es, BeginWrite(1, addr), s3);
    ss, es := ss + [s3], es + [BeginWrite(1, addr)];
    OneMore(ss, es, Kill(1), s4);
    ss, es := ss + [s4], es + [Kill(1)];
    var s5 := State(b.(written := addr[..PIPESIZE]), [asleep, Idle], {1});
    KilledWriter(s4, addr, s5);
    OneMore(ss, es, WriteTurn(1), s5);
    ss, es := ss + [s5], es + [WriteTurn(1)];
  }
}

/** The buffer cache on top of the queued disk driver: bread and bwrite ask for a transfer and wait, other
    processes go on, and the disk interrupts when it is done.

    The cache is coherent with the disk as it will be when the queue is empty, whatever the order of
    steps, and a process that has got its buffer finds in it the last bytes of its sector. */
module CacheDriver {
  import opened Blocks
  import opened Options
  import opened Cache
  import Ide

  /** `view` is what a reader should see of each sector. */
  datatype State = State(ide: Ide.State, view: map<Key, Block>)

  /** Steps of any process, and the disk's interrupt: bget that finds the sector or recycles a buffer, bread
      of a sector that is not there, bwrite, log_write's mark and brelse. */
  datatype Event =
    | Hit(b: nat)
    | Recycle(b: nat, k: Key)
    | Fetch(b: nat)
    | Write(b: nat, data: Block)
    | Pin(b: nat, data: Block)
    | Release(b: nat)
    | Interrupt

  function Bufs(s: State): seq<Buf> {
    s.ide.store.bufs
  }

  /** The process has buffer `b`, and does not wait for the disk. */
  predicate Has(s: State, b: nat) {
    b < |Bufs(s)| && Bufs(s)[b].busy && Bufs(s)[b].key.Some? && b !in s.ide.queue
  }

  predicate Enabled(s: State, e: Event) {
    match e
    case Hit(b) => b < |Bufs(s)| && !Bufs(s)[b].busy && Bufs(s)[b].key.Some?
    case Recycle(b, k) =>
      b < |Bufs(s)| && !Bufs(s)[b].busy && !Bufs(s)[b].dirty && k in s.ide.store.disk && NoneHolds(Bufs(s), k)
    case Fetch(b) => Has(s, b) && !Bufs(s)[b].valid
    case Write(b, _) => Has(s, b)
    case Pin(b, _) => Has(s, b) && Bufs(s)[b].valid
    case Release(b) => Has(s, b)
    case Interrupt => true
  }

  /** What the owner makes of the buffer before the driver is called, if it is. */
  function Touched(x: Buf, e: Event): Buf {
    match e
    case Hit(_) => x.(busy := true)
    case Recycle(_, k) => Buf(Some(k), true, false, false, x.data)
    case Fetch(_) => x
    case Write(_, data) => x.(data := data, dirty := true)
    case Pin(_, data) => x.(data := data, dirty := true)
    case Release(_) => x.(busy := false)
    case Interrupt => x
  }

  predicate Asks(e: Event) {
    e.Fetch? || e.Write?
  }

  /** Queued buffers are busy. */
  predicate QueueBusy(s: Ide.State) {
    forall i {:trigger s.queue[i]} ::
      0 <= i < |s.queue| ==> s.queue[i] < |s.store.bufs| && s.store.bufs[s.queue[i]].busy
  }

  ghost predicate Inv(s: State) {
    && Ide.Inv(s.ide) && QueueBusy(s.ide)
    && Coherent(Ide.Abstract(s.ide).bufs, Ide.Abstract(s.ide).disk, s.view)
  }

  lemma Idle(s: State, b: nat)
    requires Inv(s) && b < |Bufs(s)| && (!Bufs(s)[b].busy || b !in s.ide.queue)
    ensures b !in s.ide.queue && Ide.Abstract(s.ide).bufs[b] == Bufs(s)[b]
  {
    Ide.SettledAgrees(s.ide, b);
  }

  function ViewAfter(s: State, e: Event): map<Key, Block>
    requires Enabled(s, e)
  {
    if e.Write? || e.Pin? then s.view[Bufs(s)[e.b].key.value := e.data] else s.view
  }

  ghost function After(s: State, e: Event): State
    requires Inv(s) && Enabled(s, e)
  {
    if e.Interrupt? then s.(ide := Ide.Do(s.ide, Ide.Interrupt))
    else
      Takes(s, e);
      var i := Ide.Do(s.ide, Ide.Touch(e.b, Touched(Bufs(s)[e.b], e)));
      State(if Asks(e) then Ide.Do(i, Ide.Request(e.b)) else i, ViewAfter(s, e))
  }

  /** The driver takes the steps. */
  lemma Takes(s: State, e: Event)
    requires Inv(s) && Enabled(s, e) && !e.Interrupt?
    ensures Ide.Enabled(s.ide, Ide.Touch(e.b, Touched(Bufs(s)[e.b], e)))
    ensures Asks(e) ==>
              Ide.Enabled(Ide.Do(s.ide, Ide.Touch(e.b, Touched(Bufs(s)[e.b], e))), Ide.Request(e.b))
  {
    Idle(s, e.b);
    assert BufOk(Ide.Abstract(s.ide).bufs[e.b], s.view);
  }

  /** What the step is on the immediate driver. */
  lemma AbstractAfter(s: State, e: Event)
    requires Inv(s) && Enabled(s, e) && !e.Interrupt?
    ensures var m, x := Ide.Abstract(s.ide), Touched(Bufs(s)[e.b], e);
            var m1 := Ide.Store(m.disk, m.bufs[e.b := x]);
            && Ide.Inv(After(s, e).ide) && m.bufs[e.b] == Bufs(s)[e.b]
            && (Asks(e) ==> Ide.HasSector(m1, e.b))
            && Ide.Abstract(After(s, e).ide) == if Asks(e) then Ide.Sync(m1, e.b) else m1
  {
    Takes(s, e);
    Idle(s, e.b);
    var x := Touched(Bufs(s)[e.b], e);
    Ide.TouchRefines(s.ide, e.b, x);
    if Asks(e) {
      Ide.RequestRefines(Ide.Do(s.ide, Ide.Touch(e.b, x)), e.b);
    }
  }

  lemma BusyAfter(s: State, e: Event)
    requires Inv(s) && Enabled(s, e)
    ensures QueueBusy(After(s, e).ide)
  {
    if e.Interrupt? {
      InterruptBusy(s);
    } else {
      Takes(s, e);
      Idle(s, e.b);
    }
  }

  lemma InterruptBusy(s: State)
    requires Inv(s)
    ensures QueueBusy(Ide.Do(s.ide, Ide.Interrupt))
  {
    var q, t := s.ide.queue, Ide.Do(s.ide, Ide.Interrupt);
    if Ide.CanComplete(s.ide) {
      forall i | 0 <= i < |t.queue| ensures t.queue[i] < |t.store.bufs| && t.store.bufs[t.queue[i]].busy {
        assert t.queue[i] == q[i + 1];
      }
    }
  }

  /** The step on the immediate driver. */
  function Next(m: Ide.Store, e: Event): Ide.Store
    requires !e.Interrupt? && e.b < |m.bufs|
    requires Asks(e) ==> m.bufs[e.b].key.Some? && m.bufs[e.b].key.value in m.disk
  {
    var m1 := Ide.Store(m.disk, m.bufs[e.b := Touched(m.bufs[e.b], e)]);
    if Asks(e) then Ide.Sync(m1, e.b) else m1
  }

  /** The view stays what the cache and the disk hold together. */
  lemma CoherentNext(m: Ide.Store, view: map<Key, Block>, e: Event)
    requires Coherent(m.bufs, m.disk, view) && !e.Interrupt? && e.b < |m.bufs|
    requires !e.Recycle? ==> m.bufs[e.b].key.Some?
    requires e.Recycle? ==> !m.bufs[e.b].busy && !m.bufs[e.b].dirty && e.k in m.disk && NoneHolds(m.bufs, e.k)
    requires (e.Fetch? ==> !m.bufs[e.b].valid) && (e.Pin? ==> m.bufs[e.b].valid)
    ensures Asks(e) ==> m.bufs[e.b].key.value in m.disk
    ensures var r := Next(m, e);
            Coherent(r.bufs, r.disk, if e.Write? || e.Pin? then view[m.bufs[e.b].key.value := e.data] else view)
  {
    assert BufOk(m.bufs[e.b], view);
    match e
    case Hit(b) => BusyCoherent(m.bufs, m.disk, view, b, true);
    case Recycle(b, k) => RecycleCoherent(m.bufs, m.disk, view, b, k);
    case Fetch(b) =>
      ReadCoherent(m.bufs, m.disk, view, b, m.bufs[b].key.value);
      assert m.bufs[b := m.bufs[b]] == m.bufs;
    case Write(b, data) =>
      WriteCoherent(m.bufs, m.disk, view, b, m.bufs[b].key.value, data, false);
      var x := Touched(m.bufs[b], e);
      assert m.bufs[b := x][b := x.(dirty := false, valid := true)] == m.bufs[b := x.(dirty := false, valid := true)];
    case Pin(b, data) =>
      WriteCoherent(m.bufs, m.disk, view, b, m.bufs[b].key.value, data, true);
      assert m.bufs[b].(data := data, valid := true, dirty := true) == Touched(m.bufs[b], e);
    case Release(b) => BusyCoherent(m.bufs, m.disk, view, b, false);
  }

  lemma CoherentAfter(s: State, e: Event)
    requires Inv(s) && Enabled(s, e) && !e.Interrupt?
    ensures Ide.Inv(After(s, e).ide)
    ensures var m := Ide.Abstract(After(s, e).ide); Coherent(m.bufs, m.disk, ViewAfter(s, e))
  {
    AbstractAfter(s, e);
    var m := Ide.Abstract(s.ide);
    if e.Recycle? {
      forall i | 0 <= i < |m.bufs| ensures !Holds(m.bufs[i], e.k) {
        assert m.bufs[i].key == Bufs(s)[i].key && !Holds(Bufs(s)[i], e.k);
      }
    }
    CoherentNext(m, s.view, e);
  }

  lemma StepKeeps(s: State, e: Event)
    requires Inv(s) && Enabled(s, e)
    ensures Inv(After(s, e))
  {
    BusyAfter(s, e);
    if e.Interrupt? {
      Ide.InterruptRefines(s.ide);
    } else {
      AbstractAfter(s, e);
      CoherentAfter(s, e);
    }
  }

  // ----- Runs -----

  ghost predicate IsRun(s: State, es: seq<Event>, s': State)
    decreases es
  {
    if es == [] then s' == s
    else Inv(s) && Enabled(s, es[0]) && IsRun(After(s, es[0]), es[1..], s')
  }

  /** For every interleaving of the processes and the disk: the cache is coherent, a process that does not
      wait finds in its buffer, once that is valid, the last bytes of its sector, and the disk has the
      last bytes of every sector that no buffer is dirty for when the queue is empty. */
  lemma {:induction false} RunKeeps(s: State, es: seq<Event>, s': State)
    requires Inv(s) && IsRun(s, es, s')
    ensures Inv(s')
    ensures forall b: nat :: Has(s', b) && Bufs(s')[b].valid ==>
              Bufs(s')[b].key.value in s'.view && Bufs(s')[b].data == s'.view[Bufs(s')[b].key.value]
    ensures s'.ide.queue == [] ==> Coherent(Bufs(s'), s'.ide.store.disk, s'.view)
    decreases es
  {
    if es == [] {
      forall b: nat | Has(s, b) && Bufs(s)[b].valid
        ensures Bufs(s)[b].key.value in s.view && Bufs(s)[b].data == s.view[Bufs(s)[b].key.value]
      {
        Idle(s, b);
        assert BufOk(Ide.Abstract(s.ide).bufs[b], s.view);
      }
    } else {
      StepKeeps(s, es[0]);
      RunKeeps(After(s, es[0]), es[1..], s');
    }
  }
}

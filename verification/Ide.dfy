/** The disk driver: the queue of ide.c against the immediate transfer of memide.c.

    A process calls iderw on a buffer it holds BUSY and waits; the disk works on the first
    buffer of the queue and interrupts when it is done. */
module Ide {
  import opened Blocks
  import opened Counting
  import opened Cache
  import opened Options

  // ----- memide.c: the specification -----

  datatype Store = Store(disk: map<Key, Block>, bufs: seq<Buf>)

  predicate HasSector(m: Store, b: nat) {
    b < |m.bufs| && m.bufs[b].key.Some? && m.bufs[b].key.value in m.disk
  }

  /** iderw of memide.c: the transfer happens at once. */
  function Sync(m: Store, b: nat): (r: Store)
    requires HasSector(m, b)
    ensures |r.bufs| == |m.bufs| && r.disk.Keys == m.disk.Keys
    ensures forall i :: 0 <= i < |m.bufs| ==> r.bufs[i].key == m.bufs[i].key
  {
    var (x, k) := (m.bufs[b], m.bufs[b].key.value);
    if x.dirty then Store(m.disk[k := x.data], m.bufs[b := x.(dirty := false, valid := true)])
    else Store(m.disk, m.bufs[b := x.(data := m.disk[k], valid := true)])
  }

  predicate AllHaveSectors(m: Store, q: seq<nat>) {
    forall i :: 0 <= i < |q| ==> HasSector(m, q[i])
  }

  /** All transfers of a queue, one after the other. */
  function SyncAll(m: Store, q: seq<nat>): (r: Store)
    requires AllHaveSectors(m, q)
    ensures |r.bufs| == |m.bufs| && r.disk.Keys == m.disk.Keys
    ensures forall i :: 0 <= i < |m.bufs| ==> r.bufs[i].key == m.bufs[i].key
    decreases q
  {
    if q == [] then m else SyncAll(Sync(m, q[0]), q[1..])
  }

  lemma {:induction false} SyncLast(m: Store, q: seq<nat>, b: nat)
    requires AllHaveSectors(m, q) && HasSector(m, b)
    ensures AllHaveSectors(m, q + [b]) && SyncAll(m, q + [b]) == Sync(SyncAll(m, q), b)
    decreases q
  {
    if q == [] {
      assert [b][1..] == [];
    } else {
      assert (q + [b])[1..] == q[1..] + [b];
      SyncLast(Sync(m, q[0]), q[1..], b);
    }
  }

  /** Transfers leave the other buffers alone, and do not look at them. */
  lemma {:induction false} SyncOthers(m: Store, q: seq<nat>, b: nat, x: Buf)
    requires AllHaveSectors(m, q) && b < |m.bufs| && b !in q
    ensures SyncAll(m, q).bufs[b] == m.bufs[b]
    ensures AllHaveSectors(m.(bufs := m.bufs[b := x]), q)
    ensures SyncAll(m.(bufs := m.bufs[b := x]), q) == Store(SyncAll(m, q).disk, SyncAll(m, q).bufs[b := x])
    decreases q
  {
    if q != [] {
      var m' := Sync(m, q[0]);
      SyncOthers(m', q[1..], b, x);
      assert Sync(m.(bufs := m.bufs[b := x]), q[0]).bufs == m'.bufs[b := x];
    }
  }

  // ----- ide.c -----

  /** What the disk was told to do. */
  datatype Command = Read(k: Key) | Write(k: Key, data: Block)

  /** `asked` and `done` list the requests made and finished so far. */
  datatype State = State(store: Store, queue: seq<nat>, active: Option<Command>, asked: seq<nat>, done: seq<nat>)

  /** idestart's command for a buffer. */
  function CommandFor(x: Buf): Option<Command> {
    if x.key.None? then None else Some(if x.dirty then Write(x.key.value, x.data) else Read(x.key.value))
  }

  predicate Finished(x: Buf) {
    x.valid && !x.dirty
  }

  datatype Event =
    | Request(b: nat)
    | Interrupt
    | Touch(b: nat, x: Buf)

  /** A request is for a busy buffer with something to transfer whose owner is not already
      waiting; the owner of a buffer may change it while it does not wait. */
  predicate Enabled(s: State, e: Event) {
    match e {
      case Request(b) => HasSector(s.store, b) && b !in s.queue && s.store.bufs[b].busy && !Finished(s.store.bufs[b])
      case Interrupt => true
      case Touch(b, x) => b < |s.store.bufs| && b !in s.queue && (x.key.Some? ==> x.key.value in s.store.disk)
    }
  }

  /** The disk carries out its command, and ideintr takes the result. */
  function Complete(m: Store, b: nat, c: Command): Store
    requires b < |m.bufs| && c.k in m.disk
  {
    var d := if c.Write? then m.disk[c.k := c.data] else m.disk;
    var data := if m.bufs[b].dirty then m.bufs[b].data else d[c.k];
    Store(d, m.bufs[b := m.bufs[b].(data := data, valid := true, dirty := false)])
  }

  predicate CanComplete(s: State) {
    s.queue != [] && s.active.Some? && s.queue[0] < |s.store.bufs| && s.active.value.k in s.store.disk
  }

  function Start(m: Store, q: seq<nat>): Option<Command> {
    if q == [] || q[0] >= |m.bufs| then None else CommandFor(m.bufs[q[0]])
  }

  function Do(s: State, e: Event): State
    requires Enabled(s, e)
  {
    match e {
      case Request(b) =>
        var q := s.queue + [b];
        s.(queue := q, asked := s.asked + [b], active := if q[0] == b then Start(s.store, q) else s.active)
      case Interrupt =>
        if !CanComplete(s) then s
        else
          var (b, q) := (s.queue[0], s.queue[1..]);
          var m := Complete(s.store, b, s.active.value);
          State(m, q, Start(m, q), s.asked, s.done + [b])
      case Touch(b, x) => s.(store := s.store.(bufs := s.store.bufs[b := x]))
    }
  }

  /** The queue holds waiting buffers once each, the disk works on the first, and requests
      are finished in the order they were made. */
  predicate Inv(s: State) {
    && AllHaveSectors(s.store, s.queue) && Distinct(s.queue)
    && (forall i :: 0 <= i < |s.queue| ==> !Finished(s.store.bufs[s.queue[i]]))
    && s.active == Start(s.store, s.queue)
    && s.asked == s.done + s.queue
  }

  /** What the immediate driver would have done by now. */
  function Abstract(s: State): Store
    requires Inv(s)
  {
    SyncAll(s.store, s.queue)
  }

  /** Completing the first request is the transfer that memide.c makes. */
  lemma CompleteIsSync(s: State)
    requires Inv(s) && s.queue != []
    ensures CanComplete(s) && Complete(s.store, s.queue[0], s.active.value) == Sync(s.store, s.queue[0])
  {
    assert HasSector(s.store, s.queue[0]);
  }

  /** The same events on the immediate driver, where interrupts do nothing. */
  function SpecDo(m: Store, e: Event): Store {
    match e {
      case Request(b) => if HasSector(m, b) then Sync(m, b) else m
      case Interrupt => m
      case Touch(b, x) => if b < |m.bufs| then m.(bufs := m.bufs[b := x]) else m
    }
  }

  lemma RequestQueued(s: State, b: nat)
    requires Inv(s) && Enabled(s, Request(b)) && AllHaveSectors(s.store, s.queue + [b])
    ensures Inv(Do(s, Request(b)))
  {
    assert s.done + (s.queue + [b]) == s.asked + [b];
  }

  lemma RequestRefines(s: State, b: nat)
    requires Inv(s) && Enabled(s, Request(b))
    ensures Inv(Do(s, Request(b))) && Abstract(Do(s, Request(b))) == SpecDo(Abstract(s), Request(b))
    ensures Abstract(s).bufs[b] == s.store.bufs[b]
  {
    SyncLast(s.store, s.queue, b);
    SyncOthers(s.store, s.queue, b, s.store.bufs[b]);
    RequestQueued(s, b);
  }

  lemma InterruptRefines(s: State)
    requires Inv(s)
    ensures Inv(Do(s, Interrupt)) && Abstract(Do(s, Interrupt)) == Abstract(s)
    ensures s.queue != [] ==> CanComplete(s) && Finished(Do(s, Interrupt).store.bufs[s.queue[0]])
  {
    if s.queue != [] {
      CompleteIsSync(s);
      var b, q, s' := s.queue[0], s.queue[1..], Do(s, Interrupt);
      forall i | 0 <= i < |q| ensures HasSector(s'.store, q[i]) && !Finished(s'.store.bufs[q[i]]) {
        assert HasSector(s.store, s.queue[i + 1]);
      }
      assert s.queue == [b] + q;
      assert (s.done + [b]) + q == s.done + ([b] + q);
    }
  }

  lemma TouchRefines(s: State, b: nat, x: Buf)
    requires Inv(s) && Enabled(s, Touch(b, x))
    ensures Inv(Do(s, Touch(b, x))) && Abstract(Do(s, Touch(b, x))) == SpecDo(Abstract(s), Touch(b, x))
  {
    SyncOthers(s.store, s.queue, b, x);
  }

  lemma StepRefines(s: State, e: Event)
    requires Inv(s) && Enabled(s, e)
    ensures Inv(Do(s, e)) && Abstract(Do(s, e)) == SpecDo(Abstract(s), e)
  {
    match e {
      case Request(b) => RequestRefines(s, b);
      case Interrupt => InterruptRefines(s);
      case Touch(b, x) => TouchRefines(s, b, x);
    }
  }

  // ----- Runs -----

  predicate IsRun(s: State, es: seq<Event>)
    decreases es
  {
    es == [] || (Enabled(s, es[0]) && IsRun(Do(s, es[0]), es[1..]))
  }

  function Run(s: State, es: seq<Event>): State
    requires IsRun(s, es)
    decreases es
  {
    if es == [] then s else Run(Do(s, es[0]), es[1..])
  }

  function SpecRun(m: Store, es: seq<Event>): Store
    decreases es
  {
    if es == [] then m else SpecRun(SpecDo(m, es[0]), es[1..])
  }

  /** For every interleaving of requests, owners' changes and interrupts, the queued driver
      is where the immediate driver is, up to the requests still in the queue: a buffer that
      is not in it has the same bytes and flags, and with an empty queue so has the disk.
      Requests finish in the order they were made, and a caller of iderw sees its buffer
      unfinished exactly as long as its request is queued. */
  lemma {:induction false} DriverRefines(s: State, es: seq<Event>)
    requires Inv(s) && IsRun(s, es)
    ensures Inv(Run(s, es)) && Abstract(Run(s, es)) == SpecRun(Abstract(s), es)
    decreases es
  {
    if es != [] {
      StepRefines(s, es[0]);
      DriverRefines(Do(s, es[0]), es[1..]);
    }
  }

  lemma SettledAgrees(s: State, b: nat)
    requires Inv(s) && b < |s.store.bufs|
    ensures b !in s.queue ==> Abstract(s).bufs[b] == s.store.bufs[b]
    ensures s.queue == [] ==> Abstract(s) == s.store
    ensures b in s.queue ==> !Finished(s.store.bufs[b])
  {
    if b !in s.queue {
      SyncOthers(s.store, s.queue, b, s.store.bufs[b]);
    }
  }
}

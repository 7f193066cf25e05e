/** The queue of ide.c as a list through `qnext`. */
module IdeCode {
  import opened Blocks
  import opened Counting
  import opened Cache
  import opened Ide
  import opened Options

  /** Following `qnext` from `p` visits `q` and ends. */
  predicate ListFrom(qnext: seq<Option<nat>>, p: Option<nat>, q: seq<nat>)
    decreases q
  {
    if q == [] then p == None
    else p == Some(q[0]) && q[0] < |qnext| && ListFrom(qnext, qnext[q[0]], q[1..])
  }

  /** Storing into a node that is not on the list. */
  lemma {:induction false} StoreElsewhere(qnext: seq<Option<nat>>, p: Option<nat>, q: seq<nat>, b: nat, v: Option<nat>)
    requires ListFrom(qnext, p, q) && b < |qnext| && b !in q
    ensures ListFrom(qnext[b := v], p, q)
    decreases q
  {
    if q != [] {
      StoreElsewhere(qnext, qnext[q[0]], q[1..], b, v);
    }
  }

  /** Hanging a node that ends a list behind the last node of another. */
  lemma {:induction false} AppendNode(qnext: seq<Option<nat>>, p: Option<nat>, q: seq<nat>, b: nat)
    requires ListFrom(qnext, p, q) && Distinct(q) && q != [] && b < |qnext| && b !in q && qnext[b] == None
    ensures q[|q| - 1] < |qnext| && ListFrom(qnext[q[|q| - 1] := Some(b)], p, q + [b])
    decreases q
  {
    if |q| == 1 {
      assert (q + [b])[1..] == [b] && [b][1..] == [];
    } else {
      AppendNode(qnext, qnext[q[0]], q[1..], b);
      assert (q + [b])[1..] == q[1..] + [b];
    }
  }

  /** The `i`-th node and what follows it. */
  lemma {:induction false} ListAt(qnext: seq<Option<nat>>, p: Option<nat>, q: seq<nat>, i: nat)
    requires ListFrom(qnext, p, q) && i < |q|
    ensures q[i] < |qnext| && ListFrom(qnext, qnext[q[i]], q[i + 1..])
    decreases i
  {
    if i > 0 {
      ListAt(qnext, qnext[q[0]], q[1..], i - 1);
      assert q[1..][i..] == q[i + 1..];
    } else {
      assert q[1..] == q[0 + 1..];
    }
  }

  class Driver {
    var bufs: seq<Buf>
    var qnext: seq<Option<nat>>
    var idequeue: Option<nat>
    var disk: map<Key, Block>
    var active: Option<Command>
    ghost var queue: seq<nat>
    ghost var asked: seq<nat>
    ghost var done: seq<nat>

    ghost function Snapshot(): State
      reads this
    {
      State(Store(disk, bufs), queue, active, asked, done)
    }

    ghost predicate Valid()
      reads this
    {
      Inv(Snapshot()) && |qnext| == |bufs| && ListFrom(qnext, idequeue, queue)
    }

    constructor (d: map<Key, Block>, bs: seq<Buf>)
      ensures Valid() && Snapshot() == State(Store(d, bs), [], None, [], [])
    {
      disk, bufs, idequeue, active := d, bs, None, None;
      qnext := seq(|bs|, _ => None);
      queue, asked, done := [], [], [];
    }

    /** idestart: tell the disk what to do. */
    method Idestart(b: nat)
      requires b < |bufs| && bufs[b].key.Some?
      modifies this`active
      ensures active == CommandFor(bufs[b])
    {
      var x := bufs[b];
      active := Some(if x.dirty then Write(x.key.value, x.data) else Read(x.key.value));
    }

    /** Storing the pointer to `b` where the queue ends. */
    method Append(b: nat)
      requires Valid() && b < |bufs| && b !in queue
      modifies this`qnext, this`idequeue
      ensures |qnext| == |old(qnext)| && ListFrom(qnext, idequeue, queue + [b])
    {
      StoreElsewhere(qnext, idequeue, queue, b, None);
      qnext := qnext[b := None];
      if idequeue.None? {
        idequeue := Some(b);
        assert (queue + [b])[1..] == [];
        return;
      }
      var p := idequeue.value;
      ghost var i := 0;
      ListAt(qnext, idequeue, queue, 0);
      while qnext[p].Some?
        modifies {}
        invariant 0 <= i < |queue| && p == queue[i] && p < |qnext| && ListFrom(qnext, qnext[p], queue[i + 1..])
        decreases |queue| - i
      {
        p, i := qnext[p].value, i + 1;
        ListAt(qnext, idequeue, queue, i);
      }
      AppendNode(qnext, idequeue, queue, b);
      qnext := qnext[p := Some(b)];
    }

    /** iderw up to the loop in which it waits. */
    method Iderw(b: nat)
      requires Valid() && Enabled(Snapshot(), Request(b))
      modifies this`qnext, this`idequeue, this`active, this`queue, this`asked
      ensures Valid() && Snapshot() == Do(old(Snapshot()), Request(b))
    {
      RequestRefines(Snapshot(), b);
      Append(b);
      queue, asked := queue + [b], asked + [b];
      if idequeue == Some(b) {
        Idestart(b);
      }
    }

    /** The transfer of the first buffer, and the flags ideintr sets. */
    method Transfer(b: nat)
      requires b < |bufs| && active.Some? && active.value.k in disk
      modifies this`bufs, this`disk
      ensures Store(disk, bufs) == Complete(old(Store(disk, bufs)), b, active.value)
    {
      if active.value.Write? {
        disk := disk[active.value.k := active.value.data];
      }
      if !bufs[b].dirty {
        bufs := bufs[b := bufs[b].(data := disk[active.value.k])];
      }
      bufs := bufs[b := bufs[b].(valid := true, dirty := false)];
    }

    /** ideintr. */
    method Ideintr()
      requires Valid()
      modifies this`bufs, this`disk, this`idequeue, this`active, this`queue, this`done
      ensures Valid() && Snapshot() == Do(old(Snapshot()), Interrupt)
    {
      InterruptRefines(Snapshot());
      ghost var s' := Do(Snapshot(), Interrupt);
      if idequeue.None? {
        return;
      }
      var b := idequeue.value;
      idequeue := qnext[b];
      assert ListFrom(qnext, idequeue, s'.queue);
      Transfer(b);
      queue, done := queue[1..], done + [b];
      if idequeue.Some? {
        assert idequeue.value == s'.queue[0] && HasSector(s'.store, s'.queue[0]);
        Idestart(idequeue.value);
      } else {
        active := None;
      }
    }
  }
}

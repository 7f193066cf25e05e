/** bio.c as code.  Every method is one step of some process, so what they all keep holds
    under any interleaving; a process only passes buffers it holds BUSY. */
module CacheCode {
  import opened Blocks
  import opened Cache
  import opened Options

  datatype Got = Hit(b: nat) | Sleeps(b: nat) | Recycled(b: nat) | NoBuffers

  class BufferCache {
    var bufs: seq<Buf>
    var next: seq<nat>
    var prev: seq<nat>
    var disk: map<Key, Block>
    ghost var order: seq<nat>
    ghost var stamp: seq<nat>
    ghost var now: nat
    ghost var view: map<Key, Block>

    ghost predicate Valid()
      reads this
    {
      && |next| == |bufs| + 1 && |stamp| == |bufs|
      && Ring(next, prev, order, |bufs|) && AllOf(order, |bufs|) && MostRecentFirst(order, stamp)
      && (forall b :: 0 <= b < |bufs| ==> stamp[b] < now)
      && Coherent(bufs, disk, view)
    }

    /** binit, for `n` buffers over a given disk. */
    constructor (n: nat, d: map<Key, Block>)
      ensures Valid() && |bufs| == n && disk == d && view == d
      ensures forall b :: 0 <= b < n ==> bufs[b] == Buf(None, false, false, false, Zero)
    {
      bufs := seq(n, _ => Buf(None, false, false, false, Zero));
      next := seq(n + 1, _ => n);
      prev := seq(n + 1, _ => n);
      disk, view, order, now := d, d, [], n;
      stamp := seq(n, i => i);
      new;
      assert LinkAt(next, prev, order, n, 0);
      var b := 0;
      while b < n
        modifies this`next, this`prev, this`order
        invariant 0 <= b <= n && |next| == n + 1
        invariant Ring(next, prev, order, n) && |order| == b && forall i :: 0 <= i < b ==> order[i] == b - 1 - i
      {
        PushFront(next, prev, order, n, b);
        next := next[b := next[n]];
        prev := prev[b := n];
        prev := prev[next[n] := b];
        next := next[n := b];
        order := [b] + order;
        b := b + 1;
      }
      forall x | 0 <= x < n ensures x in order {
        assert order[n - 1 - x] == x;
      }
    }
  
    /** The loop along `next` that looks for a sector; the head stands for none. */
    method FindCached(k: Key) returns (b: nat)
      requires Valid()
      ensures b <= |bufs| && (b < |bufs| ==> Holds(bufs[b], k))
      ensures b == |bufs| ==> NoneHolds(bufs, k)
    {
      assert LinkAt(next, prev, order, |bufs|, 0);
      b := next[|bufs|];
      ghost var i := 1;
      while b != |bufs|
        invariant 1 <= i <= |order| + 1 && b == Node(order, |bufs|, i)
        invariant forall j :: 0 <= j < i - 1 ==> !Holds(bufs[order[j]], k)
        decreases |order| + 1 - i
      {
        if bufs[b].key == Some(k) {
          return;
        }
        assert LinkAt(next, prev, order, |bufs|, i);
        b, i := next[b], i + 1;
      }
      forall x | 0 <= x < |bufs| ensures !Holds(bufs[x], k) {
        assert x in order;
        var j :| 0 <= j < |order| && order[j] == x;
      }
    }

    /** The loop along `prev` that looks for the least recently released buffer to reuse. */
    method FindFree() returns (b: nat)
      requires Valid()
      ensures b <= |bufs| && (b < |bufs| ==> !bufs[b].busy && !bufs[b].dirty)
      ensures forall x :: 0 <= x < |bufs| && (b < |bufs| ==> stamp[x] < stamp[b]) ==> bufs[x].busy || bufs[x].dirty
    {
      assert LinkAt(next, prev, order, |bufs|, |order|);
      b := prev[|bufs|];
      ghost var i := |order|;
      while b != |bufs| && (bufs[b].busy || bufs[b].dirty)
        invariant 0 <= i <= |order| && b == Node(order, |bufs|, i)
        invariant forall j :: i <= j < |order| ==> bufs[order[j]].busy || bufs[order[j]].dirty
        decreases i
      {
        assert LinkAt(next, prev, order, |bufs|, i - 1);
        b, i := prev[b], i - 1;
      }
      forall x | 0 <= x < |bufs| && (b < |bufs| ==> stamp[x] < stamp[b]) ensures bufs[x].busy || bufs[x].dirty {
        assert x in order;
        var j :| 0 <= j < |order| && order[j] == x;
      }
    }

    /** bget up to its return, its sleep or its panic. */
    method Bget(k: Key) returns (r: Got)
      requires Valid() && k in disk
      modifies this`bufs
      ensures Valid() && |bufs| == |old(bufs)|
      ensures match r {
        case Hit(b) =>
          && b < |bufs| && Holds(old(bufs)[b], k) && !old(bufs)[b].busy
          && bufs == old(bufs)[b := old(bufs)[b].(busy := true)]
        case Sleeps(b) => b < |bufs| && Holds(bufs[b], k) && bufs[b].busy && bufs == old(bufs)
        case Recycled(b) =>
          && b < |bufs| && !old(bufs)[b].busy && !old(bufs)[b].dirty && NoneHolds(old(bufs), k)
          && bufs == old(bufs)[b := Buf(Some(k), true, false, false, old(bufs)[b].data)]
          && (forall i :: 0 <= i < |bufs| && stamp[i] < stamp[b] ==> old(bufs)[i].busy || old(bufs)[i].dirty)
        case NoBuffers =>
          bufs == old(bufs) && NoneHolds(bufs, k) && forall i :: 0 <= i < |bufs| ==> bufs[i].busy || bufs[i].dirty
      }
    {
      var b := FindCached(k);
      if b != |bufs| {
        if !bufs[b].busy {
          assert BufOk(bufs[b], view);
          BusyCoherent(bufs, disk, view, b, true);
          bufs := bufs[b := bufs[b].(busy := true)];
          return Hit(b);
        }
        return Sleeps(b);
      }
      b := FindFree();
      if b != |bufs| {
        RecycleCoherent(bufs, disk, view, b, k);
        bufs := bufs[b := Buf(Some(k), true, false, false, bufs[b].data)];
        return Recycled(b);
      }
      return NoBuffers;
    }

    /** bread, when bget does not have to wait: the caller sees the sector's last bytes. */
    method Bread(k: Key) returns (r: Got)
      requires Valid() && k in disk
      modifies this`bufs
      ensures Valid() && |bufs| == |old(bufs)|
      ensures r.Sleeps? ==> bufs == old(bufs) && r.b < |bufs| && Holds(bufs[r.b], k) && bufs[r.b].busy
      ensures r.NoBuffers? ==> bufs == old(bufs) && NoneHolds(bufs, k)
      ensures r.NoBuffers? ==> forall i :: 0 <= i < |bufs| ==> bufs[i].busy || bufs[i].dirty
      ensures r.Hit? || r.Recycled? ==> r.b < |bufs| && !old(bufs)[r.b].busy && bufs[r.b].busy
      ensures r.Hit? || r.Recycled? ==> Holds(bufs[r.b], k) && bufs[r.b].valid && bufs[r.b].data == view[k]
      ensures r.Hit? || r.Recycled? ==> forall i :: 0 <= i < |bufs| && i != r.b ==> bufs[i] == old(bufs)[i]
      ensures r.Hit? || r.Recycled? ==> bufs[r.b].dirty == old(bufs)[r.b].dirty
      ensures r.Hit? ==> Holds(old(bufs)[r.b], k)
      ensures r.Recycled? ==> NoneHolds(old(bufs), k) && !old(bufs)[r.b].dirty
      ensures r.Recycled? ==> forall i ::
                                0 <= i < |bufs| && stamp[i] < stamp[r.b] ==> old(bufs)[i].busy || old(bufs)[i].dirty
    {
      r := Bget(k);
      if r.Hit? || r.Recycled? {
        assert BufOk(bufs[r.b], view);
        if !bufs[r.b].valid {
          ReadCoherent(bufs, disk, view, r.b, k);
          bufs := bufs[r.b := bufs[r.b].(valid := true, data := disk[k])];
        }
      }
    }

    /** The caller's bytes and bwrite. */
    method Bwrite(b: nat, data: Block)
      requires Valid() && b < |bufs| && bufs[b].busy && bufs[b].key.Some?
      modifies this`bufs, this`disk, this`view
      ensures Valid() && bufs == old(bufs)[b := old(bufs)[b].(data := data, valid := true, dirty := false)]
      ensures view == old(view)[bufs[b].key.value := data] && disk == old(disk)[bufs[b].key.value := data]
    {
      var k := bufs[b].key.value;
      WriteCoherent(bufs, disk, view, b, k, data, false);
      bufs := bufs[b := bufs[b].(data := data, valid := true, dirty := false)];
      disk, view := disk[k := data], view[k := data];
    }

    /** The caller's bytes and the mark that log_write leaves on the buffer: no disk write. */
    method Pin(b: nat, data: Block)
      requires Valid() && b < |bufs| && bufs[b].busy && bufs[b].valid && bufs[b].key.Some?
      modifies this`bufs, this`view
      ensures Valid() && bufs == old(bufs)[b := old(bufs)[b].(data := data, dirty := true)]
      ensures view == old(view)[bufs[b].key.value := data]
    {
      var k := bufs[b].key.value;
      WriteCoherent(bufs, disk, view, b, k, data, true);
      bufs := bufs[b := bufs[b].(data := data, dirty := true)];
      view := view[k := data];
    }

    /** The six stores of brelse that move node `b` behind the head. */
    method Relink(b: nat, ghost i: nat)
      requires |next| == |bufs| + 1 && Ring(next, prev, order, |bufs|) && AllOf(order, |bufs|) && i < |order|
      requires order[i] == b
      modifies this`next, this`prev
      ensures |next| == |bufs| + 1 && Ring(next, prev, [b] + Without(order, i), |bufs|)
    {
      Unlink(next, prev, order, |bufs|, i);
      prev := prev[next[b] := prev[b]];
      next := next[prev[b] := next[b]];
      PushFront(next, prev, Without(order, i), |bufs|, b);
      next := next[b := next[|bufs|]];
      prev := prev[b := |bufs|];
      prev := prev[next[|bufs|] := b];
      next := next[|bufs| := b];
    }

    /** brelse: the buffer becomes the most recently used. */
    method Brelse(b: nat)
      requires Valid() && b < |bufs| && bufs[b].busy
      modifies this`bufs, this`next, this`prev, this`order, this`stamp, this`now
      ensures Valid() && bufs == old(bufs)[b := old(bufs)[b].(busy := false)]
      ensures exists i: nat :: i < |old(order)| && old(order)[i] == b && order == [b] + Without(old(order), i)
      ensures stamp == old(stamp)[b := old(now)]
    {
      assert BufOk(bufs[b], view) && b in order;
      ghost var i: nat :| i < |order| && order[i] == b;
      MoveToFront(order, stamp, i, now);
      Relink(b, i);
      order := [b] + Without(order, i);
      stamp, now := stamp[b := now], now + 1;
      BusyCoherent(bufs, disk, view, b, false);
      bufs := bufs[b := bufs[b].(busy := false)];
    }
  }
}

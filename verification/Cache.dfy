/** The buffer cache (bio.c): a ring of buffers in order of last use, and what they hold.

    Buffers are numbered; one more node is the ring's head.  `view` is what a reader should
    see of each sector: the last bytes given to bwrite or log_write, or else the disk. */
module Cache {
  import opened Blocks
  import opened Counting
  import opened Options

  // ----- The ring -----

  /** Node `i` on the way round: the head, then `order`, then the head again. */
  function Node(order: seq<nat>, head: nat, i: nat): nat
    requires i <= |order| + 1
  {
    if 1 <= i <= |order| then order[i - 1] else head
  }

  predicate LinkAt(next: seq<nat>, prev: seq<nat>, order: seq<nat>, head: nat, i: nat)
    requires i <= |order|
  {
    var (a, b) := (Node(order, head, i), Node(order, head, i + 1));
    a < |next| && b < |prev| && next[a] == b && prev[b] == a
  }

  /** Following `next` from the head visits `order` and returns; `prev` goes back. */
  ghost predicate Ring(next: seq<nat>, prev: seq<nat>, order: seq<nat>, head: nat) {
    && |next| == |prev| && head !in order && Distinct(order)
    && forall i: nat {:trigger LinkAt(next, prev, order, head, i)} ::
         i <= |order| ==> LinkAt(next, prev, order, head, i)
  }

  /** Putting a node that is not on the ring behind the head. */
  lemma PushFront(next: seq<nat>, prev: seq<nat>, order: seq<nat>, head: nat, b: nat)
    requires Ring(next, prev, order, head) && b < |next| && b != head && b !in order
    ensures head < |next| && next[head] < |next|
    ensures Ring(next[b := next[head]][head := b], prev[b := head][next[head] := b], [b] + order, head)
  {
    assert LinkAt(next, prev, order, head, 0);
    var next', prev', order' := next[b := next[head]][head := b], prev[b := head][next[head] := b], [b] + order;
    forall i: nat | i <= |order'| ensures LinkAt(next', prev', order', head, i) {
      if i >= 1 {
        assert LinkAt(next, prev, order, head, i - 1);
      }
    }
  }

  function Without(order: seq<nat>, i: nat): seq<nat>
    requires i < |order|
  {
    order[..i] + order[i + 1..]
  }

  /** Taking a node out. */
  lemma Unlink(next: seq<nat>, prev: seq<nat>, order: seq<nat>, head: nat, i: nat)
    requires Ring(next, prev, order, head) && i < |order|
    ensures order[i] < |next| && prev[order[i]] < |next| && next[order[i]] < |prev|
    ensures Ring(next[prev[order[i]] := next[order[i]]], prev[next[order[i]] := prev[order[i]]],
                 Without(order, i), head)
    ensures order[i] !in Without(order, i)
  {
    assert LinkAt(next, prev, order, head, i) && LinkAt(next, prev, order, head, i + 1);
    var b, order' := order[i], Without(order, i);
    var next', prev' := next[prev[b] := next[b]], prev[next[b] := prev[b]];
    forall j: nat | j <= |order'| ensures LinkAt(next', prev', order', head, j) {
      assert LinkAt(next, prev, order, head, if j < i then j else j + 1);
    }
  }

  /** `order` is a permutation of the buffers. */
  predicate AllOf(order: seq<nat>, n: nat) {
    && |order| == n && Distinct(order)
    && (forall i :: 0 <= i < n ==> order[i] < n) && (forall b :: 0 <= b < n ==> b in order)
  }

  /** `order` goes from the most to the least recent in `stamp`. */
  ghost predicate MostRecentFirst(order: seq<nat>, stamp: seq<nat>) {
    && (forall i :: 0 <= i < |order| ==> order[i] < |stamp|)
    && forall i, j :: 0 <= i < j < |order| ==> stamp[order[j]] < stamp[order[i]]
  }

  /** Moving the buffer just released to the front keeps both. */
  lemma MoveToFront(order: seq<nat>, stamp: seq<nat>, i: nat, now: nat)
    requires AllOf(order, |stamp|) && MostRecentFirst(order, stamp) && i < |order|
    requires forall b :: 0 <= b < |stamp| ==> stamp[b] < now
    ensures AllOf([order[i]] + Without(order, i), |stamp|)
    ensures MostRecentFirst([order[i]] + Without(order, i), stamp[order[i] := now])
  {
    var b, w := order[i], Without(order, i);
    var order' := [b] + w;
    forall x | 0 <= x < |stamp| ensures x in order' {
      assert x in order;
      var k :| 0 <= k < |order| && order[k] == x;
      assert k == i || order'[if k < i then k + 1 else k] == x;
    }
    forall k | 0 <= k < |w| ensures w[k] != b && w[k] < |stamp| {
      assert w[k] == order[if k < i then k else k + 1];
    }
  }

  // ----- What the buffers hold -----

  datatype Key = Key(dev: nat, sector: nat)

  datatype Buf = Buf(key: Option<Key>, busy: bool, valid: bool, dirty: bool, data: Block)

  predicate Holds(b: Buf, k: Key) {
    b.key == Some(k)
  }

  predicate NoneHolds(bufs: seq<Buf>, k: Key) {
    forall i :: 0 <= i < |bufs| ==> !Holds(bufs[i], k)
  }

  predicate BufOk(b: Buf, view: map<Key, Block>) {
    match b.key {
      case None => !b.busy && !b.valid && !b.dirty
      case Some(k) => k in view && (b.valid ==> b.data == view[k]) && (!b.valid ==> !b.dirty)
    }
  }

  predicate KeysDiffer(bs: seq<Buf>, i: nat, j: nat)
    requires i < |bs| && j < |bs|
  {
    bs[i].key.Some? ==> bs[i].key != bs[j].key
  }

  /** Sector `k` is up to date on disk, or a dirty buffer has it. */
  ghost predicate Backed(bs: seq<Buf>, disk: map<Key, Block>, view: map<Key, Block>, k: Key)
    requires k in disk && k in view
  {
    disk[k] == view[k] || exists i :: 0 <= i < |bs| && bs[i].dirty && Holds(bs[i], k)
  }

  ghost predicate Coherent(bs: seq<Buf>, disk: map<Key, Block>, view: map<Key, Block>) {
    && disk.Keys == view.Keys
    && (forall i: nat, j: nat {:trigger KeysDiffer(bs, i, j)} :: i < j < |bs| ==> KeysDiffer(bs, i, j))
    && (forall i :: 0 <= i < |bs| ==> BufOk(bs[i], view))
    && (forall k {:trigger Backed(bs, disk, view, k)} :: k in disk ==> Backed(bs, disk, view, k))
  }

  lemma Unique(bs: seq<Buf>, disk: map<Key, Block>, view: map<Key, Block>, i: nat, j: nat, k: Key)
    requires Coherent(bs, disk, view) && i < |bs| && j < |bs| && Holds(bs[i], k) && Holds(bs[j], k)
    ensures i == j
  {
    assert i < j ==> KeysDiffer(bs, i, j);
    assert j < i ==> KeysDiffer(bs, j, i);
  }

  /** Reusing a clean idle buffer for a sector nobody caches loses nothing. */
  lemma RecycleCoherent(bs: seq<Buf>, disk: map<Key, Block>, view: map<Key, Block>, b: nat, k: Key)
    requires Coherent(bs, disk, view) && b < |bs| && !bs[b].busy && !bs[b].dirty && k in disk
    requires forall i :: 0 <= i < |bs| ==> !Holds(bs[i], k)
    ensures Coherent(bs[b := Buf(Some(k), true, false, false, bs[b].data)], disk, view)
  {
    var bs' := bs[b := Buf(Some(k), true, false, false, bs[b].data)];
    forall i: nat, j: nat | i < j < |bs| ensures KeysDiffer(bs', i, j) {
      assert KeysDiffer(bs, i, j) && !Holds(bs[i], k) && !Holds(bs[j], k);
    }
    forall q | q in disk ensures Backed(bs', disk, view, q) {
      KeptBacked(bs, disk, view, bs', disk, view, b, q);
    }
  }

  /** A sector that another buffer backs stays backed. */
  lemma KeptBacked(bs: seq<Buf>, disk: map<Key, Block>, view: map<Key, Block>, bs': seq<Buf>, disk': map<Key, Block>,
                   view': map<Key, Block>, b: nat, k: Key)
    requires k in disk && k in view && k in disk' && k in view' && Backed(bs, disk, view, k)
    requires disk'[k] == disk[k] && view'[k] == view[k] && b < |bs| == |bs'|
    requires forall i :: 0 <= i < |bs| && i != b ==> bs'[i] == bs[i]
    requires bs[b].dirty && Holds(bs[b], k) ==> bs'[b].dirty && Holds(bs'[b], k)
    ensures Backed(bs', disk', view', k)
  {
    if disk[k] != view[k] {
      var i :| 0 <= i < |bs| && bs[i].dirty && Holds(bs[i], k);
      assert bs'[i].dirty && Holds(bs'[i], k);
    }
  }

  /** What a missing sector reads from disk is what it should be. */
  lemma ReadCoherent(bs: seq<Buf>, disk: map<Key, Block>, view: map<Key, Block>, b: nat, k: Key)
    requires Coherent(bs, disk, view) && b < |bs| && Holds(bs[b], k) && !bs[b].valid
    ensures k in disk && disk[k] == view[k]
    ensures Coherent(bs[b := bs[b].(valid := true, data := disk[k])], disk, view)
  {
    var bs' := bs[b := bs[b].(valid := true, data := disk[k])];
    assert BufOk(bs[b], view) && Backed(bs, disk, view, k);
    if disk[k] != view[k] {
      var i :| 0 <= i < |bs| && bs[i].dirty && Holds(bs[i], k);
      Unique(bs, disk, view, i, b, k);
    }
    forall i: nat, j: nat | i < j < |bs| ensures KeysDiffer(bs', i, j) {
      assert KeysDiffer(bs, i, j);
    }
    forall q | q in disk ensures Backed(bs', disk, view, q) {
      KeptBacked(bs, disk, view, bs', disk, view, b, q);
    }
  }

  /** New bytes in a busy buffer: written to disk at once by bwrite, or pinned by log_write. */
  lemma WriteCoherent(bs: seq<Buf>, disk: map<Key, Block>, view: map<Key, Block>, b: nat, k: Key, data: Block,
                      pin: bool)
    requires Coherent(bs, disk, view) && b < |bs| && Holds(bs[b], k)
    ensures k in disk
    ensures Coherent(bs[b := bs[b].(data := data, valid := true, dirty := pin)],
                     if pin then disk else disk[k := data], view[k := data])
  {
    var bs' := bs[b := bs[b].(data := data, valid := true, dirty := pin)];
    var disk', view' := if pin then disk else disk[k := data], view[k := data];
    assert BufOk(bs[b], view);
    forall i: nat, j: nat | i < j < |bs| ensures KeysDiffer(bs', i, j) {
      assert KeysDiffer(bs, i, j);
    }
    forall i: nat | i < |bs| ensures BufOk(bs'[i], view') {
      assert BufOk(bs[i], view);
      if Holds(bs[i], k) {
        Unique(bs, disk, view, i, b, k);
      }
    }
    forall q | q in disk ensures Backed(bs', disk', view', q) {
      if q != k {
        assert Backed(bs, disk, view, q);
        KeptBacked(bs, disk, view, bs', disk', view', b, q);
      } else if pin {
        assert bs'[b].dirty && Holds(bs'[b], k);
      }
    }
  }

  /** Only the busy flag changes. */
  lemma BusyCoherent(bs: seq<Buf>, disk: map<Key, Block>, view: map<Key, Block>, b: nat, busy: bool)
    requires Coherent(bs, disk, view) && b < |bs| && bs[b].key.Some?
    ensures Coherent(bs[b := bs[b].(busy := busy)], disk, view)
  {
    var bs' := bs[b := bs[b].(busy := busy)];
    assert BufOk(bs[b], view);
    forall i: nat, j: nat | i < j < |bs| ensures KeysDiffer(bs', i, j) {
      assert KeysDiffer(bs, i, j);
    }
    forall q | q in disk ensures Backed(bs', disk, view, q) {
      KeptBacked(bs, disk, view, bs', disk, view, b, q);
    }
  }
}

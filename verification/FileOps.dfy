/** The calls of fs.c that change files, one after the other, as functions: on the disk with the
    writes they log, and on flat byte sequences. */
module FileOps {
  import opened Blocks
  import opened Files
  import opened FileBytes
  import opened FileSteps
  import opened DiskInodes
  import opened FileLog
  import opened Buffers
  import opened FileTrail
  import opened TruncLog
  import opened TruncTrail
  import Log

  /** writei, itrunc, and iupdate after changes to the inode's metadata. */
  datatype Op = WriteOp(k: nat, off: nat, src: seq<Byte>) | TruncOp(k: nat) | UpdateOp(k: nat, meta: Meta)

  /** A call on one of `n` inodes, with C's unsigned numbers. */
  predicate CanDo(n: nat, op: Op) {
    op.k < n && (op.WriteOp? ==> op.off < UINT_LIMIT && |op.src| < UINT_LIMIT)
  }

  predicate CanDoAll(n: nat, ops: seq<Op>) {
    forall i {:trigger ops[i]} :: 0 <= i < |ops| ==> CanDo(n, ops[i])
  }

  // ----- On flat files -----

  /** The bytes and the metadata of each file. */
  datatype Flat = Flat(bytes: seq<seq<Byte>>, metas: seq<Meta>)

  function FlatOp(f: Flat, op: Op): (r: Flat)
    ensures |r.bytes| == |f.bytes| && |r.metas| == |f.metas|
  {
    if op.k >= |f.bytes| || op.k >= |f.metas| then f
    else match op
      case WriteOp(k, off, src) =>
        if off <= |f.bytes[k]| && off + |src| <= MAXFILE * BSIZE
        then f.(bytes := f.bytes[k := Splice(f.bytes[k], off, src)]) else f
      case TruncOp(k) => f.(bytes := f.bytes[k := []])
      case UpdateOp(k, meta) => f.(metas := f.metas[k := meta])
  }

  function FlatRun(f: Flat, ops: seq<Op>, n: nat): (r: Flat)
    requires n <= |ops|
    ensures |r.bytes| == |f.bytes| && |r.metas| == |f.metas|
  {
    if n == 0 then f else FlatOp(FlatRun(f, ops, n - 1), ops[n - 1])
  }

  // ----- On images -----

  function AfterOp(sb: Super, e: Image, op: Op): Image {
    if !e.ok then e
    else match op
      case WriteOp(k, off, src) => AfterWrite(sb, e, k, off, src)
      case TruncOp(k) => AfterTrunc(sb, e, k)
      case UpdateOp(k, meta) =>
        if k >= |e.inodes| then e else AfterUpdate(e.(inodes := e.inodes[k := e.inodes[k].(meta := meta)]), k)
  }

  function AfterOps(sb: Super, e: Image, ops: seq<Op>, n: nat): Image
    requires n <= |ops|
  {
    if n == 0 then e else AfterOp(sb, AfterOps(sb, e, ops, n - 1), ops[n - 1])
  }

  /** What the calls do to the disk is what they log. */
  lemma {:induction false} OpsApplied(sb: Super, d: Disk, e: Image, ops: seq<Op>, n: nat)
    requires n <= |ops| && Applied(d, e)
    ensures Applied(d, AfterOps(sb, e, ops, n))
  {
    if n > 0 {
      OpsApplied(sb, d, e, ops, n - 1);
      OpApplied(sb, d, AfterOps(sb, e, ops, n - 1), ops[n - 1]);
    }
  }

  lemma OpApplied(sb: Super, d: Disk, e: Image, op: Op)
    requires Applied(d, e)
    ensures Applied(d, AfterOp(sb, e, op))
  {
    match op
    case WriteOp(k, off, src) => WriteApplied(sb, d, e, k, off, src);
    case TruncOp(k) => TruncApplied(sb, d, e, k);
    case UpdateOp(k, meta) =>
      if k < |e.inodes| {
        UpdateApplied(d, e.(inodes := e.inodes[k := e.inodes[k].(meta := meta)]), k);
      }
  }

  // ----- The trail -----

  lemma UpdateAgrees(e: Image, k: nat)
    requires Agrees(e)
    ensures Agrees(AfterUpdate(e, k))
  {
    if e.ok && k < |e.inodes| && InodeBlock(k) < |e.d| {
      var d := PutInode(e.d, k, e.inodes[k]);
      StoreFair(Bare, e, d, e.inodes, Log.Write(InodeBlock(k), d[InodeBlock(k)]));
    }
  }

  lemma TruncAgrees(sb: Super, e: Image, k: nat)
    requires Agrees(e)
    ensures Agrees(AfterTrunc(sb, e, k))
  {
    if e.ok && k < |e.inodes| {
      var ps, tr := TreeBlocks(e.d, e.inodes[k]), TreeOn(e.trail, sb, e.d, e.inodes[k]);
      var f := FreeList(sb, e, ps);
      if f.ok {
        FreeListed(sb, e, ps);
        TreePuts(e.trail, sb, e.d, e.inodes[k]);
        UpdateAgrees(f.(inodes := e.inodes[k := Emptied(e.inodes[k])], trail := tr), k);
      }
    }
  }

  lemma OpAgrees(sb: Super, e: Image, op: Op)
    requires Agrees(e)
    ensures Agrees(AfterOp(sb, e, op))
  {
    match op
    case WriteOp(k, off, src) => WriteFair(sb, Bare, e, k, off, src);
    case TruncOp(k) => TruncAgrees(sb, e, k);
    case UpdateOp(k, meta) =>
      if k < |e.inodes| {
        UpdateAgrees(e.(inodes := e.inodes[k := e.inodes[k].(meta := meta)]), k);
      }
  }

  /** The trail of the calls has the log_writes of their log. */
  lemma {:induction false} OpsAgree(sb: Super, e: Image, ops: seq<Op>, n: nat)
    requires n <= |ops| && Agrees(e)
    ensures Agrees(AfterOps(sb, e, ops, n))
  {
    if n > 0 {
      OpsAgree(sb, e, ops, n - 1);
      OpAgrees(sb, AfterOps(sb, e, ops, n - 1), ops[n - 1]);
    }
  }

  /** No sector is asked for while it is held, and what is done under a buffer ends with a log_write. */
  ghost predicate Orderly(tr: Trail) {
    Calm({}, tr) && InnerEnds(tr)
  }

  /** Every call on a sound image keeps that. */
  lemma OpOrderly(sb: Super, e: Image, o: Owner, op: Op)
    requires e.ok && Agrees(e) && Orderly(e.trail) && Sound(sb, e.d, e.inodes, o) && op.k < |e.inodes|
    ensures AfterOp(sb, e, op).ok ==> Orderly(AfterOp(sb, e, op).trail)
  {
    match op
    case WriteOp(k, off, src) =>
      var v := Fit(Log.Layout(0, 0), 0);
      WriteFair(sb, v, e, k, off, src);
    case TruncOp(k) =>
      TreeCalm(e.trail, sb, e.d, e.inodes, o, k);
      TreeEnd(e.trail, sb, e.d, e.inodes[k]);
    case UpdateOp(k, meta) =>
  }

  /** Nothing follows a panic. */
  lemma {:induction false} OpsStop(sb: Super, e: Image, ops: seq<Op>, m: nat, n: nat)
    requires m <= n <= |ops| && !AfterOps(sb, e, ops, m).ok
    ensures AfterOps(sb, e, ops, n) == AfterOps(sb, e, ops, m)
  {
    if m < n {
      OpsStop(sb, e, ops, m, n - 1);
    }
  }

  // ----- The metadata -----

  function MetasOf(inodes: seq<Inode>): (ms: seq<Meta>)
    ensures |ms| == |inodes| && forall j :: 0 <= j < |ms| ==> ms[j] == inodes[j].meta
  {
    seq(|inodes|, (j: nat) requires j < |inodes| => inodes[j].meta)
  }

  /** writei leaves the metadata alone. */
  lemma WriteMetas(sb: Super, e: Image, k: nat, off: nat, src: seq<Byte>)
    ensures MetasOf(AfterWrite(sb, e, k, off, src).inodes) == MetasOf(e.inodes)
  {
    var turn, ms := OneTurn(sb, k, off, src), MetasOf(e.inodes);
    forall f: Image, u: nat ensures MetasOf(f.inodes) == ms ==> MetasOf(turn(f, u).inodes) == ms {
      TurnMetas(sb, f, k, off, src, u);
    }
    LoopMetas(turn, ms, e, off, |src|, 0);
    SizeMetas(WriteBytes(sb, e, k, off, src), k, off + |src|);
  }

  lemma SizeMetas(e: Image, k: nat, z: nat)
    ensures MetasOf(SetSize(e, k, z).inodes) == MetasOf(e.inodes)
  {
  }

  lemma TurnMetas(sb: Super, e: Image, k: nat, off: nat, src: seq<Byte>, t: nat)
    ensures MetasOf(OneTurn(sb, k, off, src)(e, t).inodes) == MetasOf(e.inodes)
  {
    if t < |src| {
      MapMetas(sb, e, k, (off + t) / BSIZE);
      PutMetas(sb, MapBlock(sb, e, k, (off + t) / BSIZE), k, off + t, src[t..t + Step(off + t, |src| - t)]);
    }
  }

  lemma PutMetas(sb: Super, e: Image, k: nat, off: nat, part: seq<Byte>)
    ensures PutBytes(sb, e, k, off, part).inodes == e.inodes
  {
  }

  lemma {:induction false} LoopMetas(turn: (Image, nat) -> Image, ms: seq<Meta>, e: Image, off: nat, n: nat, t: nat)
    requires MetasOf(e.inodes) == ms
    requires forall f: Image, u: nat {:trigger turn(f, u)} ::
               MetasOf(f.inodes) == ms ==> MetasOf(turn(f, u).inodes) == ms
    ensures MetasOf(Loop(turn, e, off, n, t).inodes) == ms
    decreases n - t
  {
    if t < n && e.ok {
      LoopMetas(turn, ms, turn(e, t), off, n, t + Step(off + t, n - t));
    }
  }

  lemma GrantMetas(sb: Super, e: Image, k: nat, s: Slot)
    ensures MetasOf(Grant(sb, e, k, s).inodes) == MetasOf(e.inodes)
  {
  }

  lemma MapMetas(sb: Super, e: Image, k: nat, bn: nat)
    ensures MetasOf(MapBlock(sb, e, k, bn).inodes) == MetasOf(e.inodes)
  {
    match DataSlot(bn)
    case Direct(i) => GrantMetas(sb, e, k, Direct(i));
    case SingleEntry(i) =>
      GrantMetas(sb, e, k, Single);
      GrantMetas(sb, Grant(sb, e, k, Single), k, SingleEntry(i));
    case Leaf(i, j) =>
      GrantMetas(sb, e, k, Double);
      GrantMetas(sb, Grant(sb, e, k, Double), k, DoubleEntry(i));
      GrantMetas(sb, Grant(sb, Grant(sb, e, k, Double), k, DoubleEntry(i)), k, Leaf(i, j));
    case _ =>
  }
}

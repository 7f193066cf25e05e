/** The calls of fs.c as functions on the disk, the inodes and the writes handed to log_write.  They
    say exactly what a write logs, so that it can be known before the call. */
module FileLog {
  import opened Blocks
  import opened Files
  import opened FileBytes
  import opened FileSteps
  import opened DiskInodes
  import opened Buffers
  import Log

  /** `log` lists the writes handed to log_write and `trail` says how the buffers were used; `ok` is false
      once balloc has panicked. */
  datatype Image = Image(d: Disk, inodes: seq<Inode>, log: Log.Txn, ok: bool, trail: Trail)

  /** At begin_trans. */
  function ImageOf(d: Disk, inodes: seq<Inode>): Image {
    Image(d, inodes, [], true, Start)
  }

  /** The trail has the log_writes of the log. */
  predicate Agrees(e: Image) {
    SectorList(e.log) == Puts(e.trail)
  }

  /** The log_writes of one allocation, in order. */
  function AllocWrites(sb: Super, d: Disk, q: nat, s: Slot, b: nat): Log.Txn
    requires |d| == sb.size && DataStart(sb) <= b < sb.size && Legal(s) && q < sb.size
  {
    [Log.Write(BitBlock(sb, b), SetUsed(sb, d, b, true)[BitBlock(sb, b)]), Log.Write(b, Zero)] +
    if InInode(s) then [] else [Log.Write(q, AllocDisk(sb, d, q, s, b)[q])]
  }

  lemma AllocListed(sb: Super, d: Disk, q: nat, s: Slot, b: nat, t: Log.Txn)
    requires |d| == sb.size && DataStart(sb) <= b < sb.size && Legal(s) && q < sb.size
    ensures SectorList(AllocWrites(sb, d, q, s, b)) == AllocLog(sb, q, s, b)
    ensures Logs(t, t + AllocWrites(sb, d, q, s, b), AllocLog(sb, q, s, b))
  {
  }

  /** The lowest clear bit from `b` on; sb.size when there is none. */
  function LowestFree(sb: Super, d: Disk, b: nat): nat
    decreases sb.size - b
  {
    if b >= sb.size then sb.size else if !Used(sb, d, b) then b else LowestFree(sb, d, b + 1)
  }

  lemma {:induction false} LowestIs(sb: Super, d: Disk, a: nat, b: nat)
    requires a <= b <= sb.size && forall x :: a <= x < b ==> Used(sb, d, x)
    requires b < sb.size ==> !Used(sb, d, b)
    ensures LowestFree(sb, d, a) == b
    decreases b - a
  {
    if a < b {
      assert Used(sb, d, a);
      LowestIs(sb, d, a + 1, b);
    }
  }

  predicate Storable(sb: Super, e: Image, k: nat, s: Slot, b: nat) {
    && |e.d| == sb.size && k < |e.inodes| && |e.inodes[k].addrs| == NDIRECT + 1 && Legal(s)
    && DataStart(sb) <= b < sb.size && Home(e.d, e.inodes[k], s) < sb.size
    && (InInode(s) || (DataStart(sb) <= Home(e.d, e.inodes[k], s) && Home(e.d, e.inodes[k], s) != b))
  }

  /** The first `n` sectors of the free map are looked through. */
  function ScanOn(tr: Trail, sb: Super, n: nat): Trail {
    if n == 0 then tr else Then(ScanOn(tr, sb, n - 1), Read(BitBlock(sb, (n - 1) * BPB)))
  }

  /** balloc when it finds block `b`: the super block, the free map up to the bit, and the block. */
  function BallocOn(tr: Trail, sb: Super, b: nat): Trail {
    Then(Then(ScanOn(Then(tr, Read(1)), sb, b / BPB), Store(BitBlock(sb, b))), Store(b))
  }

  /** balloc when it finds none. */
  function FullOn(tr: Trail, sb: Super): Trail {
    ScanOn(Then(tr, Read(1)), sb, (sb.size + BPB - 1) / BPB)
  }

  // A level of bmap below the inode reads a pointer block `q`, holds it while balloc works, and logs it.

  function LevelThere(tr: Trail, s: Slot, q: nat): Trail {
    if InInode(s) then tr else Then(tr, Read(q))
  }

  function LevelFull(tr: Trail, sb: Super, s: Slot, q: nat): Trail {
    if InInode(s) then FullOn(tr, sb) else Then(tr, Under(q, FullOn(Start, sb), false))
  }

  function LevelNew(tr: Trail, sb: Super, s: Slot, q: nat, b: nat): Trail {
    if InInode(s) then BallocOn(tr, sb, b) else Then(tr, Under(q, BallocOn(Start, sb, b), true))
  }

  /** One level of bmap. */
  function Grant(sb: Super, e: Image, k: nat, s: Slot): Image {
    if !e.ok || k >= |e.inodes| then e
    else
      var q := Home(e.d, e.inodes[k], s);
      if Ptr(e.d, e.inodes[k], s) != 0 then e.(trail := LevelThere(e.trail, s, q))
      else
        var b := LowestFree(sb, e.d, 0);
        if !Storable(sb, e, k, s, b) then e.(ok := false, trail := LevelFull(e.trail, sb, s, q))
        else
          Image(AllocDisk(sb, e.d, q, s, b), AllocInodes(e.inodes, k, s, b), e.log + AllocWrites(sb, e.d, q, s, b),
                true, LevelNew(e.trail, sb, s, q, b))
  }

  /** bmap */
  function MapBlock(sb: Super, e: Image, k: nat, bn: nat): Image {
    match DataSlot(bn)
    case Direct(i) => Grant(sb, e, k, Direct(i))
    case SingleEntry(i) => Grant(sb, Grant(sb, e, k, Single), k, SingleEntry(i))
    case Leaf(i, j) => Grant(sb, Grant(sb, Grant(sb, e, k, Double), k, DoubleEntry(i)), k, Leaf(i, j))
    case _ => e
  }

  /** The store of `part` into the block that byte `off` lies in. */
  function PutBytes(sb: Super, e: Image, k: nat, off: nat, part: seq<Byte>): Image {
    if !e.ok || k >= |e.inodes| || off % BSIZE + |part| > BSIZE then e
    else
      var a := Ptr(e.d, e.inodes[k], DataSlot(off / BSIZE));
      if a < DataStart(sb) || a >= |e.d| then e
      else
        var data := Data(Patched(e.d[a], off % BSIZE, part));
        Image(e.d[a := data], e.inodes, e.log + [Log.Write(a, data)], true, Then(e.trail, Store(a)))
  }

  /** A loop over `n` bytes from `off` on, with `t` of them done. */
  function Loop(turn: (Image, nat) -> Image, e: Image, off: nat, n: nat, t: nat): Image
    decreases n - t
  {
    if t >= n || !e.ok then e else Loop(turn, turn(e, t), off, n, t + Step(off + t, n - t))
  }

  /** The body of writei's loop, `t` bytes after its start at `off`. */
  function OneTurn(sb: Super, k: nat, off: nat, src: seq<Byte>): (Image, nat) -> Image {
    (e: Image, t: nat) =>
      if t < |src| then
        PutBytes(sb, MapBlock(sb, e, k, (off + t) / BSIZE), k, off + t, src[t..t + Step(off + t, |src| - t)])
      else e
  }

  /** writei's loop */
  function WriteBytes(sb: Super, e: Image, k: nat, off: nat, src: seq<Byte>): Image {
    Loop(OneTurn(sb, k, off, src), e, off, |src|, 0)
  }

  /** Where a turn of writei's loop has brought the image, and how many bytes were written before. */
  datatype Turn = Turn(e: Image, t: nat)

  /** Turn `i` of a loop over `n` bytes leads to the next. */
  ghost predicate TurnAt(turn: (Image, nat) -> Image, off: nat, n: nat, ts: seq<Turn>, i: nat) {
    i + 1 < |ts| ==>
      var u, v := ts[i], ts[i + 1];
      u.e.ok && u.t < v.t <= n && v.t == u.t + Step(off + u.t, n - u.t) && v.e == turn(u.e, u.t)
  }

  ghost predicate Turns(turn: (Image, nat) -> Image, off: nat, n: nat, ts: seq<Turn>) {
    ts != [] && forall i: nat {:trigger TurnAt(turn, off, n, ts, i)} :: TurnAt(turn, off, n, ts, i)
  }

  lemma TurnsMore(turn: (Image, nat) -> Image, off: nat, n: nat, ts: seq<Turn>, t: nat, m: nat)
    requires Turns(turn, off, n, ts) && ts[|ts| - 1].t == t && ts[|ts| - 1].e.ok
    requires t < n && m == Step(off + t, n - t)
    ensures Turns(turn, off, n, ts + [Turn(turn(ts[|ts| - 1].e, t), t + m)])
  {
    var us := ts + [Turn(turn(ts[|ts| - 1].e, t), t + m)];
    forall i: nat ensures TurnAt(turn, off, n, us, i) {
      if i + 1 < |ts| {
        assert TurnAt(turn, off, n, ts, i);
      }
    }
  }

  datatype Shape = Chain | Broken

  ghost function ShapeOf(sb: Super, k: nat, off: nat, src: seq<Byte>, ts: seq<Turn>): Shape {
    if Turns(OneTurn(sb, k, off, src), off, |src|, ts) then Chain else Broken
  }

  lemma FirstTurn(sb: Super, k: nat, off: nat, src: seq<Byte>, u: Turn)
    ensures ShapeOf(sb, k, off, src, [u]) == Chain
  {
  }

  lemma OneMoreTurn(sb: Super, k: nat, off: nat, src: seq<Byte>, ts: seq<Turn>, e: Image, t: nat, m: nat, e': Image)
    requires ShapeOf(sb, k, off, src, ts) == Chain && ts != [] && ts[|ts| - 1] == Turn(e, t)
    requires e.ok && t < |src| && m == Step(off + t, |src| - t)
    requires e' == PutBytes(sb, MapBlock(sb, e, k, (off + t) / BSIZE), k, off + t, src[t..t + m])
    ensures ShapeOf(sb, k, off, src, ts + [Turn(e', t + m)]) == Chain
  {
    TurnsMore(OneTurn(sb, k, off, src), off, |src|, ts, t, m);
  }

  /** Turns that end with all bytes written, or in the panic, are the loop. */
  lemma {:induction false} TurnsAre(turn: (Image, nat) -> Image, off: nat, n: nat, ts: seq<Turn>, i: nat)
    requires Turns(turn, off, n, ts) && i < |ts| && ts[i].t <= n
    requires !ts[|ts| - 1].e.ok || ts[|ts| - 1].t == n
    ensures Loop(turn, ts[i].e, off, n, ts[i].t) == ts[|ts| - 1].e
    decreases |ts| - i
  {
    if i + 1 < |ts| {
      assert TurnAt(turn, off, n, ts, i);
      TurnsAre(turn, off, n, ts, i + 1);
    }
  }

  // ----- What a loop keeps -----

  /** The inode sectors and the other inodes are as in `d` and `inodes`. */
  ghost predicate InodesKept(sb: Super, d: Disk, inodes: seq<Inode>, e: Image, k: nat) {
    && SameInodeSectors(sb, d, e.d) && |e.inodes| == |inodes|
    && forall j {:trigger e.inodes[j]} :: 0 <= j < |inodes| && j != k ==> e.inodes[j] == inodes[j]
  }

  lemma GrantKeeps(sb: Super, d: Disk, inodes: seq<Inode>, e: Image, k: nat, s: Slot)
    requires InodesKept(sb, d, inodes, e, k)
    ensures InodesKept(sb, d, inodes, Grant(sb, e, k, s), k)
  {
  }

  lemma MapKeeps(sb: Super, d: Disk, inodes: seq<Inode>, e: Image, k: nat, bn: nat)
    requires InodesKept(sb, d, inodes, e, k)
    ensures InodesKept(sb, d, inodes, MapBlock(sb, e, k, bn), k)
  {
    match DataSlot(bn)
    case Direct(i) => GrantKeeps(sb, d, inodes, e, k, Direct(i));
    case SingleEntry(i) =>
      GrantKeeps(sb, d, inodes, e, k, Single);
      GrantKeeps(sb, d, inodes, Grant(sb, e, k, Single), k, SingleEntry(i));
    case Leaf(i, j) =>
      GrantKeeps(sb, d, inodes, e, k, Double);
      GrantKeeps(sb, d, inodes, Grant(sb, e, k, Double), k, DoubleEntry(i));
      GrantKeeps(sb, d, inodes, Grant(sb, Grant(sb, e, k, Double), k, DoubleEntry(i)), k, Leaf(i, j));
    case _ =>
  }

  lemma PutKeeps(sb: Super, d: Disk, inodes: seq<Inode>, e: Image, k: nat, off: nat, part: seq<Byte>)
    requires InodesKept(sb, d, inodes, e, k)
    ensures InodesKept(sb, d, inodes, PutBytes(sb, e, k, off, part), k)
  {
  }

  lemma TurnKeeps(sb: Super, d: Disk, inodes: seq<Inode>, k: nat, off: nat, src: seq<Byte>, e: Image, t: nat)
    requires InodesKept(sb, d, inodes, e, k)
    ensures InodesKept(sb, d, inodes, OneTurn(sb, k, off, src)(e, t), k)
  {
    if t < |src| {
      MapKeeps(sb, d, inodes, e, k, (off + t) / BSIZE);
      PutKeeps(sb, d, inodes, MapBlock(sb, e, k, (off + t) / BSIZE), k, off + t, src[t..t + Step(off + t, |src| - t)]);
    }
  }

  lemma {:induction false} LoopKeeps(sb: Super, d: Disk, inodes: seq<Inode>, k: nat, off: nat, src: seq<Byte>,
                                     ts: seq<Turn>, i: nat)
    requires ShapeOf(sb, k, off, src, ts) == Chain && i < |ts| && InodesKept(sb, d, inodes, ts[0].e, k)
    ensures InodesKept(sb, d, inodes, ts[i].e, k)
  {
    if i > 0 {
      LoopKeeps(sb, d, inodes, k, off, src, ts, i - 1);
      assert TurnAt(OneTurn(sb, k, off, src), off, |src|, ts, i - 1);
      TurnKeeps(sb, d, inodes, k, off, src, ts[i - 1].e, ts[i - 1].t);
    }
  }

  /** The new size and iupdate at the end of writei. */
  function SetSize(e: Image, k: nat, z: nat): Image {
    if !e.ok || k >= |e.inodes| || z <= e.inodes[k].size || InodeBlock(k) >= |e.d| then e
    else
      var ip := e.inodes[k].(size := z);
      var d := PutInode(e.d, k, ip);
      Image(d, e.inodes[k := ip], e.log + [Log.Write(InodeBlock(k), d[InodeBlock(k)])], true,
            Then(e.trail, Store(InodeBlock(k))))
  }

  /** writei */
  function AfterWrite(sb: Super, e: Image, k: nat, off: nat, src: seq<Byte>): Image {
    if k >= |e.inodes| || off > e.inodes[k].size || off + |src| > MAXFILE * BSIZE || src == [] then e
    else SetSize(WriteBytes(sb, e, k, off, src), k, off + |src|)
  }

  /** The turns of the loop from image `e` to image `e'`. */
  ghost predicate LoopRun(sb: Super, e: Image, e': Image, k: nat, off: nat, src: seq<Byte>, ts: seq<Turn>) {
    && ShapeOf(sb, k, off, src, ts) == Chain && ts != [] && ts[0] == Turn(e, 0)
    && ts[|ts| - 1].e == e' && (!e'.ok || ts[|ts| - 1].t == |src|)
  }

  /** What writei logs, from the image before it. */
  lemma LogIs(sb: Super, e: Image, e1: Image, e': Image, k: nat, off: nat, src: seq<Byte>, ts: seq<Turn>)
    requires k < |e.inodes| && off <= e.inodes[k].size && off + |src| <= MAXFILE * BSIZE && e.ok
    requires LoopRun(sb, e, e1, k, off, src, ts) && e' == if src == [] then e1 else SetSize(e1, k, off + |src|)
    ensures AfterWrite(sb, e, k, off, src) == e'
  {
    TurnsAre(OneTurn(sb, k, off, src), off, |src|, ts, 0);
  }

  // ----- What the steps do to a sound image -----

  /** Exactly the blocks below `n` are in use. */
  ghost predicate UsedBelow(sb: Super, d: Disk, n: nat) {
    forall x {:trigger Used(sb, d, x)} :: 0 <= x < sb.size ==> (Used(sb, d, x) <==> x < n)
  }

  /** Inode `k` has number `b` in slot `s` and is else as before. */
  ghost predicate OnlySlot(e: Image, e': Image, k: nat, s: Slot, b: nat) {
    && k < |e.inodes| == |e'.inodes| && e'.inodes[k].size == e.inodes[k].size
    && forall s' {:trigger Ptr(e'.d, e'.inodes[k], s')} ::
         Legal(s') ==> Ptr(e'.d, e'.inodes[k], s') == if s' == s then b else Ptr(e.d, e.inodes[k], s')
  }

  lemma GrantIs(sb: Super, e: Image, o: Owner, k: nat, s: Slot, n: nat)
    requires e.ok && Sound(sb, e.d, e.inodes, o) && Vacant(e.d, e.inodes, k, s) && UsedBelow(sb, e.d, n) && n < sb.size
    ensures var e' := Grant(sb, e, k, s);
            && e'.ok && SectorList(e'.log) == SectorList(e.log) + AllocLog(sb, Home(e.d, e.inodes[k], s), s, n)
            && Sound(sb, e'.d, e'.inodes, o[n := (k, s)]) && UsedBelow(sb, e'.d, n + 1) && OnlySlot(e, e', k, s, n)
  {
    LowestIs(sb, e.d, 0, n);
    AllocSound(sb, e.d, e.inodes, o, k, s, n);
    var q := Home(e.d, e.inodes[k], s);
    if !InInode(s) {
      HomeOwned(sb, e.d, e.inodes, o, k, s);
    }
    AllocStored(sb, e.d, q, s, n);
    AllocListed(sb, e.d, q, s, n, e.log);
    ListOf(e.log, AllocWrites(sb, e.d, q, s, n));
    forall s' | Legal(s')
      ensures Ptr(AllocDisk(sb, e.d, q, s, n), AllocInodes(e.inodes, k, s, n)[k], s') ==
              if s' == s then n else Ptr(e.d, e.inodes[k], s')
    {
      PtrAfterAlloc(sb, e.d, AllocDisk(sb, e.d, q, s, n), e.inodes, o, k, s, n, k, s');
    }
  }

  lemma PutIs(sb: Super, e: Image, o: Owner, k: nat, off: nat, part: seq<Byte>)
    requires e.ok && Sound(sb, e.d, e.inodes, o) && k < |e.inodes| && off % BSIZE + |part| <= BSIZE
    requires off / BSIZE < MAXFILE
    requires Ptr(e.d, e.inodes[k], DataSlot(off / BSIZE)) != 0
    ensures var e' := PutBytes(sb, e, k, off, part);
            var a := Ptr(e.d, e.inodes[k], DataSlot(off / BSIZE));
            && e'.ok && SectorList(e'.log) == SectorList(e.log) + [a]
            && e'.inodes == e.inodes && Sound(sb, e'.d, e'.inodes, o)
            && SameBits(sb, e.d, e'.d) && OnlySlot(e, e', k, DataSlot(off / BSIZE), a)
  {
    var s := DataSlot(off / BSIZE);
    DataSlotFacts(off / BSIZE);
    var a := Ptr(e.d, e.inodes[k], s);
    assert a in o && OwnsAt(sb, e.d, e.inodes, o, a);
    var bytes := Patched(e.d[a], off % BSIZE, part);
    WriteSound(sb, e.d, e.inodes, o, k, s, bytes);
    DataWriteKeepsBits(sb, e.d, e.d[a := Data(bytes)]);
    ListOf(e.log, [Log.Write(a, Data(bytes))]);
    forall s' | Legal(s') ensures Ptr(e.d[a := Data(bytes)], e.inodes[k], s') == Ptr(e.d, e.inodes[k], s') {
      PtrAfterWrite(sb, e.d, e.inodes, o, k, s, bytes, k, s');
    }
  }

  // ----- The log is the difference -----

  /** The image is `d` with its log applied. */
  ghost predicate Applied(d: Disk, e: Image) {
    e.d == Log.Apply(d, e.log, |e.log|)
  }

  lemma ApplyOne(d: Disk, t: Log.Txn, w: Log.Write)
    requires w.sector < |d|
    ensures Log.Apply(d, t + [w], |t| + 1) == Log.Apply(d, t, |t|)[w.sector := w.data]
  {
    Log.ApplyFirst(d, t, [w], |t|);
  }

  lemma GrantApplied(sb: Super, d: Disk, e: Image, k: nat, s: Slot)
    requires Applied(d, e)
    ensures Applied(d, Grant(sb, e, k, s))
  {
    if e.ok && k < |e.inodes| && Ptr(e.d, e.inodes[k], s) == 0 {
      var b := LowestFree(sb, e.d, 0);
      if Storable(sb, e, k, s, b) {
        AllocApplied(sb, d, e, Home(e.d, e.inodes[k], s), s, b);
      }
    }
  }

  lemma AllocApplied(sb: Super, d: Disk, e: Image, q: nat, s: Slot, b: nat)
    requires Applied(d, e) && |e.d| == sb.size && DataStart(sb) <= b < sb.size && Legal(s) && q < sb.size
    ensures var t := e.log + AllocWrites(sb, e.d, q, s, b); AllocDisk(sb, e.d, q, s, b) == Log.Apply(d, t, |t|)
  {
    var ws := AllocWrites(sb, e.d, q, s, b);
    ApplyOne(d, e.log, ws[0]);
    ApplyOne(d, e.log + [ws[0]], ws[1]);
    assert e.log + [ws[0]] + [ws[1]] == e.log + ws[..2];
    if InInode(s) {
      assert ws[..2] == ws;
    } else {
      ApplyOne(d, e.log + ws[..2], ws[2]);
      assert e.log + ws[..2] + [ws[2]] == e.log + ws;
    }
  }

  lemma MapApplied(sb: Super, d: Disk, e: Image, k: nat, bn: nat)
    requires Applied(d, e)
    ensures Applied(d, MapBlock(sb, e, k, bn))
  {
    match DataSlot(bn)
    case Direct(i) => GrantApplied(sb, d, e, k, Direct(i));
    case SingleEntry(i) =>
      GrantApplied(sb, d, e, k, Single);
      GrantApplied(sb, d, Grant(sb, e, k, Single), k, SingleEntry(i));
    case Leaf(i, j) =>
      GrantApplied(sb, d, e, k, Double);
      GrantApplied(sb, d, Grant(sb, e, k, Double), k, DoubleEntry(i));
      GrantApplied(sb, d, Grant(sb, Grant(sb, e, k, Double), k, DoubleEntry(i)), k, Leaf(i, j));
    case _ =>
  }

  lemma PutApplied(sb: Super, d: Disk, e: Image, k: nat, off: nat, part: seq<Byte>)
    requires Applied(d, e)
    ensures Applied(d, PutBytes(sb, e, k, off, part))
  {
    if e.ok && k < |e.inodes| && off % BSIZE + |part| <= BSIZE {
      var a := Ptr(e.d, e.inodes[k], DataSlot(off / BSIZE));
      if DataStart(sb) <= a < |e.d| {
        ApplyOne(d, e.log, Log.Write(a, Data(Patched(e.d[a], off % BSIZE, part))));
      }
    }
  }

  lemma TurnApplied(sb: Super, d: Disk, k: nat, off: nat, src: seq<Byte>, e: Image, t: nat)
    requires Applied(d, e)
    ensures Applied(d, OneTurn(sb, k, off, src)(e, t))
  {
    if t < |src| {
      MapApplied(sb, d, e, k, (off + t) / BSIZE);
      PutApplied(sb, d, MapBlock(sb, e, k, (off + t) / BSIZE), k, off + t, src[t..t + Step(off + t, |src| - t)]);
    }
  }

  /** What every turn of a loop keeps, the loop keeps. */
  lemma {:induction false} LoopHolds(turn: (Image, nat) -> Image, keep: Image -> bool, e: Image, off: nat, n: nat,
                                     t: nat)
    requires keep(e) && forall f, u {:trigger turn(f, u)} :: keep(f) ==> keep(turn(f, u))
    ensures keep(Loop(turn, e, off, n, t))
    decreases n - t
  {
    if t < n && e.ok {
      LoopHolds(turn, keep, turn(e, t), off, n, t + Step(off + t, n - t));
    }
  }

  /** What writei does to the disk is what it logs. */
  lemma WriteApplied(sb: Super, d: Disk, e: Image, k: nat, off: nat, src: seq<Byte>)
    requires Applied(d, e)
    ensures Applied(d, AfterWrite(sb, e, k, off, src))
  {
    var turn := OneTurn(sb, k, off, src);
    forall f, u ensures Applied(d, f) ==> Applied(d, turn(f, u)) {
      if Applied(d, f) {
        TurnApplied(sb, d, k, off, src, f, u);
      }
    }
    LoopHolds(turn, f => Applied(d, f), e, off, |src|, 0);
    SizeApplied(d, WriteBytes(sb, e, k, off, src), k, off + |src|);
  }

  lemma SizeApplied(d: Disk, e: Image, k: nat, z: nat)
    requires Applied(d, e)
    ensures Applied(d, SetSize(e, k, z))
  {
    if e.ok && k < |e.inodes| && z > e.inodes[k].size && InodeBlock(k) < |e.d| {
      var f := PutInode(e.d, k, e.inodes[k].(size := z));
      ApplyOne(d, e.log, Log.Write(InodeBlock(k), f[InodeBlock(k)]));
    }
  }
}

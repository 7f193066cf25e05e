/** What the calls of FilesCode leave behind: the sectors they log, the slots and bytes
    they keep. */
module FileSteps {
  import opened Blocks
  import opened Files
  import opened FileBytes
  import Log

  /** How a call ends: normally, with -1, or in one of the panics of fs.c. */
  datatype Result = Ok(n: nat) | Fail | OutOfBlocks | OutOfRange

  /** The slots bmap visits for file block `bn`. */
  function Path(bn: nat): set<Slot> {
    match DataSlot(bn)
    case Direct(i) => {Direct(i)}
    case SingleEntry(i) => {Single, SingleEntry(i)}
    case Leaf(i, j) => {Double, DoubleEntry(i), Leaf(i, j)}
    case _ => {}
  }

  /** The slot is on the way to one of file blocks lo..hi. */
  predicate OnPath(s: Slot, lo: nat, hi: nat) {
    exists bn {:trigger Path(bn)} :: lo <= bn <= hi && s in Path(bn)
  }

  /** Block `b` went to such a slot of inode `k` when no lower block was free. */
  ghost predicate TookAt(sb: Super, o: Owner, b: nat, k: nat, lo: nat, hi: nat)
    requires b in o
  {
    o[b].0 == k && OnPath(o[b].1, lo, hi) && forall x :: DataStart(sb) <= x < b ==> x in o
  }

  /** Owners stay, and new ones are taken first fit. */
  ghost predicate Took(sb: Super, o: Owner, o': Owner, k: nat, lo: nat, hi: nat) {
    && (forall b :: b in o ==> b in o' && o'[b] == o[b])
    && (forall b {:trigger TookAt(sb, o', b, k, lo, hi)} :: b in o' && b !in o ==> TookAt(sb, o', b, k, lo, hi))
  }

  /** Sector `x` has the bit of a new block, or is a block on the way to file blocks lo..hi. */
  ghost predicate TouchOk(sb: Super, o: Owner, o': Owner, k: nat, lo: nat, hi: nat, x: nat) {
    || (exists b :: b in o' && b !in o && x == BitBlock(sb, b))
    || (x in o' && o'[x].0 == k && OnPath(o'[x].1, lo, hi))
  }

  /** The log_write calls between `t` and `t'` are for such sectors. */
  ghost predicate Touches(sb: Super, o: Owner, o': Owner, k: nat, lo: nat, hi: nat, t: Log.Txn, t': Log.Txn) {
    && |t| <= |t'| && t'[..|t|] == t
    && forall i {:trigger t'[i]} :: |t| <= i < |t'| ==> TouchOk(sb, o, o', k, lo, hi, t'[i].sector)
  }

  /** One of those calls is for sector `x`. */
  ghost predicate LoggedAt(t: Log.Txn, t': Log.Txn, x: nat) {
    exists i {:trigger t'[i]} :: |t| <= i < |t'| && t'[i].sector == x
  }

  /** New blocks have been logged. */
  ghost predicate NewLogged(o: Owner, o': Owner, t: Log.Txn, t': Log.Txn) {
    forall b {:trigger LoggedAt(t, t', b)} :: b in o' && b !in o ==> LoggedAt(t, t', b)
  }

  /** What a write to file blocks lo..hi of inode `k` does to owners and log. */
  ghost predicate Wrote(sb: Super, o: Owner, o': Owner, k: nat, lo: nat, hi: nat, t: Log.Txn, t': Log.Txn) {
    Took(sb, o, o', k, lo, hi) && Touches(sb, o, o', k, lo, hi, t, t') && NewLogged(o, o', t, t')
  }

  lemma OnPathWiden(s: Slot, lo: nat, hi: nat, lo': nat, hi': nat)
    requires OnPath(s, lo, hi) && lo' <= lo && hi <= hi'
    ensures OnPath(s, lo', hi')
  {
    var bn :| lo <= bn <= hi && s in Path(bn);
    assert lo' <= bn <= hi' && s in Path(bn);
  }

  lemma WroteWiden(sb: Super, o: Owner, o': Owner, k: nat, lo: nat, hi: nat, lo': nat, hi': nat, t: Log.Txn,
                   t': Log.Txn)
    requires lo' <= lo && hi <= hi' && Wrote(sb, o, o', k, lo, hi, t, t')
    ensures Wrote(sb, o, o', k, lo', hi', t, t')
  {
    forall b | b in o' && b !in o ensures TookAt(sb, o', b, k, lo', hi') {
      assert TookAt(sb, o', b, k, lo, hi);
      OnPathWiden(o'[b].1, lo, hi, lo', hi');
    }
    forall i | |t| <= i < |t'| ensures TouchOk(sb, o, o', k, lo', hi', t'[i].sector) {
      var x := t'[i].sector;
      assert TouchOk(sb, o, o', k, lo, hi, x);
      if x in o' && o'[x].0 == k && OnPath(o'[x].1, lo, hi) {
        OnPathWiden(o'[x].1, lo, hi, lo', hi');
      }
    }
  }

  lemma TookTrans(sb: Super, o: Owner, o': Owner, o'': Owner, k: nat, lo: nat, hi: nat)
    requires Took(sb, o, o', k, lo, hi) && Took(sb, o', o'', k, lo, hi)
    ensures Took(sb, o, o'', k, lo, hi)
  {
    forall b | b in o'' && b !in o ensures TookAt(sb, o'', b, k, lo, hi) {
      if b in o' {
        assert TookAt(sb, o', b, k, lo, hi);
        forall x | DataStart(sb) <= x < b ensures x in o'' {
          assert o''[x] == o'[x];
        }
      } else {
        assert TookAt(sb, o'', b, k, lo, hi);
      }
    }
  }

  /** What is logged for the earlier owners is for the later ones too. */
  lemma TouchLater(sb: Super, o: Owner, o': Owner, o'': Owner, k: nat, lo: nat, hi: nat, x: nat)
    requires Took(sb, o, o', k, lo, hi) && Took(sb, o', o'', k, lo, hi)
    requires TouchOk(sb, o, o', k, lo, hi, x) || TouchOk(sb, o', o'', k, lo, hi, x)
    ensures TouchOk(sb, o, o'', k, lo, hi, x)
  {
    if b :| b in o' && b !in o && x == BitBlock(sb, b) {
      assert o''[b] == o'[b];
    } else if b :| b in o'' && b !in o' && x == BitBlock(sb, b) {
      assert b !in o;
    } else if x in o' {
      assert o''[x] == o'[x];
    }
  }

  lemma WroteTrans(sb: Super, o: Owner, o': Owner, o'': Owner, k: nat, lo: nat, hi: nat, t: Log.Txn, t': Log.Txn,
                   t'': Log.Txn)
    requires Wrote(sb, o, o', k, lo, hi, t, t') && Wrote(sb, o', o'', k, lo, hi, t', t'')
    ensures Wrote(sb, o, o'', k, lo, hi, t, t'')
  {
    TookTrans(sb, o, o', o'', k, lo, hi);
    forall i | |t| <= i < |t''| ensures TouchOk(sb, o, o'', k, lo, hi, t''[i].sector) {
      if i < |t'| {
        assert t''[i] == t'[i];
      }
      TouchLater(sb, o, o', o'', k, lo, hi, t''[i].sector);
    }
    forall b | b in o'' && b !in o ensures LoggedAt(t, t'', b) {
      if b in o' {
        assert LoggedAt(t, t', b);
        var i :| |t| <= i < |t'| && t'[i].sector == b;
        assert t''[i] == t'[i];
      } else {
        assert LoggedAt(t', t'', b);
        var i :| |t'| <= i < |t''| && t''[i].sector == b;
        assert t''[i].sector == b;
      }
    }
  }

  /** The log_writes of one allocation, in order. */
  function AllocLog(sb: Super, q: nat, s: Slot, b: nat): seq<nat> {
    [BitBlock(sb, b), b] + if InInode(s) then [] else [q]
  }

  /** `t'` is `t` with writes to these sectors. */
  ghost predicate Logs(t: Log.Txn, t': Log.Txn, xs: seq<nat>) {
    && |t'| == |t| + |xs| && t'[..|t|] == t
    && forall i :: 0 <= i < |xs| ==> t'[|t| + i].sector == xs[i]
  }

  lemma AllocWrote(sb: Super, d: Disk, o: Owner, k: nat, bn: nat, s: Slot, b: nat, q: nat, t: Log.Txn, t': Log.Txn)
    requires s in Path(bn) && HomeSlot(s) in Path(bn) && b !in o && Logs(t, t', AllocLog(sb, q, s, b))
    requires BitsAgree(sb, d, o) && b < sb.size && forall x :: 0 <= x < b ==> Used(sb, d, x)
    requires !InInode(s) ==> q in o && o[q] == (k, HomeSlot(s))
    ensures Wrote(sb, o, o[b := (k, s)], k, bn, bn, t, t')
  {
    var o' := o[b := (k, s)];
    assert OnPath(s, bn, bn) && OnPath(HomeSlot(s), bn, bn);
    forall x | DataStart(sb) <= x < b ensures x in o' {
      assert Used(sb, d, x);
    }
    assert TookAt(sb, o', b, k, bn, bn);
    forall i | |t| <= i < |t'| ensures TouchOk(sb, o, o', k, bn, bn, t'[i].sector) {
      assert t'[i].sector == AllocLog(sb, q, s, b)[i - |t|];
      assert o'[b] == (k, s);
      assert !InInode(s) ==> o'[q] == (k, HomeSlot(s)) || q == b;
    }
    assert t'[|t| + 1].sector == AllocLog(sb, q, s, b)[1];
  }

  /** A write of data changes no owner. */
  lemma StoreWrote(sb: Super, o: Owner, k: nat, bn: nat, x: nat, t: Log.Txn, t': Log.Txn)
    requires x in o && o[x] == (k, DataSlot(bn)) && Logs(t, t', [x])
    ensures Wrote(sb, o, o, k, bn, bn, t, t')
  {
    assert DataSlot(bn) in Path(bn) && OnPath(DataSlot(bn), bn, bn);
    assert t'[|t| + 0].sector == [x][0];
  }

  const UINT_LIMIT := 0x1_0000_0000

  /** The last file block a transfer of `n` bytes at `off` touches. */
  function LastBlock(off: nat, n: nat): nat {
    if n == 0 then off / BSIZE else (off + n - 1) / BSIZE
  }

  /** min(n - tot, BSIZE - off % BSIZE) */
  function Step(off: nat, left: nat): (m: nat)
    requires 0 < left
    ensures 0 < m <= left && off % BSIZE + m <= BSIZE
  {
    if left < BSIZE - off % BSIZE then left else BSIZE - off % BSIZE
  }

  lemma JoinSlices(c: seq<Byte>, a: nat, b: nat, e: nat)
    requires a <= b <= e <= |c|
    ensures c[a..b] + c[b..e] == c[a..e]
  {
  }

  /** The part of a block that readi copies is that part of the file. */
  lemma BlockBytes(d: Disk, ip: Inode, c: seq<Byte>, off: nat, m: nat)
    requires Holds(d, ip, c) && off + m <= |c| && off % BSIZE + m <= BSIZE
    ensures BytesOf(At(d, Ptr(d, ip, DataSlot(off / BSIZE))))[off % BSIZE..off % BSIZE + m] == c[off..off + m]
  {
    var bs := BytesOf(At(d, Ptr(d, ip, DataSlot(off / BSIZE))));
    var got, want := bs[off % BSIZE..off % BSIZE + m], c[off..off + m];
    forall i | 0 <= i < m
      ensures got[i] == want[i]
    {
      assert (off + i) / BSIZE == off / BSIZE && (off + i) % BSIZE == off % BSIZE + i;
      assert ByteAt(d, ip, off + i) == c[off + i];
    }
  }

  /** Files other than `k` hold their recorded bytes. */
  ghost predicate OthersHold(d: Disk, inodes: seq<Inode>, cs: seq<seq<Byte>>, k: nat) {
    |cs| == |inodes| && forall j {:trigger cs[j]} :: 0 <= j < |cs| && j != k ==> Holds(d, inodes[j], cs[j])
  }

  lemma BmapHolds(d: Disk, inodes: seq<Inode>, e: Disk, inodes': seq<Inode>, k: nat, bn: nat, c: seq<Byte>,
                  cs: seq<seq<Byte>>)
    requires Extends(d, inodes, e, inodes', k, Path(bn)) && k < |inodes|
    requires Holds(d, inodes[k], c) && OthersHold(d, inodes, cs, k)
    ensures Holds(e, inodes'[k], c) && OthersHold(e, inodes', cs, k)
  {
    ExtendsHolds(d, inodes, e, inodes', k, Path(bn), k, c);
    forall j | 0 <= j < |cs| && j != k
      ensures Holds(e, inodes'[j], cs[j])
    {
      ExtendsHolds(d, inodes, e, inodes', k, Path(bn), j, cs[j]);
    }
  }

  lemma WriteOthers(sb: Super, d: Disk, inodes: seq<Inode>, o: Owner, k: nat, bn: nat, bytes: seq<Byte>,
                    cs: seq<seq<Byte>>)
    requires Sound(sb, d, inodes, o) && k < |inodes| && bn < MAXFILE && 0 < Ptr(d, inodes[k], DataSlot(bn)) < sb.size
    requires |bytes| == BSIZE && OthersHold(d, inodes, cs, k)
    ensures OthersHold(d[Ptr(d, inodes[k], DataSlot(bn)) := Data(bytes)], inodes, cs, k)
  {
    forall j | 0 <= j < |cs| && j != k
      ensures Holds(d[Ptr(d, inodes[k], DataSlot(bn)) := Data(bytes)], inodes[j], cs[j])
    {
      WriteHoldsOther(sb, d, inodes, o, k, bn, bytes, j, cs[j]);
    }
  }

  predicate SameSizes(inodes: seq<Inode>, inodes': seq<Inode>) {
    |inodes| == |inodes'| && forall j {:trigger inodes'[j]} :: 0 <= j < |inodes| ==> inodes'[j].size == inodes[j].size
  }

  /** One file has new bytes, the others keep theirs. */
  lemma RefinesAfter(d0: Disk, i0: seq<Inode>, d: Disk, inodes: seq<Inode>, cs: seq<seq<Byte>>, k: nat, c: seq<Byte>)
    requires Refines(d0, i0, cs) && k < |inodes| == |i0| && OthersHold(d, inodes, cs, k)
    requires forall j :: 0 <= j < |inodes| && j != k ==> inodes[j].size == i0[j].size
    requires Holds(d, inodes[k], c) && inodes[k].size == |c|
    ensures Refines(d, inodes, cs[k := c])
  {
    var cs' := cs[k := c];
    forall j | 0 <= j < |cs'| ensures |cs'[j]| == inodes[j].size && Holds(d, inodes[j], cs'[j]) {
      assert j != k ==> cs'[j] == cs[j];
    }
  }

  lemma PtrIgnoresSize(d: Disk, ip: Inode, z: nat, s: Slot)
    ensures Ptr(d, ip.(size := z), s) == Ptr(d, ip, s)
  {
  }

  /** A new size changes neither blocks nor bytes. */
  lemma SizeSound(sb: Super, d: Disk, inodes: seq<Inode>, o: Owner, k: nat, z: nat, c: seq<Byte>, cs: seq<seq<Byte>>)
    requires Sound(sb, d, inodes, o) && k < |inodes| && Holds(d, inodes[k], c) && OthersHold(d, inodes, cs, k)
    ensures Sound(sb, d, inodes[k := inodes[k].(size := z)], o)
    ensures Holds(d, inodes[k].(size := z), c) && OthersHold(d, inodes[k := inodes[k].(size := z)], cs, k)
  {
    var inodes' := inodes[k := inodes[k].(size := z)];
    forall k', s | 0 <= k' < |inodes|
      ensures Ptr(d, inodes'[k'], s) == Ptr(d, inodes[k'], s)
    {
      PtrIgnoresSize(d, inodes[k], z, s);
    }
    forall b | b in o
      ensures OwnsAt(sb, d, inodes', o, b)
    {
      assert OwnsAt(sb, d, inodes, o, b);
      PtrIgnoresSize(d, inodes[k], z, o[b].1);
    }
    forall n | 0 <= n < |c|
      ensures ByteAt(d, inodes[k].(size := z), n) == c[n]
    {
      assert ByteAt(d, inodes[k], n) == c[n];
    }
  }

  lemma TruncAll(sb: Super, d: Disk, e: Disk, inodes: seq<Inode>, o: Owner, k: nat, cs: seq<seq<Byte>>)
    requires Sound(sb, d, inodes, o) && k < |inodes| && FreedBelow(sb, d, e, o, k, RANKS) && Refines(d, inodes, cs)
    ensures Sound(sb, e, inodes[k := Emptied(inodes[k])], Others(o, k))
    ensures Refines(e, inodes[k := Emptied(inodes[k])], cs[k := []])
    ensures forall b :: 0 <= b < sb.size ==>
              (Used(sb, e, b) <==> Used(sb, d, b) && !(b in o && o[b].0 == k))
  {
    TruncSound(sb, d, e, inodes, o, k);
    var inodes', cs' := inodes[k := Emptied(inodes[k])], cs[k := []];
    forall j | 0 <= j < |cs'|
      ensures |cs'[j]| == inodes'[j].size && Holds(e, inodes'[j], cs'[j])
    {
      if j != k {
        assert Holds(d, inodes[j], cs[j]);
        TruncHolds(sb, d, e, inodes, o, k, j, cs[j]);
      }
    }
    forall b | 0 <= b < sb.size
      ensures Used(sb, e, b) <==> Used(sb, d, b) && !(b in o && o[b].0 == k)
    {
      if b in o {
        assert OwnsAt(sb, d, inodes, o, b);
        assert Rank(o[b].1) < RANKS;
      }
    }
  }
}

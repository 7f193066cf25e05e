/** free, morecore and malloc of umalloc.c. */
module UmallocCode {
  import opened Umalloc

  const HEADER_BYTES := 8
  const MIN_UNITS := 4096

  /** Units for a request: its bytes rounded up, and one for the header. */
  function Units(nbytes: nat): (n: nat)
    ensures n > 0 && nbytes <= (n - 1) * HEADER_BYTES < nbytes + HEADER_BYTES
  {
    (nbytes + HEADER_BYTES - 1) / HEADER_BYTES + 1
  }

  /** Position `k` steps after `f` on a circle of `n`. */
  function Rotate(f: nat, k: nat, n: nat): nat {
    if f + k < n then f + k else f + k - n
  }

  /** How many steps lead from `f` to `j`, going at least one. */
  function Steps(f: nat, j: nat, n: nat): (k: nat)
    requires f < n && j < n
    ensures 1 <= k <= n && Rotate(f, k, n) == j
  {
    if j > f then j - f else n - f + j
  }

  /** The blocks in `live` have the same sizes in both memories. */
  ghost predicate SameSizes(m: Mem, m': Mem, live: set<nat>) {
    forall a {:trigger Size(m', a)} :: a in live ==> Size(m', a) == Size(m, a)
  }

  /** The units of `r` are those of `owner` and the stretch lo..hi. */
  ghost predicate UnitsAdded(owner: map<nat, nat>, r: map<nat, nat>, lo: nat, hi: nat) {
    forall u: nat {:trigger u in r} :: u in r <==> u in owner || lo <= u < hi
  }

  class Heap {
    const base: nat
    const limit: nat
    var m: Mem
    var freep: nat
    var brk: nat
    ghost var fl: seq<nat>
    ghost var live: set<nat>
    ghost var owner: map<nat, nat>

    /** freep is 0 until the first malloc has set up the empty list. */
    ghost predicate Valid()
      reads this
    {
      && 0 < base < brk
      && (freep == 0 ==> fl == [] && live == {} && owner == map[])
      && (freep != 0 ==> Sound(base, m, fl, live, owner, brk) && freep in fl)
    }

    constructor (base: nat, brk: nat, limit: nat)
      requires 0 < base < brk
      ensures Valid() && live == {}
    {
      this.base, this.brk, this.limit := base, brk, limit;
      m, freep, fl, live, owner := Mem(map[], map[]), 0, [], {}, map[];
    }

    /** free: the search from freep stops at the place of `bp`, and the block is linked
        there, merged with a neighbour it touches.  The other live blocks keep their sizes. */
    method Free(ap: nat) returns (ghost j: nat)
      requires Valid() && 0 < ap && ap - 1 in live
      modifies this`m, this`freep, this`fl, this`live, this`owner
      ensures Valid() && freep != 0
      ensures live == old(live) - {ap - 1} && owner.Keys == old(owner).Keys
      ensures SameSizes(old(m), m, live)
      ensures j < |fl| && Size(m, fl[j]) >= old(Size(m, ap - 1))
    {
      var bp := ap - 1;
      var p;
      ghost var i;
      p, i := FindLink(bp);
      FreeSound(base, m, fl, live, owner, brk, i, bp);
      FreedBlockAt(base, m, fl, live, owner, brk, i, bp);
      j := if fl[i] + Size(m, fl[i]) == bp then i else i + 1;
      fl, owner, live := FreeList(m, fl, i, bp), FreeOwner(m, fl, owner, i, bp), live - {bp};
      LinkIn(p, bp);
      freep := p;
    }

    /** free's search loop. */
    method FindLink(bp: nat) returns (p: nat, ghost i: nat)
      requires Sound(base, m, fl, live, owner, brk) && freep in fl && bp in live
      ensures Fits(fl, i, bp) && p == fl[i] > 0
    {
      BlockFacts(base, m, fl, live, owner, brk, bp);
      ghost var t := FindPlace(m, fl, bp, |fl|);
      p := freep;
      i :| 0 <= i < |fl| && fl[i] == p;
      while !(bp > p && bp < Ptr(m, p)) && !(p >= Ptr(m, p) && (bp > p || bp < Ptr(m, p)))
        invariant 0 <= i < |fl| && fl[i] == p
        decreases if i <= t then t - i else |fl| - i + t
      {
        NotThere(m, fl, i, t, bp);
        i := Next(i, |fl|);
        p := Ptr(m, p);
      }
      StopsThere(m, fl, i, bp);
      if 0 < i {
        Far(m, fl, 0, i);
      }
    }

    /** free's writes to the headers of `p`, `bp` and the block after. */
    method LinkIn(p: nat, bp: nat)
      modifies this`m
      ensures m == FreeMem(old(m), p, old(Ptr(m, p)), bp)
    {
      var nx := Ptr(m, p);
      if bp + Size(m, bp) == nx {
        m := Mem(m.ptr[bp := Ptr(m, nx)], m.size[bp := Size(m, bp) + Size(m, nx)]);
      } else {
        m := Mem(m.ptr[bp := nx], m.size);
      }
      if p + Size(m, p) == bp {
        m := Mem(m.ptr[p := Ptr(m, bp)], m.size[p := Size(m, p) + Size(m, bp)]);
      } else {
        m := Mem(m.ptr[p := bp], m.size);
      }
    }

    /** morecore: sbrk at least MIN_UNITS and free what it gives.  0 when sbrk fails. */
    method Morecore(nunits: nat) returns (p: nat)
      requires Valid() && freep != 0 && 0 < nunits
      modifies this
      ensures Valid() && freep != 0 && live == old(live)
      ensures SameSizes(old(m), m, live)
      ensures p == 0 <==> old(brk) + (if nunits < MIN_UNITS then MIN_UNITS else nunits) > limit
      ensures p == 0 ==> m == old(m) && fl == old(fl) && owner == old(owner) && brk == old(brk)
      ensures p != 0 ==> p == freep && !AllSmaller(m, fl, nunits)
      ensures p != 0 ==> UnitsAdded(old(owner), owner, old(brk), brk)
    {
      var nu := if nunits < MIN_UNITS then MIN_UNITS else nunits;
      if brk + nu > limit {
        return 0;
      }
      var hp := brk;
      GrowSound(base, m, fl, live, owner, brk, nu);
      brk := brk + nu;
      m := Mem(m.ptr, m.size[hp := nu]);
      live, owner := live + {hp}, GrowOwner(owner, hp, nu);
      ghost var j := Free(hp + 1);
      p := freep;
    }

    /** The first call sets up the list that holds only the anchor. */
    method InitList()
      requires Valid() && freep == 0
      modifies this`m, this`freep, this`fl
      ensures Valid() && freep != 0 && |fl| == 1
    {
      m := Mem(m.ptr[base := base], m.size[base := 0]);
      freep, fl := base, [base];
    }

    /** Hand out all of the free block fl[i] = p, whose predecessor is fl[i - 1]. */
    method TakeWhole(prevp: nat, p: nat, ghost i: nat)
      requires Valid() && freep != 0 && 0 < i < |fl| && fl[i] == p && fl[i - 1] == prevp
      modifies this`m, this`fl, this`live, this`freep
      ensures Valid() && freep != 0 && p !in old(live) && live == old(live) + {p} && m.size == old(m.size)
      ensures freep == prevp
    {
      TakeSound(base, m, fl, live, owner, brk, i);
      if 1 < i {
        Far(m, fl, 0, i - 1);
      }
      m := Mem(m.ptr[prevp := Ptr(m, p)], m.size);
      fl, live := RemoveAt(fl, i), live + {p};
      assert fl[i - 1] == prevp;
      freep := prevp;
    }

    /** Hand out the last `nunits` of the larger free block fl[i] = p. */
    method TakeTail(prevp: nat, p: nat, nunits: nat, ghost i: nat) returns (q: nat)
      requires Valid() && freep != 0 && 0 < i < |fl| && fl[i] == p && fl[i - 1] == prevp && 0 < nunits < Size(m, p)
      modifies this`m, this`live, this`owner, this`freep
      ensures Valid() && freep != 0 && q !in old(live) && live == old(live) + {q}
      ensures Size(m, q) == nunits && owner.Keys == old(owner).Keys && SameSizes(old(m), m, old(live))
      ensures freep == prevp
    {
      if 1 < i {
        Far(m, fl, 0, i - 1);
      }
      SplitSound(base, m, fl, live, owner, brk, i, nunits);
      q := p + Size(m, p) - nunits;
      m := SplitMem(m, p, nunits);
      owner, live := SplitOwner(owner, q, nunits), live + {q};
      freep := prevp;
    }

    /** malloc's search: from the block after freep round to freep itself.  It stops at the
        first block that is large enough, or finds that none is. */
    method Search(nunits: nat) returns (found: bool, prevp: nat, p: nat, ghost i: nat)
      requires Valid() && freep != 0 && 0 < nunits
      ensures found ==> 0 < i < |fl| && fl[i] == p && fl[i - 1] == prevp && Size(m, p) >= nunits
      ensures found <==> !AllSmaller(m, fl, nunits)
      ensures found ==> FirstFrom(m, fl, freep, i, nunits)
    {
      found, prevp, p, i := SearchList(m, freep, nunits, fl);
    }

    /** The search in malloc, with morecore when nothing is large enough.  After morecore it starts
        again at the new freep, and then it succeeds. */
    method Obtain(nunits: nat) returns (found: bool, prevp: nat, p: nat, ghost i: nat)
      requires Valid() && 0 < nunits
      modifies this
      ensures Valid() && freep != 0 && live == old(live)
      ensures found ==> 0 < i < |fl| && fl[i] == p && fl[i - 1] == prevp && Size(m, p) >= nunits
      ensures !found ==> owner == old(owner) && brk == old(brk) && AllSmaller(m, fl, nunits)
      ensures !found <==> && (old(freep) != 0 ==> AllSmaller(old(m), old(fl), nunits))
                          && old(brk) + (if nunits < MIN_UNITS then MIN_UNITS else nunits) > limit
      ensures SameSizes(old(m), m, old(live))
      ensures UnitsAdded(old(owner), owner, old(brk), brk)
    {
      if freep == 0 {
        InitList();
      }
      found, prevp, p, i := Search(nunits);
      if found {
        return;
      }
      p := Morecore(nunits);
      if p != 0 {
        found, prevp, p, i := Search(nunits);
      }
    }

    /** malloc: a block of enough units, disjoint from every live block (Umalloc.BlocksDisjoint).
        It is 0 exactly when no free block is large enough and sbrk refuses.  Live blocks keep
        their place and size, and no unit is lost. */
    method Malloc(nbytes: nat) returns (r: nat)
      requires Valid()
      modifies this
      ensures Valid() && freep != 0
      ensures r != 0 ==> r - 1 !in old(live) && live == old(live) + {r - 1} && Size(m, r - 1) == Units(nbytes)
      ensures r == 0 ==> live == old(live) && owner == old(owner) && brk == old(brk)
      ensures r == 0 ==> AllSmaller(m, fl, Units(nbytes))
      ensures r == 0 <==> && (old(freep) != 0 ==> AllSmaller(old(m), old(fl), Units(nbytes)))
                          && old(brk) + (if Units(nbytes) < MIN_UNITS then MIN_UNITS else Units(nbytes)) > limit
      ensures SameSizes(old(m), m, old(live))
      ensures UnitsAdded(old(owner), owner, old(brk), brk)
    {
      var nunits := Units(nbytes);
      var found, prevp, p;
      ghost var i;
      found, prevp, p, i := Obtain(nunits);
      if !found {
        return 0;
      }
      if Size(m, p) == nunits {
        TakeWhole(prevp, p, i);
      } else {
        p := TakeTail(prevp, p, nunits, i);
      }
      r := p + 1;
    }
  }

  /** Only the start itself carries freep's address. */
  lemma FullCircle(m: Mem, fl: seq<nat>, f: nat, k: nat)
    requires Separate(m, fl) && f < |fl| && 1 <= k <= |fl| && fl[Rotate(f, k, |fl|)] == fl[f]
    ensures k == |fl|
  {
    var i := Rotate(f, k, |fl|);
    if i < f {
      Far(m, fl, i, f);
    } else if f < i {
      Far(m, fl, f, i);
    }
  }

  /** The blocks after freep, `k - 1` of them, are too small. */
  ghost predicate Tried(m: Mem, fl: seq<nat>, f: nat, k: nat, nunits: nat) {
    f < |fl| && forall j: nat {:trigger Rotate(f, j, |fl|)} ::
                  1 <= j < k && j <= |fl| ==> Size(m, fl[Rotate(f, j, |fl|)]) < nunits
  }

  /** Going round from `f`, one comes by `j` before `i`. */
  predicate Between(f: nat, j: nat, i: nat) {
    if f < i then f < j < i else f < j || j < i
  }

  /** Block `i` is the first after freep that is large enough. */
  ghost predicate FirstFrom(m: Mem, fl: seq<nat>, freep: nat, i: nat, nunits: nat) {
    exists f: nat :: f < |fl| && fl[f] == freep &&
      forall j: nat {:trigger Between(f, j, i)} :: j < |fl| && Between(f, j, i) ==> Size(m, fl[j]) < nunits
  }

  lemma TriedBetween(m: Mem, fl: seq<nat>, f: nat, k: nat, nunits: nat)
    requires f < |fl| && 1 <= k <= |fl| && Tried(m, fl, f, k, nunits)
    ensures var i := Rotate(f, k, |fl|);
            forall j: nat {:trigger Between(f, j, i)} :: j < |fl| && Between(f, j, i) ==> Size(m, fl[j]) < nunits
  {
    var i := Rotate(f, k, |fl|);
    forall j: nat | j < |fl| && Between(f, j, i) ensures Size(m, fl[j]) < nunits {
      assert Rotate(f, Steps(f, j, |fl|), |fl|) == j;
    }
  }

  /** One link further round the list. */
  lemma NextRound(m: Mem, fl: seq<nat>, f: nat, k: nat)
    requires Linked(m, fl) && f < |fl| && k <= |fl|
    ensures Rotate(f, k, |fl|) < |fl|
    ensures (k < |fl| ==> Rotate(f, k + 1, |fl|) < |fl| && Ptr(m, fl[Rotate(f, k, |fl|)]) == fl[Rotate(f, k + 1, |fl|)])
    ensures 0 < k && 0 < Rotate(f, k, |fl|) ==> Rotate(f, k - 1, |fl|) == Rotate(f, k, |fl|) - 1
  {
    var i := Rotate(f, k, |fl|);
    assert Ptr(m, fl[i]) == fl[Next(i, |fl|)];
  }

  lemma AllTried(m: Mem, fl: seq<nat>, f: nat, nunits: nat)
    requires f < |fl| && Tried(m, fl, f, |fl| + 1, nunits)
    ensures forall j :: 0 <= j < |fl| ==> Size(m, fl[j]) < nunits
  {
    forall j | 0 <= j < |fl|
      ensures Size(m, fl[j]) < nunits
    {
      assert Rotate(f, Steps(f, j, |fl|), |fl|) == j;
    }
  }

  /** At a list position other than the right one, free's search goes on. */
  lemma NotThere(m: Mem, fl: seq<nat>, i: nat, t: nat, bp: nat)
    requires Linked(m, fl) && Separate(m, fl) && i < |fl| && Fits(fl, t, bp) && fl[0] < bp
    requires !(bp > fl[i] && bp < Ptr(m, fl[i])) && !(fl[i] >= Ptr(m, fl[i]) && (bp > fl[i] || bp < Ptr(m, fl[i])))
    ensures i != t && Ptr(m, fl[i]) == fl[Next(i, |fl|)]
  {
    if i == t && i + 1 == |fl| {
      if 0 < i {
        Far(m, fl, 0, i);
      }
    }
  }

  lemma StopsThere(m: Mem, fl: seq<nat>, i: nat, bp: nat)
    requires Linked(m, fl) && Separate(m, fl) && i < |fl| && fl[0] < bp
    requires (bp > fl[i] && bp < Ptr(m, fl[i])) || (fl[i] >= Ptr(m, fl[i]) && (bp > fl[i] || bp < Ptr(m, fl[i])))
    ensures Fits(fl, i, bp)
  {
    assert i + 1 < |fl| ==> fl[i] + Size(m, fl[i]) < fl[i + 1];
  }

  ghost predicate AllSmaller(m: Mem, fl: seq<nat>, nunits: nat) {
    forall j :: 0 <= j < |fl| ==> Size(m, fl[j]) < nunits
  }

  /** The loop of the search, on the list alone. */
  method SearchList(m: Mem, freep: nat, nunits: nat, ghost fl: seq<nat>) returns (found: bool, prevp: nat, p: nat,
                    ghost i: nat)
    requires Linked(m, fl) && Separate(m, fl) && freep in fl && Size(m, fl[0]) < nunits
    ensures found ==> 0 < i < |fl| && fl[i] == p && fl[i - 1] == prevp && Size(m, p) >= nunits
    ensures found ==> FirstFrom(m, fl, freep, i, nunits)
    ensures !found ==> AllSmaller(m, fl, nunits)
  {
    ghost var f: nat :| f < |fl| && fl[f] == freep;
    NextRound(m, fl, f, 0);
    prevp := freep;
    p := Ptr(m, prevp);
    ghost var k := 1;
    while true
      invariant 1 <= k <= |fl| && p == fl[Rotate(f, k, |fl|)] && prevp == fl[Rotate(f, k - 1, |fl|)]
      invariant Tried(m, fl, f, k, nunits)
      decreases |fl| - k
    {
      NextRound(m, fl, f, k);
      i := Rotate(f, k, |fl|);
      if Size(m, p) >= nunits {
        assert i > 0;
        TriedBetween(m, fl, f, k, nunits);
        return true, prevp, p, i;
      }
      if p == freep {
        FullCircle(m, fl, f, k);
        AllTried(m, fl, f, nunits);
        return false, prevp, p, i;
      }
      prevp, p, k := p, Ptr(m, p), k + 1;
    }
  }
}

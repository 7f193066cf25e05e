/** kalloc.c and vm.c as code. */
module VmCode {
  import opened Blocks
  import opened Counting
  import opened Vm
  import opened Options
  import opened FrameCount

  ghost function FreeSet(free: seq<nat>): set<nat> {
    set f | f in free
  }

  predicate NoDup(free: seq<nat>) {
    free == [] || (free[0] !in free[1..] && NoDup(free[1..]))
  }

  /** Frames of others, and the data pages this space keeps, are as they were. */
  ghost predicate Kept(pages: Frames, pages': Frames, own: Owner, own': Owner, free: seq<nat>) {
    && (forall f :: f in pages && f !in free && (f in own ==> own[f].PageOf? && f in own') ==>
          f in pages' && pages'[f] == pages[f])
    && (forall f :: f in own && f in own' ==> own'[f] == own[f])
  }

  /** All frames of the space stay in it. */
  ghost predicate Grows(own: Owner, own': Owner) {
    forall f :: f in own ==> f in own' && own'[f] == own[f]
  }

  /** No frame is lost or made up. */
  ghost predicate Conserved(own: Owner, free: seq<nat>, own': Owner, free': seq<nat>) {
    own'.Keys + FreeSet(free') == own.Keys + FreeSet(free)
  }

  /** A step that only adds frames from the free list to the space. */
  ghost predicate Grown(pages: Frames, own: Owner, free: seq<nat>, pages': Frames, own': Owner, free': seq<nat>) {
    Conserved(own, free, own', free') && Kept(pages, pages', own, own', free) && Grows(own, own')
  }

  lemma KeptTwice(p0: Frames, p1: Frames, p2: Frames, own0: Owner, own1: Owner, own2: Owner, free0: seq<nat>,
                  free1: seq<nat>)
    requires Kept(p0, p1, own0, own1, free0) && Kept(p1, p2, own1, own2, free1) && Conserved(own0, free0, own1, free1)
    requires own1.Keys !! FreeSet(free1) && forall f :: f in own0 && f in own2 ==> f in own1
    ensures Kept(p0, p2, own0, own2, free0)
  {
    forall f | f in p0 && f !in free0 && (f in own0 ==> own0[f].PageOf? && f in own2)
      ensures f in p2 && p2[f] == p0[f]
    {
      assert f in own1.Keys + FreeSet(free1) <==> f in own0.Keys + FreeSet(free0);
    }
  }

  /** Pages `lo` up to `hi` are there and hold `data`. */
  ghost predicate AllHold(pages: Frames, pd: nat, lo: nat, hi: nat, data: seq<Byte>) {
    forall v: nat {:trigger HoldsBytes(pages, pd, v, data)} :: lo <= v < hi ==> HoldsBytes(pages, pd, v, data)
  }

  /** Pages that were filled stay so while the space grows. */
  lemma StillHold(p0: Frames, p1: Frames, pd: nat, own0: Owner, own1: Owner, free0: seq<nat>, lo: nat, hi: nat,
                  data: seq<Byte>)
    requires Owned(p0, pd, own0) && own0.Keys !! FreeSet(free0) && Kept(p0, p1, own0, own1, free0) && Grows(own0, own1)
    requires hi < USERPAGES && (forall v: nat :: v < hi ==> Lookup(p1, pd, v) == Lookup(p0, pd, v))
    requires AllHold(p0, pd, lo, hi, data) && HoldsBytes(p1, pd, hi, data)
    ensures AllHold(p1, pd, lo, hi + 1, data)
  {
    forall v: nat | lo <= v < hi ensures HoldsBytes(p1, pd, v, data) {
      assert HoldsBytes(p0, pd, v, data) && PageOk(p0, pd, own0, v);
    }
  }

  ghost predicate SameBelow(pages: Frames, pages': Frames, pd: nat, n: nat) {
    forall v: nat {:trigger Lookup(pages', pd, v)} :: v < n ==> Lookup(pages', pd, v) == Lookup(pages, pd, v)
  }

  ghost predicate SameBut(pages: Frames, pages': Frames, pd: nat, a: nat) {
    forall v: nat {:trigger Lookup(pages', pd, v)} ::
      v < ALLPAGES && v != a ==> Lookup(pages', pd, v) == Lookup(pages, pd, v)
  }

  /** In byte addresses: the pages that start from `newsz` up to `oldsz` are gone, and the others as they
      were. */
  ghost predicate ShrunkTo(pages: Frames, pages': Frames, pd: nat, newsz: nat, oldsz: nat) {
    forall v: nat {:trigger Lookup(pages', pd, v)} :: v < USERPAGES ==>
      Lookup(pages', pd, v) == if newsz <= v * PGSIZE < oldsz then None else Lookup(pages, pd, v)
  }

  lemma ClearedShrinks(pages: Frames, pages': Frames, pd: nat, newsz: nat, oldsz: nat)
    requires Cleared(pages, pages', pd, PageUp(newsz), PageUp(oldsz))
    ensures ShrunkTo(pages, pages', pd, newsz, oldsz)
  {
    forall v: nat | v < USERPAGES
      ensures Lookup(pages', pd, v) == if newsz <= v * PGSIZE < oldsz then None else Lookup(pages, pd, v)
    {
      StartsBelow(newsz, v);
      StartsBelow(oldsz, v);
    }
  }

  /** In byte addresses, what allocuvm has made of a space of `oldsz` bytes: its bytes are as they were;
      if it has grown, every address below `newsz` is backed, but for the last page when that is
      missing, the new bytes are 0, and no page starts at `newsz` or above; if not, no page is new. */
  ghost predicate GrownTo(p0: Frames, p: Frames, pd: nat, oldsz: nat, newsz: nat, full: bool, missing: bool) {
    && (forall x: nat {:trigger ByteAt(p, pd, x)} :: x < oldsz ==>
          Backed(p, pd, x) && Backed(p0, pd, x) && ByteAt(p, pd, x) == ByteAt(p0, pd, x))
    && (full ==>
          && (forall x: nat {:trigger Backed(p, pd, x)} :: x < newsz ==>
                (Backed(p, pd, x) <==> !(missing && x / PGSIZE == (newsz - 1) / PGSIZE)))
          && (forall v: nat {:trigger Lookup(p, pd, v)} ::
                v < USERPAGES && newsz <= v * PGSIZE ==> Lookup(p, pd, v).None?)
          && (!missing ==> forall x: nat {:trigger ByteAt(p, pd, x)} ::
                x < newsz && !Backed(p0, pd, x) ==> ByteAt(p, pd, x) == Some(0)))
    && (!full ==> forall v: nat {:trigger Lookup(p, pd, v)} :: v < USERPAGES ==> Lookup(p, pd, v) == Lookup(p0, pd, v))
  }

  lemma OldBytes(p0: Frames, own0: Owner, free0: seq<nat>, p: Frames, own: Owner, free: seq<nat>,
                 pd: nat, oldsz: nat, newsz: nat, full: bool, lost: set<nat>, x: nat)
    requires Allocated(p0, own0, free0, p, own, free, pd, PageUp(oldsz), PageUp(newsz), full, lost)
    requires Owned(p0, pd, own0) && Owned(p, pd, own) && own0.Keys !! FreeSet(free0)
    requires Contiguous(p0, pd, PageUp(oldsz)) && x < oldsz <= newsz && PageUp(newsz) <= USERPAGES
    ensures Backed(p, pd, x) && Backed(p0, pd, x) && ByteAt(p, pd, x) == ByteAt(p0, pd, x)
  {
    LiesBelow(oldsz, x);
    var v := x / PGSIZE;
    assert Lookup(p, pd, v) == Lookup(p0, pd, v);
    assert PageOk(p0, pd, own0, v) && PageOk(p, pd, own, v);
    var f := Lookup(p0, pd, v).value;
    assert f !in FreeSet(free0);
  }

  lemma NewBytes(p: Frames, pd: nat, lo: nat, hi: nat, x: nat)
    requires AllHold(p, pd, lo, hi, Repeat(0, PGSIZE)) && lo <= x / PGSIZE < hi
    ensures ByteAt(p, pd, x) == Some(0)
  {
    assert HoldsBytes(p, pd, x / PGSIZE, Repeat(0, PGSIZE));
  }

  /** The same as Allocated says in pages. */
  lemma AllocatedGrows(p0: Frames, own0: Owner, free0: seq<nat>, p: Frames, own: Owner, free: seq<nat>,
                       pd: nat, oldsz: nat, newsz: nat, full: bool, lost: set<nat>)
    requires Allocated(p0, own0, free0, p, own, free, pd, PageUp(oldsz), PageUp(newsz), full, lost)
    requires Owned(p0, pd, own0) && Owned(p, pd, own) && own0.Keys !! FreeSet(free0)
    requires Contiguous(p0, pd, PageUp(oldsz)) && oldsz <= newsz && PageUp(newsz) <= USERPAGES
    ensures GrownTo(p0, p, pd, oldsz, newsz, full, lost != {})
  {
    var lo, hi := PageUp(oldsz), PageUp(newsz);
    forall x: nat | x < oldsz
      ensures Backed(p, pd, x) && Backed(p0, pd, x) && ByteAt(p, pd, x) == ByteAt(p0, pd, x)
    {
      OldBytes(p0, own0, free0, p, own, free, pd, oldsz, newsz, full, lost, x);
    }
    if full {
      forall x: nat | x < newsz
        ensures Backed(p, pd, x) <==> !(lost != {} && x / PGSIZE == (newsz - 1) / PGSIZE)
        ensures lost == {} && !Backed(p0, pd, x) ==> ByteAt(p, pd, x) == Some(0)
      {
        LiesBelow(newsz, x);
        if lost == {} && !Backed(p0, pd, x) {
          NewBytes(p, pd, lo, hi, x);
        }
      }
      forall v: nat | v < USERPAGES && newsz <= v * PGSIZE ensures Lookup(p, pd, v).None? {
        StartsBelow(newsz, v);
      }
    } else {
      forall v: nat | v < USERPAGES ensures Lookup(p, pd, v) == Lookup(p0, pd, v) {
        assert v < lo ==> Lookup(p, pd, v) == Lookup(p0, pd, v);
      }
    }
  }

  // ----- The loop of deallocuvm -----

  /** The pages from `lo` up to `a` are gone. */
  ghost function DropPhase(p0: Frames, own0: Owner, free0: seq<nat>, p: Frames, own: Owner, free: seq<nat>,
                           pd: nat, lo: nat, a: nat): Phase {
    if Conserved(own0, free0, own, free) && Kept(p0, p, own0, own, free0) && Cleared(p0, p, pd, lo, a)
    then Filling else Neither
  }

  lemma DropOne(p0: Frames, own0: Owner, free0: seq<nat>, p1: Frames, own1: Owner, free1: seq<nat>,
                p2: Frames, own2: Owner, free2: seq<nat>, pd: nat, lo: nat, a: nat)
    requires DropPhase(p0, own0, free0, p1, own1, free1, pd, lo, a) == Filling && own1.Keys !! FreeSet(free1)
    requires lo <= a && own2.Keys <= own1.Keys
    requires Conserved(own1, free1, own2, free2) && Kept(p1, p2, own1, own2, free1)
    requires Lookup(p2, pd, a) == None && SameBut(p1, p2, pd, a)
    ensures DropPhase(p0, own0, free0, p2, own2, free2, pd, lo, a + 1) == Filling
  {
    assert forall f :: f in own2 ==> f in own2.Keys && f in own1;
    KeptTwice(p0, p1, p2, own0, own1, own2, free0, free1);
  }

  /** No table for page `a` means no pages above it. */
  lemma NoneFrom(p0: Frames, own0: Owner, free0: seq<nat>, p: Frames, own: Owner, free: seq<nat>,
                 pd: nat, n: nat, lo: nat, a: nat)
    requires DropPhase(p0, own0, free0, p, own, free, pd, lo, a) == Filling && Contiguous(p0, pd, n)
    requires lo <= a < USERPAGES && EntryAt(p, pd, Pdx(a)).None?
    ensures DropPhase(p0, own0, free0, p, own, free, pd, lo, a + NENTRIES) == Filling
    ensures forall w: nat :: a <= w < USERPAGES ==> Lookup(p0, pd, w) == None
  {
    forall w: nat | a <= w < USERPAGES ensures Lookup(p0, pd, w) == None {
      NothingAbove(p0, p, pd, n, lo, a, w);
    }
  }

  // ----- The loop of allocuvm -----

  /** Every page from `lo` up to `a` has been mapped. */
  ghost predicate Going(p0: Frames, own0: Owner, free0: seq<nat>, p: Frames, own: Owner, free: seq<nat>,
                        pd: nat, lo: nat, a: nat, hi: nat, data: seq<Byte>) {
    && Grown(p0, own0, free0, p, own, free) && SameBelow(p0, p, pd, lo)
    && Contiguous(p, pd, a) && AllHold(p, pd, lo, a, data) && MappedTo(p0, p, pd, lo, a, hi)
    && |free0| + Need(p, pd, a, hi) == |free| + Need(p0, pd, lo, hi)
  }

  /** The page before `a` got a frame but no table, and no frame is left. */
  ghost predicate Stuck(p0: Frames, own0: Owner, free0: seq<nat>, p: Frames, own: Owner,
                        pd: nat, lo: nat, a: nat, hi: nat, lost: set<nat>) {
    && Kept(p0, p, own0, own, free0) && Grows(own0, own) && SameBelow(p0, p, pd, lo)
    && lost !! own.Keys && own.Keys + lost == own0.Keys + FreeSet(free0) && |lost| == 1
    && lo < a && Contiguous(p, pd, a - 1) && |free0| < Need(p0, pd, lo, hi)
    && (a == hi <==> |free0| + 1 == Need(p0, pd, lo, hi) && LastBare(p0, pd, lo, hi))
  }

  /** How allocuvm ends: with all pages from `lo` up to `hi`, or with the last one missing though
      `full` is reported, or with none. */
  ghost predicate Allocated(p0: Frames, own0: Owner, free0: seq<nat>, p: Frames, own: Owner, free: seq<nat>,
                            pd: nat, lo: nat, hi: nat, full: bool, lost: set<nat>) {
    && Kept(p0, p, own0, own, free0) && SameBelow(p0, p, pd, lo)
    && own.Keys + FreeSet(free) + lost == own0.Keys + FreeSet(free0) && lost !! own.Keys + FreeSet(free)
    && var need := Need(p0, pd, lo, hi);
       if |free0| >= need then
         full && lost == {} && Contiguous(p, pd, hi) && AllHold(p, pd, lo, hi, Repeat(0, PGSIZE))
       else if |free0| + 1 == need && LastBare(p0, pd, lo, hi) then
         full && |lost| == 1 && Contiguous(p, pd, hi - 1)
       else !full && |lost| <= 1 && Contiguous(p, pd, lo)
  }

  datatype Phase = Filling | Wedged | Neither

  /** Where the loop stands; never at Neither. */
  ghost function PhaseOf(p0: Frames, own0: Owner, free0: seq<nat>, p: Frames, own: Owner, free: seq<nat>,
                         pd: nat, lo: nat, a: nat, hi: nat, lost: set<nat>): Phase {
    if lost == {} && Going(p0, own0, free0, p, own, free, pd, lo, a, hi, Repeat(0, PGSIZE)) then Filling
    else if lost != {} && free == [] && Stuck(p0, own0, free0, p, own, pd, lo, a, hi, lost) then Wedged
    else Neither
  }

  lemma Finished(p0: Frames, own0: Owner, free0: seq<nat>, p: Frames, own: Owner, free: seq<nat>,
                 pd: nat, lo: nat, hi: nat, lost: set<nat>)
    requires lo <= hi && own.Keys !! FreeSet(free)
    requires PhaseOf(p0, own0, free0, p, own, free, pd, lo, hi, hi, lost) != Neither
    ensures Allocated(p0, own0, free0, p, own, free, pd, lo, hi, true, lost)
  {
    assert free == [] ==> FreeSet(free) == {};
  }

  lemma NextAbsent(p0: Frames, own0: Owner, free0: seq<nat>, p: Frames, own: Owner, free: seq<nat>,
                   pd: nat, lo: nat, a: nat, hi: nat, lost: set<nat>)
    requires a < hi <= USERPAGES && PhaseOf(p0, own0, free0, p, own, free, pd, lo, a, hi, lost) != Neither
    ensures Lookup(p, pd, a) == None
  {
  }

  lemma Extent(p0: Frames, own0: Owner, free0: seq<nat>, p: Frames, own: Owner, free: seq<nat>,
               pd: nat, lo: nat, a: nat, hi: nat, lost: set<nat>) returns (n: nat)
    requires lo <= a && PhaseOf(p0, own0, free0, p, own, free, pd, lo, a, hi, lost) != Neither
    ensures lo <= n <= a && Contiguous(p, pd, n)
  {
    n := if lost == {} then a else a - 1;
  }

  lemma GoOn(p0: Frames, own0: Owner, free0: seq<nat>, p1: Frames, own1: Owner, free1: seq<nat>,
             p2: Frames, own2: Owner, free2: seq<nat>, pd: nat, lo: nat, a: nat, hi: nat)
    requires lo <= a < hi <= USERPAGES && PhaseOf(p0, own0, free0, p1, own1, free1, pd, lo, a, hi, {}) == Filling
    requires Owned(p1, pd, own1) && own1.Keys !! FreeSet(free1) && Grown(p1, own1, free1, p2, own2, free2)
    requires TablesKept(p1, p2, pd, a) && |free2| + 1 + Bit(NoTable(p1, pd, a)) == |free1|
    requires HoldsBytes(p2, pd, a, Repeat(0, PGSIZE)) && SameBut(p1, p2, pd, a)
    ensures PhaseOf(p0, own0, free0, p2, own2, free2, pd, lo, a + 1, hi, {}) == Filling
  {
    KeptTwice(p0, p1, p2, own0, own1, own2, free0, free1);
    StillHold(p1, p2, pd, own1, own2, free1, lo, a, Repeat(0, PGSIZE));
    MappedOneMore(p0, p1, p2, pd, lo, a, hi);
    NeedStep(p1, p2, pd, a, hi);
  }

  lemma GetStuck(p0: Frames, own0: Owner, free0: seq<nat>, p1: Frames, own: Owner, free1: seq<nat>,
                 p2: Frames, pd: nat, lo: nat, a: nat, hi: nat)
    requires lo <= a < hi <= USERPAGES && PhaseOf(p0, own0, free0, p1, own, free1, pd, lo, a, hi, {}) == Filling
    requires own.Keys !! FreeSet(free1) && |free1| == 1 && NoTable(p1, pd, a)
    requires p2 == p1[free1[0] := Bytes(Repeat(0, PGSIZE))] && SameLookups(p1, p2, pd)
    ensures PhaseOf(p0, own0, free0, p2, own, [], pd, lo, a + 1, hi, {free1[0]}) == Wedged
  {
    RunsShort(p0, p1, pd, lo, a, hi, |free0|, 1);
    assert free1 == [free1[0]];
    assert FreeSet(free1) == {free1[0]};
    assert Kept(p1, p2, own, own, free1);
    KeptTwice(p0, p1, p2, own0, own, own, free0, free1);
  }

  /** What allocuvm promises when it gives up. */
  lemma Restored(p0: Frames, own0: Owner, free0: seq<nat>, p1: Frames, own1: Owner,
                 p2: Frames, own2: Owner, free2: seq<nat>, pd: nat, lo: nat, a: nat, hi: nat, lost: set<nat>)
    requires lo <= a < hi <= USERPAGES && PhaseOf(p0, own0, free0, p1, own1, [], pd, lo, a, hi, lost) != Neither
    requires Conserved(own1, [], own2, free2) && Kept(p1, p2, own1, own2, []) && Cleared(p1, p2, pd, lo, hi)
    requires own2.Keys !! FreeSet(free2) && Contiguous(p2, pd, lo)
    ensures Allocated(p0, own0, free0, p2, own2, free2, pd, lo, hi, false, lost)
  {
    assert FreeSet([]) == {};
    if lost == {} {
      KeptTwice(p0, p1, p2, own0, own1, own2, free0, []);
      RunsShort(p0, p1, pd, lo, a, hi, |free0|, 0);
    } else {
      assert own2.Keys + FreeSet(free2) == own1.Keys;
      KeptAll(p0, p1, p2, own0, own1, own2, free0);
    }
  }

  /** As KeptTwice, when some frames have been lost on the way. */
  lemma KeptAll(p0: Frames, p1: Frames, p2: Frames, own0: Owner, own1: Owner, own2: Owner, free0: seq<nat>)
    requires Kept(p0, p1, own0, own1, free0) && Kept(p1, p2, own1, own2, []) && Grows(own0, own1)
    requires own1.Keys <= own0.Keys + FreeSet(free0)
    ensures Kept(p0, p2, own0, own2, free0)
  {
    forall f | f in p0 && f !in free0 && (f in own0 ==> own0[f].PageOf? && f in own2)
      ensures f in p2 && p2[f] == p0[f]
    {
      assert f in own1 ==> f in own1.Keys && f in own0;
    }
    forall f | f in own0 && f in own2 ensures own2[f] == own0[f] {
      assert f in own1;
    }
  }

  ghost predicate SameLookups(pages: Frames, pages': Frames, pd: nat) {
    forall v: nat {:trigger Lookup(pages', pd, v)} :: v < ALLPAGES ==> Lookup(pages', pd, v) == Lookup(pages, pd, v)
  }

  /** What kfree fills a page with. */
  function FreeFrame(f: nat): Page {
    Bytes(Repeat(1, PGSIZE))
  }

  class Memory {
    var pages: Frames
    var free: seq<nat>

    ghost predicate Heap()
      reads this
    {
      NoDup(free) && forall f :: f in free ==> f in pages
    }

    ghost predicate Space(pd: nat, own: Owner)
      reads this
    {
      Heap() && Owned(pages, pd, own) && own.Keys !! FreeSet(free) && own.Keys <= pages.Keys
    }

    /** kinit1 and kinit2: every frame from `lo` up to `hi` is free. */
    constructor (lo: nat, hi: nat)
      requires lo <= hi
      ensures Heap() && |free| == hi - lo && FreeSet(free) == pages.Keys && forall f :: f in pages <==> lo <= f < hi
    {
      pages := map f: nat | lo <= f < hi :: FreeFrame(f);
      free := [];
      new;
      var f := lo;
      while f < hi
        invariant lo <= f <= hi && Heap() && |free| == f - lo
        invariant (forall g :: g in free <==> lo <= g < f) && forall g :: g in pages <==> lo <= g < hi
      {
        Kfree(f);
        f := f + 1;
      }
    }

    method Kalloc() returns (r: Option<nat>)
      requires Heap()
      modifies this`free
      ensures Heap()
      ensures r.None? ==> free == old(free) == []
      ensures r.Some? ==> old(free) == [r.value] + free && r.value in pages && r.value !in free
    {
      if free == [] {
        return None;
      }
      r := Some(free[0]);
      free := free[1..];
    }

    method Kfree(f: nat)
      requires Heap() && f in pages && f !in free
      modifies this
      ensures Heap() && free == [f] + old(free) && pages == old(pages)[f := Bytes(Repeat(1, PGSIZE))]
    {
      pages := pages[f := Bytes(Repeat(1, PGSIZE))];
      free := [f] + free;
      assert free[1..] == old(free);
    }

    /** walkpgdir: the table for page `v`, made if need be. */
    method Walk(pd: nat, v: nat, alloc: bool, ghost own: Owner) returns (t: Option<nat>, ghost own': Owner)
      requires Space(pd, own) && v < ALLPAGES
      modifies this
      ensures Space(pd, own') && Grown(old(pages), own, old(free), pages, own', free)
      ensures SameLookups(old(pages), pages, pd)
      ensures t == EntryAt(pages, pd, Pdx(v)) && (t.Some? ==> TablesKept(old(pages), pages, pd, v))
      ensures t.Some? ==> |free| + Bit(NoTable(old(pages), pd, v)) == |old(free)|
      ensures t.None? || !alloc ==> pages == old(pages) && free == old(free) && own' == own
      ensures t.None? && alloc ==> free == []
    {
      own' := own;
      t := EntryAt(pages, pd, Pdx(v));
      if t.Some? || !alloc {
        return;
      }
      t := Kalloc();
      if t.None? {
        return;
      }
      AddTable(pages, pd, own, Pdx(v), t.value);
      forall w: nat | w < ALLPAGES
        ensures Lookup(WithTable(pages, pd, Pdx(v), t.value), pd, w) == Lookup(pages, pd, w)
      {
        TableLookup(pages, pd, own, Pdx(v), t.value, w);
      }
      pages := pages[t.value := Table(NoEntries())];
      pages := SetEntry(pages, pd, Pdx(v), t);
      assert pages == WithTable(old(pages), pd, Pdx(v), t.value);
      own' := own[t.value := TableOf(Pdx(v))];
    }
  
    /** The store into the page table entry. */
    method SetPte(pd: nat, v: nat, t: nat, f: nat, ghost own: Owner) returns (ghost own': Owner)
      requires Space(pd, own) && v < ALLPAGES && EntryAt(pages, pd, Pdx(v)) == Some(t) && Lookup(pages, pd, v) == None
      requires v < USERPAGES ==> f !in own && f !in free && IsData(pages, f)
      modifies this`pages
      ensures own' == OwnerAfter(own, v, None, Some(f)) && Space(pd, own')
      ensures Kept(old(pages), pages, own, own', free) && pages.Keys == old(pages).Keys
      ensures forall x: nat {:trigger EntryAt(pages, pd, x)} ::
                x < NENTRIES ==> EntryAt(pages, pd, x) == EntryAt(old(pages), pd, x)
      ensures forall w: nat {:trigger Lookup(pages, pd, w)} ::
                w < ALLPAGES ==> Lookup(pages, pd, w) == if w == v then Some(f) else Lookup(old(pages), pd, w)
    {
      WriteEntry(pages, pd, own, v, Some(f));
      ghost var mapped := SetEntry(pages, t, Ptx(v), Some(f));
      forall w: nat | w < ALLPAGES ensures Lookup(mapped, pd, w) == if w == v then Some(f) else Lookup(pages, pd, w) {
        EntryLookup(pages, pd, own, v, Some(f), w);
      }
      assert TableOk(pages, pd, own, Pdx(v));
      pages := SetEntry(pages, t, Ptx(v), Some(f));
      own' := OwnerAfter(own, v, None, Some(f));
    }

    /** One turn of the loop in mappages.  The panic on a page that is there cannot happen; it
        fails exactly when a table is needed and no frame is free. */
    method MapPage(pd: nat, v: nat, f: nat, ghost own: Owner) returns (ok: bool, ghost own': Owner)
      requires Space(pd, own) && v < ALLPAGES && Lookup(pages, pd, v) == None
      requires v < USERPAGES ==> f !in own && f !in free && IsData(pages, f)
      modifies this
      ensures ok <==> old(free) != [] || !NoTable(old(pages), pd, v)
      ensures !ok ==> pages == old(pages) && free == old(free) && own' == own
      ensures ok ==> Space(pd, own') && TablesKept(old(pages), pages, pd, v)
      ensures ok ==> |free| + Bit(NoTable(old(pages), pd, v)) == |old(free)|
      ensures ok ==> Conserved(if v < USERPAGES then own[f := PageOf(v)] else own, old(free), own', free)
      ensures ok ==> Kept(old(pages), pages, own, own', old(free)) && Grows(own, own')
      ensures ok && v < USERPAGES ==> f in own' && own'[f] == PageOf(v)
      ensures ok ==> forall w: nat {:trigger Lookup(pages, pd, w)} ::
                w < ALLPAGES ==> Lookup(pages, pd, w) == if w == v then Some(f) else Lookup(old(pages), pd, w)
    {
      var t;
      t, own' := Walk(pd, v, true, own);
      ok := t.Some?;
      if !ok {
        return;
      }
      own' := SetPte(pd, v, t.value, f, own');
    }

    /** One present page in the loop of deallocuvm. */
    method DropPage(pd: nat, v: nat, t: nat, ghost own: Owner) returns (ghost own': Owner)
      requires Space(pd, own) && v < USERPAGES && EntryAt(pages, pd, Pdx(v)) == Some(t) && Lookup(pages, pd, v).Some?
      modifies this
      ensures Space(pd, own') && Conserved(own, old(free), own', free) && Kept(old(pages), pages, own, own', old(free))
      ensures own' == own - {Lookup(old(pages), pd, v).value}
      ensures forall w: nat {:trigger Lookup(pages, pd, w)} ::
                w < ALLPAGES ==> Lookup(pages, pd, w) == if w == v then None else Lookup(old(pages), pd, w)
    {
      var f := EntryAt(pages, t, Ptx(v)).value;
      assert PageOk(pages, pd, own, v) && TableOk(pages, pd, own, Pdx(v));
      WriteEntry(pages, pd, own, v, None);
      ghost var cleared := SetEntry(pages, t, Ptx(v), None);
      forall w: nat | w < ALLPAGES ensures Lookup(cleared, pd, w) == if w == v then None else Lookup(pages, pd, w) {
        EntryLookup(pages, pd, own, v, None, w);
      }
      own' := own - {f};
      Kfree(f);
      pages := SetEntry(pages, t, Ptx(v), None);
      OwnedElsewhere(cleared, pages, pd, own');
    }

    /** deallocuvm, for a space of `n` pages: exactly the pages between the sizes go. */
    method DeallocUvm(pd: nat, oldsz: nat, newsz: nat, ghost own: Owner, ghost n: nat) returns (r: nat,
                      ghost own': Owner)
      requires Space(pd, own) && Contiguous(pages, pd, n) && PageUp(oldsz) <= USERPAGES
      modifies this
      ensures r == (if newsz >= oldsz then oldsz else newsz)
      ensures Space(pd, own') && Conserved(own, old(free), own', free) && Kept(old(pages), pages, own, own', old(free))
      ensures Cleared(old(pages), pages, pd, PageUp(r), PageUp(oldsz))
      ensures n <= PageUp(oldsz) ==> Contiguous(pages, pd, if PageUp(r) < n then PageUp(r) else n)
      ensures ShrunkTo(old(pages), pages, pd, r, oldsz)
    {
      own' := own;
      if newsz >= oldsz {
        return oldsz, own';
      }
      var a := PageUp(newsz);
      while a < PageUp(oldsz)
        invariant PageUp(newsz) <= a && Space(pd, own')
        invariant DropPhase(old(pages), own, old(free), pages, own', free, pd, PageUp(newsz), a) == Filling
        invariant forall w: nat :: PageUp(oldsz) <= w < a && w < USERPAGES ==> Lookup(old(pages), pd, w) == None
      {
        var t;
        t, own' := Walk(pd, a, false, own');
        if t.None? {
          NoneFrom(old(pages), own, old(free), pages, own', free, pd, n, PageUp(newsz), a);
          a := a + (NENTRIES - 1);
        } else {
          ghost var p1, own1, free1 := pages, own', free;
          if Lookup(pages, pd, a).Some? {
            own' := DropPage(pd, a, t.value, own');
          }
          DropOne(old(pages), own, old(free), p1, own1, free1, pages, own', free, pd, PageUp(newsz), a);
        }
        a := a + 1;
      }
      r := newsz;
      ClearedShrinks(old(pages), pages, pd, r, oldsz);
    }

    /** A new frame with `data` mapped at page `v`.  Without a frame for it, `mem` is false and
        nothing happens; without one for its table, `ok` is false and the frame is lost. */
    method GrowPage(pd: nat, v: nat, data: seq<Byte>, ghost own: Owner) returns (ok: bool, mem: bool, ghost own': Owner)
      requires Space(pd, own) && v < USERPAGES && Lookup(pages, pd, v) == None
      modifies this
      ensures mem <==> old(free) != []
      ensures ok <==> |old(free)| >= 1 + Bit(NoTable(old(pages), pd, v))
      ensures !mem ==> !ok && pages == old(pages) && free == old(free) && own' == own
      ensures ok ==> Space(pd, own') && Grown(old(pages), own, old(free), pages, own', free)
      ensures ok ==> |free| + 1 + Bit(NoTable(old(pages), pd, v)) == |old(free)| && TablesKept(old(pages), pages, pd, v)
      ensures ok ==> HoldsBytes(pages, pd, v, data) && forall w: nat {:trigger Lookup(pages, pd, w)} ::
                w < ALLPAGES && w != v ==> Lookup(pages, pd, w) == Lookup(old(pages), pd, w)
      ensures mem && !ok ==> free == [] && own' == own && Space(pd, own) && SameLookups(old(pages), pages, pd)
      ensures mem && !ok ==> pages == old(pages)[old(free)[0] := Bytes(data)]
    {
      own' := own;
      var f := Kalloc();
      if f.None? {
        return false, false, own';
      }
      mem := true;
      pages := pages[f.value := Bytes(data)];
      OwnedElsewhere(old(pages), pages, pd, own);
      label Filled:
      assert NoTable(pages, pd, v) == NoTable(old(pages), pd, v);
      ok, own' := MapPage(pd, v, f.value, own);
      if ok {
        assert f.value in old@Filled(pages) && f.value !in old@Filled(free) && f.value !in own;
        assert forall x: nat :: x < NENTRIES ==> EntryAt(old@Filled(pages), pd, x) == EntryAt(old(pages), pd, x);
      }
    }

    /** One turn of the loop in allocuvm, up to the test of kalloc's result. */
    method AllocStep(pd: nat, a: nat, ghost own: Owner, ghost lost: set<nat>,
                     ghost p0: Frames, ghost own0: Owner, ghost free0: seq<nat>, ghost lo: nat, ghost hi: nat)
      returns (mem: bool, ghost own': Owner, ghost lost': set<nat>)
      requires Space(pd, own) && lo <= a < hi <= USERPAGES
      requires PhaseOf(p0, own0, free0, pages, own, free, pd, lo, a, hi, lost) != Neither
      modifies this
      ensures mem <==> old(free) != []
      ensures mem ==> Space(pd, own')
      ensures mem ==> PhaseOf(p0, own0, free0, pages, own', free, pd, lo, a + 1, hi, lost') != Neither
      ensures !mem ==> pages == old(pages) && free == old(free) && own' == own && lost' == lost
    {
      lost' := lost;
      var ok;
      NextAbsent(p0, own0, free0, pages, own, free, pd, lo, a, hi, lost);
      ok, mem, own' := GrowPage(pd, a, Repeat(0, PGSIZE), own);
      if mem {
        if ok {
          GoOn(p0, own0, free0, old(pages), own, old(free), pages, own', free, pd, lo, a, hi);
        } else {
          lost' := {old(free)[0]};
          GetStuck(p0, own0, free0, old(pages), own, old(free), pages, pd, lo, a, hi);
        }
      }
    }

    /** The loop of allocuvm up to page `hi`, or up to page `a` where kalloc fails. */
    method AllocLoop(pd: nat, lo: nat, hi: nat, ghost own: Owner)
      returns (mem: bool, ghost a: nat, ghost own': Owner, ghost lost: set<nat>)
      requires Space(pd, own) && Contiguous(pages, pd, lo) && lo <= hi <= USERPAGES
      modifies this
      ensures Space(pd, own') && if mem then a == hi else lo <= a < hi && free == []
      ensures PhaseOf(old(pages), own, old(free), pages, own', free, pd, lo, a, hi, lost) != Neither
    {
      own', lost, mem := own, {}, true;
      var v := lo;
      while v < hi
        invariant lo <= v <= hi && Space(pd, own')
        invariant PhaseOf(old(pages), own, old(free), pages, own', free, pd, lo, v, hi, lost) != Neither
      {
        mem, own', lost := AllocStep(pd, v, own', lost, old(pages), own, old(free), lo, hi);
        if !mem {
          return false, v, own', lost;
        }
        v := v + 1;
      }
      a, mem := v, true;
    }

    /** The end of allocuvm: deallocuvm when kalloc has failed. */
    method AllocEnd(pd: nat, oldsz: nat, newsz: nat, mem: bool, ghost a: nat, ghost own: Owner, ghost lost: set<nat>,
                    ghost p0: Frames, ghost own0: Owner, ghost free0: seq<nat>)
      returns (ghost own': Owner)
      requires Space(pd, own) && oldsz <= newsz && PageUp(newsz) <= USERPAGES
      requires if mem then a == PageUp(newsz) else PageUp(oldsz) <= a < PageUp(newsz) && free == []
      requires PhaseOf(p0, own0, free0, pages, own, free, pd, PageUp(oldsz), a, PageUp(newsz), lost) != Neither
      modifies this
      ensures Space(pd, own')
      ensures Allocated(p0, own0, free0, pages, own', free, pd, PageUp(oldsz), PageUp(newsz), mem, lost)
    {
      own' := own;
      ghost var lo, hi := PageUp(oldsz), PageUp(newsz);
      if mem {
        Finished(p0, own0, free0, pages, own, free, pd, lo, hi, lost);
      } else {
        ghost var n := Extent(p0, own0, free0, pages, own, free, pd, lo, a, hi, lost);
        var r;
        r, own' := DeallocUvm(pd, newsz, oldsz, own, n);
        Restored(p0, own0, free0, old(pages), own, pages, own', free, pd, lo, a, hi, lost);
      }
    }

    /** allocuvm, for a space of `oldsz` bytes.  With enough frames for the pages and their
        tables the space grows by zeroed pages.  One frame short, when the last page needs a
        table of its own, the code takes it for mapped and loses its frame.  Otherwise the space
        is as before, and at most one frame is lost. */
    method AllocUvm(pd: nat, oldsz: nat, newsz: nat, ghost own: Owner)
      returns (r: nat, ghost own': Owner, ghost lost: set<nat>, ghost full: bool)
      requires Space(pd, own) && SizeIs(pages, pd, oldsz) && oldsz <= USERPAGES * PGSIZE
      modifies this
      ensures Space(pd, own')
      ensures newsz >= USERPAGES * PGSIZE ==> r == 0 && pages == old(pages) && free == old(free) && own' == own
      ensures newsz < oldsz && newsz < USERPAGES * PGSIZE ==>
                r == oldsz && pages == old(pages) && free == old(free) && own' == own
      ensures oldsz <= newsz < USERPAGES * PGSIZE ==> r == (if full then newsz else 0)
      ensures oldsz <= newsz < USERPAGES * PGSIZE ==>
                Allocated(old(pages), own, old(free), pages, own', free, pd, PageUp(oldsz), PageUp(newsz), full, lost)
      ensures oldsz <= newsz < USERPAGES * PGSIZE ==> GrownTo(old(pages), pages, pd, oldsz, newsz, full, lost != {})
    {
      own', lost, full := own, {}, false;
      if newsz >= USERPAGES * PGSIZE {
        return 0, own', lost, full;
      }
      if newsz < oldsz {
        return oldsz, own', lost, full;
      }
      SizeContiguous(pages, pd, oldsz);
      var mem;
      ghost var a;
      mem, a, own', lost := AllocLoop(pd, PageUp(oldsz), PageUp(newsz), own);
      own' := AllocEnd(pd, oldsz, newsz, mem, a, own', lost, old(pages), own, old(free));
      full := mem;
      r := if mem then newsz else 0;
      AllocatedGrows(old(pages), own, old(free), pages, own', free, pd, oldsz, newsz, full, lost);
    }

    /** The loop of freevm over the directory, when no user page is left. */
    method FreeTables(pd: nat, ghost own: Owner)
      requires Space(pd, own) && Contiguous(pages, pd, 0)
      modifies this
      ensures Heap() && FreeSet(free) == FreeSet(old(free)) + own.Keys && pd !in old(free)
      ensures Kept(old(pages), pages, own, map[], old(free))
    {
      ghost var rest := own;
      LeftStart(pages, pd, own);
      var es, i := pages[pd].es, 0;
      while i < NENTRIES
        invariant 0 <= i <= NENTRIES && Heap() && pd in pages && pages[pd] == Table(es) && Left(es, pd, rest, i)
        invariant rest.Keys !! FreeSet(free) && rest.Keys <= pages.Keys && rest.Keys <= own.Keys
        invariant rest.Keys + FreeSet(free) == own.Keys + FreeSet(old(free))
        invariant Kept(old(pages), pages, own, map[], old(free))
      {
        LeftNext(es, pd, rest, i);
        if es[i].Some? {
          rest := rest - {es[i].value};
          Kfree(es[i].value);
        }
        i := i + 1;
      }
      assert rest.Keys == {pd};
      Kfree(pd);
    }

    /** freevm: every frame of the space is back on the free list, once. */
    method FreeVm(pd: nat, ghost own: Owner, ghost n: nat)
      requires Space(pd, own) && Contiguous(pages, pd, n) && n <= USERPAGES
      modifies this
      ensures Heap() && FreeSet(free) == FreeSet(old(free)) + own.Keys
      ensures Kept(old(pages), pages, own, map[], old(free))
    {
      var _, own' := DeallocUvm(pd, USERPAGES * PGSIZE, 0, own, n);
      FreeTables(pd, own');
    }
  
    /** mappages for a row of kmap; `done` pages of it are mapped.  It fails exactly when the next
        page needs a table and no frame is left. */
    method MapKernel(pd: nat, k: Range, ghost own: Owner) returns (ok: bool, ghost done: nat, ghost own': Owner)
      requires Space(pd, own) && KernelRange(k) && Unmapped(pages, pd, k)
      modifies this
      ensures Space(pd, own') && Grown(old(pages), own, old(free), pages, own', free)
      ensures SameOutside(old(pages), pages, pd, k) && (ok ==> Mapped(pages, pd, k))
      ensures done <= k.n && if ok then done == k.n else done < k.n && NoTable(pages, pd, k.v + done) && free == []
      ensures TablesFor(old(pages), pages, pd, k.(n := done))
      ensures |free| + Present(pages, pd, NENTRIES) == |old(free)| + Present(old(pages), pd, NENTRIES)
    {
      var i := 0;
      own', ok := own, true;
      while i < k.n
        invariant 0 <= i <= k.n && Space(pd, own')
        invariant RowPhase(old(pages), own, old(free), pages, own', free, pd, k, i) == Filling
      {
        ok, own' := MapRowPage(pd, k, i, own', old(pages), own, old(free));
        if !ok {
          done := i;
          return;
        }
        i := i + 1;
      }
      ok, done := true, i;
      assert k.(n := i) == k;
    }

    method MapRowPage(pd: nat, k: Range, i: nat, ghost own: Owner, ghost p0: Frames, ghost own0: Owner,
                      ghost free0: seq<nat>)
      returns (ok: bool, ghost own': Owner)
      requires Space(pd, own) && KernelRange(k) && i < k.n && Unmapped(p0, pd, k)
      requires RowPhase(p0, own0, free0, pages, own, free, pd, k, i) == Filling
      modifies this
      ensures ok ==> Space(pd, own') && RowPhase(p0, own0, free0, pages, own', free, pd, k, i + 1) == Filling
      ensures !ok ==> pages == old(pages) && free == old(free) == [] && own' == own && NoTable(pages, pd, k.v + i)
    {
      ok, own' := MapPage(pd, k.v + i, k.pa + i, own);
      if ok {
        RowGoesOn(p0, own0, free0, old(pages), own, old(free), pages, own', free, pd, k, i);
      }
    }

    /** setupkvm: a space without user pages, all of it from the free list.  It succeeds exactly
        when there are frames for the directory and the tables of kmap; when it fails it has
        used up the free list, and nobody has the frames. */
    method SetupKvm(kmap: seq<Range>) returns (r: Option<nat>, ghost own: Owner)
      requires Heap() && KernelMap(kmap)
      modifies this
      ensures Heap() && Conserved(map[], old(free), own, free) && Kept(old(pages), pages, map[], own, old(free))
      ensures own.Keys !! FreeSet(free)
      ensures r.Some? <==> |old(free)| >= 1 + KernelTables(kmap)
      ensures r.Some? ==> Space(r.value, own) && RowsMapped(pages, r.value, kmap, |kmap|)
      ensures r.Some? ==> |old(free)| == |free| + 1 + KernelTables(kmap)
      ensures r.Some? ==> forall x: nat :: x < Pdx(USERPAGES) ==> EntryAt(pages, r.value, x).None?
      ensures r.None? ==> free == []
    {
      own := map[];
      r := Kalloc();
      if r.None? {
        return;
      }
      var pd := r.value;
      pages := pages[pd := Table(NoEntries())];
      own := map[pd := Directory];
      SetupStart(old(pages), old(free), pages, free, pd, kmap);
      var k := 0;
      while k < |kmap|
        invariant 0 <= k <= |kmap| && Space(pd, own)
        invariant SetupPhase(old(pages), old(free), pages, own, free, pd, kmap, k) == Filling
      {
        var ok;
        ok, own := SetupStep(pd, kmap, k, own, old(pages), old(free));
        if !ok {
          return None, own;
        }
        k := k + 1;
      }
      AllRowsTabled(pages, pd, kmap);
    }

    /** One turn of the loop in setupkvm. */
    method SetupStep(pd: nat, kmap: seq<Range>, k: nat, ghost own: Owner, ghost p0: Frames, ghost free0: seq<nat>)
      returns (ok: bool, ghost own': Owner)
      requires Space(pd, own) && KernelMap(kmap) && k < |kmap|
      requires SetupPhase(p0, free0, pages, own, free, pd, kmap, k) == Filling
      modifies this
      ensures Space(pd, own')
      ensures ok ==> SetupPhase(p0, free0, pages, own', free, pd, kmap, k + 1) == Filling
      ensures !ok ==> Conserved(map[], free0, own', free) && Kept(p0, pages, map[], own', free0)
      ensures !ok ==> free == [] && |free0| <= KernelTables(kmap)
    {
      assert Unmapped(pages, pd, kmap[k]) && KernelRange(kmap[k]);
      ghost var done;
      ok, done, own' := MapKernel(pd, kmap[k], own);
      if ok {
        SetupRow(p0, free0, old(pages), own, old(free), pages, own', free, pd, kmap, k);
      } else {
        SetupFails(p0, free0, old(pages), own, old(free), pages, own', free, pd, kmap, k, done);
      }
    }

    /** One turn of the loop in copyuvm, for page `i` of `n`. */
    method CopyStep(pd: nat, d: nat, i: nat, ghost own: Owner, ghost child: Owner,
                    ghost p0: Frames, ghost free0: seq<nat>, ghost n: nat, ghost base: nat)
      returns (ok: bool, ghost child': Owner, ghost lost: set<nat>)
      requires Space(d, child) && i < n <= USERPAGES && Lookup(p0, pd, i).Some?
      requires Owned(p0, pd, own) && own.Keys !! FreeSet(free0) && own.Keys <= p0.Keys
      requires CopyPhase(p0, pd, free0, pages, d, child, free, i, n, base) == Filling
      modifies this
      ensures Space(d, child') && Kept(p0, pages, map[], child', free0)
      ensures ok ==> lost == {} && CopyPhase(p0, pd, free0, pages, d, child', free, i + 1, n, base) == Filling
      ensures !ok ==> |free0| < base + n + TableCount(n) && |lost| <= 1 && Contiguous(pages, d, i)
      ensures !ok ==> AllOf(child', free, lost, free0)
    {
      lost := {};
      assert PageOk(p0, pd, own, i);
      ParentKept(p0, pages, pd, own, child, free0);
      var f := Lookup(pages, pd, i).value;
      var mem;
      ok, mem, child' := GrowPage(d, i, pages[f].bytes, child);
      if ok {
        CopyGoesOn(p0, pd, free0, old(pages), d, child, old(free), pages, child', free, i, n, base);
      } else {
        NeedNext(old(pages), d, i, n);
        lost := if mem then {old(free)[0]} else {};
        CopyLoses(p0, pd, free0, old(pages), d, child, old(free), pages, free, i, n, base, lost);
      }
    }

    /** The end of copyuvm when a page could not be had. */
    method CopyBad(d: nat, i: nat, ghost child: Owner, ghost lost: set<nat>, ghost p0: Frames, ghost free0: seq<nat>)
      requires Space(d, child) && Contiguous(pages, d, i) && i <= USERPAGES
      requires Kept(p0, pages, map[], child, free0) && AllOf(child, free, lost, free0)
      modifies this
      ensures Heap() && Kept(p0, pages, map[], map[], free0) && AllOf(map[], free, lost, free0)
    {
      FreeVm(d, child, i);
      KeptThrough(p0, old(pages), pages, child, free0, old(free));
    }

    /** copyuvm of a space of `sz` bytes: it succeeds exactly when there are frames for
        the directory, the kernel's tables, the pages and their tables.  Then the child has the
        parent's bytes in frames of its own.  The parent is untouched.  When it fails after
        setupkvm, at most one frame is lost; when setupkvm fails, all free ones are. */
    method CopyUvm(pd: nat, sz: nat, kmap: seq<Range>, ghost own: Owner)
      returns (r: Option<nat>, ghost child: Owner, ghost lost: set<nat>)
      requires Space(pd, own) && SizeIs(pages, pd, sz) && sz <= USERPAGES * PGSIZE && KernelMap(kmap)
      modifies this
      ensures r.Some? <==> |old(free)| >= 1 + KernelTables(kmap) + PageUp(sz) + TableCount(PageUp(sz))
      ensures Space(pd, own) && forall f :: f in own ==> f in old(pages) && pages[f] == old(pages)[f]
      ensures r.Some? ==> Space(r.value, child) && Conserved(map[], old(free), child, free)
      ensures r.Some? ==> Contiguous(pages, r.value, PageUp(sz)) && AllSame(pages, pd, pages, r.value, PageUp(sz))
      ensures r.Some? ==> CopiedTo(pages, pd, r.value, sz)
      ensures r.None? ==> AllOf(map[], free, lost, old(free))
      ensures r.None? ==> if |old(free)| > KernelTables(kmap) then |lost| <= 1 else free == []
    {
      lost := {};
      SizeContiguous(pages, pd, sz);
      r, child := SetupKvm(kmap);
      if r.None? {
        lost := child.Keys;
        ParentKept(old(pages), pages, pd, own, child, old(free));
        return;
      }
      ghost var base, n := 1 + KernelTables(kmap), PageUp(sz);
      NeedFresh(pages, r.value, n);
      assert CopyPhase(old(pages), pd, old(free), pages, r.value, child, free, 0, n, base) == Filling;
      var ok;
      ok, child, lost := CopyPages(pd, r.value, PageUp(sz), own, child, old(pages), old(free), base);
      if !ok {
        r := None;
      } else {
        SameCopies(pages, pd, r.value, sz);
      }
    }

    /** The loop of copyuvm, and its end. */
    method CopyPages(pd: nat, d: nat, n: nat, ghost own: Owner, ghost child: Owner,
                     ghost p0: Frames, ghost free0: seq<nat>, ghost base: nat)
      returns (ok: bool, ghost child': Owner, ghost lost: set<nat>)
      requires Space(d, child) && Contiguous(p0, pd, n) && n <= USERPAGES
      requires Owned(p0, pd, own) && own.Keys !! FreeSet(free0) && own.Keys <= p0.Keys
      requires CopyPhase(p0, pd, free0, pages, d, child, free, 0, n, base) == Filling
      modifies this
      ensures ok <==> |free0| >= base + n + TableCount(n)
      ensures Space(pd, own) && forall f :: f in own ==> f in p0 && pages[f] == p0[f]
      ensures ok ==> Space(d, child') && Conserved(map[], free0, child', free)
      ensures ok ==> Contiguous(pages, d, n) && AllSame(pages, pd, pages, d, n)
      ensures !ok ==> AllOf(map[], free, lost, free0) && |lost| <= 1
    {
      child', lost, ok := child, {}, true;
      var i := 0;
      while i < n
        invariant 0 <= i <= n && Space(d, child')
        invariant CopyPhase(p0, pd, free0, pages, d, child', free, i, n, base) == Filling
      {
        assert Lookup(p0, pd, i).Some?;
        ok, child', lost := CopyStep(pd, d, i, own, child', p0, free0, n, base);
        if !ok {
          CopyBad(d, i, child', lost, p0, free0);
          ParentKept(p0, pages, pd, own, map[], free0);
          return;
        }
        i := i + 1;
      }
      ok := true;
      ParentKept(p0, pages, pd, own, child', free0);
      CopiedAll(p0, pages, pd, d, own, n);
    }
  }

  // ----- The loops of mappages, setupkvm and copyuvm -----

  /** The first `i` pages of the row are mapped. */
  ghost function RowPhase(p0: Frames, own0: Owner, free0: seq<nat>, p: Frames, own: Owner, free: seq<nat>,
                          pd: nat, k: Range, i: nat): Phase {
    if && Grown(p0, own0, free0, p, own, free) && TablesFor(p0, p, pd, k.(n := i))
       && |free| + Present(p, pd, NENTRIES) == |free0| + Present(p0, pd, NENTRIES)
       && RowMapped(p0, p, pd, k, i)
    then Filling else Neither
  }

  ghost predicate RowMapped(p0: Frames, p: Frames, pd: nat, k: Range, i: nat) {
    forall w: nat {:trigger Lookup(p, pd, w)} :: w < ALLPAGES ==>
      Lookup(p, pd, w) == if k.v <= w < k.v + i then Some(k.pa + (w - k.v)) else Lookup(p0, pd, w)
  }

  lemma RowMappedOn(p0: Frames, p1: Frames, p2: Frames, pd: nat, k: Range, i: nat)
    requires RowMapped(p0, p1, pd, k, i) && SameBut(p1, p2, pd, k.v + i) && Lookup(p2, pd, k.v + i) == Some(k.pa + i)
    ensures RowMapped(p0, p2, pd, k, i + 1)
  {
  }

  lemma RowGoesOn(p0: Frames, own0: Owner, free0: seq<nat>, p1: Frames, own1: Owner, free1: seq<nat>,
                  p2: Frames, own2: Owner, free2: seq<nat>, pd: nat, k: Range, i: nat)
    requires KernelRange(k) && i < k.n && RowPhase(p0, own0, free0, p1, own1, free1, pd, k, i) == Filling
    requires own1.Keys !! FreeSet(free1) && Grown(p1, own1, free1, p2, own2, free2)
    requires TablesKept(p1, p2, pd, k.v + i) && |free2| + Bit(NoTable(p1, pd, k.v + i)) == |free1|
    requires SameBut(p1, p2, pd, k.v + i) && Lookup(p2, pd, k.v + i) == Some(k.pa + i)
    ensures RowPhase(p0, own0, free0, p2, own2, free2, pd, k, i + 1) == Filling
  {
    KeptTwice(p0, p1, p2, own0, own1, own2, free0, free1);
    RowMappedOn(p0, p1, p2, pd, k, i);
    RowStep(p0, p1, p2, pd, k, i);
    PresentStep(p1, p2, pd, k.v + i, NENTRIES);
  }

  lemma SetupStart(p0: Frames, free0: seq<nat>, p: Frames, free: seq<nat>, pd: nat, kmap: seq<Range>)
    requires KernelMap(kmap) && free0 == [pd] + free && pd in p0 && p == p0[pd := Table(NoEntries())]
    ensures Owned(p, pd, map[pd := Directory])
    ensures SetupPhase(p0, free0, p, map[pd := Directory], free, pd, kmap, 0) == Filling
  {
    BareDirectory(p, pd);
    PresentNone(p, pd, NENTRIES);
    assert FreeSet(free0) == {pd} + FreeSet(free);
    forall j | 0 <= j < |kmap| ensures Unmapped(p, pd, kmap[j]) {
      assert KernelRange(kmap[j]);
    }
  }

  /** The first `k` rows are mapped. */
  ghost function SetupPhase(p0: Frames, free0: seq<nat>, p: Frames, own: Owner, free: seq<nat>,
                            pd: nat, kmap: seq<Range>, k: nat): Phase {
    if && Conserved(map[], free0, own, free) && Kept(p0, p, map[], own, free0)
       && k <= |kmap| && RowsMapped(p, pd, kmap, k) && RowsTabled(p, pd, kmap, k)
       && |free0| == |free| + 1 + Present(p, pd, NENTRIES)
    then Filling else Neither
  }

  lemma SetupRow(p0: Frames, free0: seq<nat>, p1: Frames, own1: Owner, free1: seq<nat>,
                 p2: Frames, own2: Owner, free2: seq<nat>, pd: nat, kmap: seq<Range>, k: nat)
    requires KernelMap(kmap) && k < |kmap| && SetupPhase(p0, free0, p1, own1, free1, pd, kmap, k) == Filling
    requires own1.Keys !! FreeSet(free1) && Grown(p1, own1, free1, p2, own2, free2)
    requires SameOutside(p1, p2, pd, kmap[k]) && Mapped(p2, pd, kmap[k]) && TablesFor(p1, p2, pd, kmap[k])
    requires |free2| + Present(p2, pd, NENTRIES) == |free1| + Present(p1, pd, NENTRIES)
    ensures SetupPhase(p0, free0, p2, own2, free2, pd, kmap, k + 1) == Filling
  {
    KeptTwice(p0, p1, p2, map[], own1, own2, free0, free1);
    NextRow(p1, p2, pd, kmap, k);
    RowTabled(p1, p2, pd, kmap, k);
  }

  lemma SetupFails(p0: Frames, free0: seq<nat>, p1: Frames, own1: Owner, free1: seq<nat>,
                   p2: Frames, own2: Owner, free2: seq<nat>, pd: nat, kmap: seq<Range>, k: nat, done: nat)
    requires KernelMap(kmap) && k < |kmap| && SetupPhase(p0, free0, p1, own1, free1, pd, kmap, k) == Filling
    requires own1.Keys !! FreeSet(free1) && Grown(p1, own1, free1, p2, own2, free2) && free2 == []
    requires done < kmap[k].n && NoTable(p2, pd, kmap[k].v + done) && TablesFor(p1, p2, pd, kmap[k].(n := done))
    requires |free2| + Present(p2, pd, NENTRIES) == |free1| + Present(p1, pd, NENTRIES)
    ensures Conserved(map[], free0, own2, free2) && Kept(p0, p2, map[], own2, free0)
    ensures |free0| <= KernelTables(kmap)
  {
    KeptTwice(p0, p1, p2, map[], own1, own2, free0, free1);
    assert KernelRange(kmap[k]);
    RowShort(p1, p2, pd, kmap, k, done);
  }

  /** The child has the parent's first `i` pages, and the frames taken are those counted. */
  ghost function CopyPhase(p0: Frames, pd: nat, free0: seq<nat>, p: Frames, d: nat, child: Owner, free: seq<nat>,
                           i: nat, n: nat, base: nat): Phase {
    if && Conserved(map[], free0, child, free) && Kept(p0, p, map[], child, free0)
       && Contiguous(p, d, i) && AllSame(p0, pd, p, d, i)
       && |free0| + Need(p, d, i, n) == |free| + base + n + TableCount(n)
    then Filling else Neither
  }

  lemma CopyGoesOn(p0: Frames, pd: nat, free0: seq<nat>, p1: Frames, d: nat, child1: Owner, free1: seq<nat>,
                   p2: Frames, child2: Owner, free2: seq<nat>, i: nat, n: nat, base: nat)
    requires i < n <= USERPAGES && CopyPhase(p0, pd, free0, p1, d, child1, free1, i, n, base) == Filling
    requires Owned(p1, d, child1) && child1.Keys !! FreeSet(free1) && Grown(p1, child1, free1, p2, child2, free2)
    requires TablesKept(p1, p2, d, i) && |free2| + 1 + Bit(NoTable(p1, d, i)) == |free1|
    requires SameBut(p1, p2, d, i) && SameBytes(p0, pd, p2, d, i)
    ensures CopyPhase(p0, pd, free0, p2, d, child2, free2, i + 1, n, base) == Filling
  {
    KeptTwice(p0, p1, p2, map[], child1, child2, free0, free1);
    CopiedOne(p0, pd, p1, p2, d, child1, child2, free1, i);
    NeedStep(p1, p2, d, i, n);
  }

  /** The frames of the space, the free ones and the lost ones are those that were free. */
  ghost predicate AllOf(own: Owner, free: seq<nat>, lost: set<nat>, free0: seq<nat>) {
    && own.Keys + FreeSet(free) + lost == FreeSet(free0)
    && own.Keys !! FreeSet(free) && lost !! own.Keys + FreeSet(free)
  }

  lemma CopyLoses(p0: Frames, pd: nat, free0: seq<nat>, p1: Frames, d: nat, child: Owner, free1: seq<nat>,
                  p2: Frames, free2: seq<nat>, i: nat, n: nat, base: nat, lost: set<nat>)
    requires i < n <= USERPAGES && CopyPhase(p0, pd, free0, p1, d, child, free1, i, n, base) == Filling
    requires child.Keys !! FreeSet(free1) && |free1| <= 1 && free2 == [] && lost == FreeSet(free1)
    requires SameLookups(p1, p2, d) && p1.Keys <= p2.Keys && forall f :: f in p1 && f !in free1 ==> p2[f] == p1[f]
    ensures Kept(p0, p2, map[], child, free0) && Contiguous(p2, d, i)
    ensures AllOf(child, free2, lost, free0)
  {
    assert FreeSet(free2) == {};
    assert FreeSet(free1) <= FreeSet(free0);
  }

  lemma KeptThrough(p0: Frames, p1: Frames, p2: Frames, child: Owner, free0: seq<nat>, free1: seq<nat>)
    requires Kept(p0, p1, map[], child, free0) && Kept(p1, p2, child, map[], free1)
    requires child.Keys <= FreeSet(free0) && FreeSet(free1) <= FreeSet(free0)
    ensures Kept(p0, p2, map[], map[], free0)
  {
    forall f | f in p0 && f !in free0 ensures f in p2 && p2[f] == p0[f] {
      assert f !in FreeSet(free0) && f !in child.Keys && f !in FreeSet(free1);
    }
  }

  /** A space that others do not touch. */
  lemma ParentKept(p0: Frames, p1: Frames, pd: nat, own: Owner, child: Owner, free0: seq<nat>)
    requires Owned(p0, pd, own) && own.Keys !! FreeSet(free0) && own.Keys <= p0.Keys
    requires Kept(p0, p1, map[], child, free0)
    ensures Owned(p1, pd, own) && (forall f :: f in own ==> f in p1 && p1[f] == p0[f])
    ensures forall v: nat :: v < ALLPAGES ==> Lookup(p1, pd, v) == Lookup(p0, pd, v)
  {
    forall f | f in own ensures f in p1 && p1[f] == p0[f] {
      assert f in own.Keys && f !in FreeSet(free0);
    }
    OwnedElsewhere(p0, p1, pd, own);
  }

  /** Two spaces hold the same bytes in their first `n` pages. */
  ghost predicate AllSame(pages: Frames, pd: nat, pages': Frames, pd': nat, n: nat) {
    forall v: nat {:trigger SameBytes(pages, pd, pages', pd', v)} :: v < n ==> SameBytes(pages, pd, pages', pd', v)
  }

  lemma CopiedOne(parent: Frames, pd: nat, p0: Frames, p1: Frames, d: nat, own0: Owner, own1: Owner, free0: seq<nat>,
                  i: nat)
    requires Owned(p0, d, own0) && own0.Keys !! FreeSet(free0) && Kept(p0, p1, own0, own1, free0) && Grows(own0, own1)
    requires i < USERPAGES && (forall v: nat :: v < i ==> Lookup(p1, d, v) == Lookup(p0, d, v))
    requires AllSame(parent, pd, p0, d, i) && SameBytes(parent, pd, p1, d, i)
    ensures AllSame(parent, pd, p1, d, i + 1)
  {
    forall v: nat | v < i ensures SameBytes(parent, pd, p1, d, v) {
      assert SameBytes(parent, pd, p0, d, v) && PageOk(p0, d, own0, v);
    }
  }

  lemma CopiedAll(p0: Frames, p1: Frames, pd: nat, d: nat, own: Owner, n: nat)
    requires Owned(p0, pd, own) && (forall f :: f in own ==> f in p1 && f in p0 && p1[f] == p0[f]) && n <= USERPAGES
    requires forall v: nat :: v < ALLPAGES ==> Lookup(p1, pd, v) == Lookup(p0, pd, v)
    requires AllSame(p0, pd, p1, d, n)
    ensures AllSame(p1, pd, p1, d, n)
  {
    forall v: nat | v < n ensures SameBytes(p1, pd, p1, d, v) {
      assert SameBytes(p0, pd, p1, d, v) && PageOk(p0, pd, own, v);
    }
  }

  /** In byte addresses: every address below `sz` is backed in the child and has the parent's byte, and no
      page of the child starts at `sz` or above. */
  ghost predicate CopiedTo(pages: Frames, pd: nat, d: nat, sz: nat) {
    && (forall x: nat {:trigger ByteAt(pages, d, x)} ::
          x < sz ==> Backed(pages, d, x) && ByteAt(pages, d, x) == ByteAt(pages, pd, x))
    && (forall v: nat {:trigger Lookup(pages, d, v)} :: v < USERPAGES && sz <= v * PGSIZE ==> Lookup(pages, d, v).None?)
  }

  lemma SameCopies(pages: Frames, pd: nat, d: nat, sz: nat)
    requires Contiguous(pages, d, PageUp(sz)) && AllSame(pages, pd, pages, d, PageUp(sz))
    ensures CopiedTo(pages, pd, d, sz)
  {
    forall x: nat | x < sz ensures Backed(pages, d, x) && ByteAt(pages, d, x) == ByteAt(pages, pd, x) {
      LiesBelow(sz, x);
      assert SameBytes(pages, pd, pages, d, x / PGSIZE);
    }
    forall v: nat | v < USERPAGES && sz <= v * PGSIZE ensures Lookup(pages, d, v).None? {
      StartsBelow(sz, v);
    }
  }

  lemma OneShort(p0: Frames, own0: Owner, free0: seq<nat>, p: Frames, own: Owner, free: seq<nat>, pd: nat,
                 full: bool, lost: set<nat>)
    requires Allocated(p0, own0, free0, p, own, free, pd, 0, 1, full, lost) && |free0| == 1
    requires forall x: nat :: x < Pdx(USERPAGES) ==> EntryAt(p0, pd, x).None?
    ensures full && Lookup(p, pd, 0) == None
  {
    NeedFresh(p0, pd, 1);
    assert NoTable(p0, pd, 0);
  }

  /** One frame for a page in a space without tables. */
  method GrowBare(m: Memory, pd: nat, ghost own: Owner) returns (r: nat)
    requires m.Space(pd, own) && Contiguous(m.pages, pd, 0) && |m.free| == 1
    requires forall x: nat :: x < Pdx(USERPAGES) ==> EntryAt(m.pages, pd, x).None?
    modifies m
    ensures r == PGSIZE && Lookup(m.pages, pd, 0) == None
  {
    ghost var p0, free0, own', lost, full := m.pages, m.free, own, {}, false;
    assert PageUp(0) == 0 && PageUp(PGSIZE) == 1;
    SizeContiguous(m.pages, pd, 0);
    r, own', lost, full := m.AllocUvm(pd, 0, PGSIZE, own);
    OneShort(p0, own, free0, m.pages, own', m.free, pd, full, lost);
  }

  /** allocuvm's false success: with one frame more than a new space takes for its directory and the
      kernel's tables, that frame is lost, and the page that was asked for is not there. */
  method FalseSuccess(kmap: seq<Range>) returns (m: Memory, pd: nat, r: nat)
    requires KernelMap(kmap)
    ensures r == PGSIZE && Lookup(m.pages, pd, 0) == None
  {
    m := new Memory(0, 2 + KernelTables(kmap));
    var d;
    ghost var own;
    d, own := m.SetupKvm(kmap);
    pd := d.value;
    r := GrowBare(m, pd, own);
  }
}

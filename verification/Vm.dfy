/** Page tables (vm.c) over page frames (kalloc.c).

    Addresses are counted in pages of 4096 bytes.  A frame holds a page directory or a page
    table, both arrays of 1024 entries that are absent or name a frame, or it holds data.
    `own` gives each frame of one address space its only place in it; permission bits are
    left out. */
module Vm {
  import opened Blocks
  import opened Options

  const NENTRIES := 1024
  const USERPAGES := 512 * NENTRIES
  const ALLPAGES := NENTRIES * NENTRIES
  const PGSIZE := 4096

  datatype Page = Table(es: seq<Option<nat>>) | Bytes(bytes: seq<Byte>)

  type Frames = map<nat, Page>

  datatype Role = Directory | TableOf(x: nat) | PageOf(v: nat)

  type Owner = map<nat, Role>

  function Pdx(v: nat): nat {
    v / NENTRIES
  }

  function Ptx(v: nat): (r: nat)
    ensures r < NENTRIES
  {
    v % NENTRIES
  }

  /** Pages needed for `sz` bytes. */
  function PageUp(sz: nat): (n: nat)
    ensures sz <= n * PGSIZE < sz + PGSIZE
  {
    (sz + PGSIZE - 1) / PGSIZE
  }

  /** Page `v` starts below address `sz` if and only if it is one of them. */
  lemma StartsBelow(sz: nat, v: nat)
    ensures v < PageUp(sz) <==> v * PGSIZE < sz
  {
  }

  /** The byte at address `x` lies on one of them if it is below `sz`. */
  lemma LiesBelow(sz: nat, x: nat)
    requires x < sz
    ensures x / PGSIZE < PageUp(sz)
  {
  }

  lemma SamePlace(v: nat, w: nat)
    requires Pdx(v) == Pdx(w) && Ptx(v) == Ptx(w)
    ensures v == w
  {
  }

  predicate IsTable(pages: Frames, f: nat) {
    f in pages && pages[f].Table? && |pages[f].es| == NENTRIES
  }

  predicate IsData(pages: Frames, f: nat) {
    f in pages && pages[f].Bytes?
  }

  /** Entry `x` of the directory or table in frame `f`. */
  function EntryAt(pages: Frames, f: nat, x: nat): Option<nat> {
    if IsTable(pages, f) && x < NENTRIES then pages[f].es[x] else None
  }

  /** The frame of page `v`: what walkpgdir and the entry it finds give. */
  function Lookup(pages: Frames, pd: nat, v: nat): Option<nat> {
    var t := EntryAt(pages, pd, Pdx(v));
    if t.Some? then EntryAt(pages, t.value, Ptx(v)) else None
  }

  function SetEntry(pages: Frames, f: nat, x: nat, e: Option<nat>): Frames
    requires IsTable(pages, f) && x < NENTRIES
  {
    pages[f := Table(pages[f].es[x := e])]
  }

  // ----- One address space -----

  predicate TableOk(pages: Frames, pd: nat, own: Owner, x: nat) {
    var t := EntryAt(pages, pd, x);
    t.Some? ==> t.value in own && own[t.value] == TableOf(x) && IsTable(pages, t.value)
  }

  predicate PageOk(pages: Frames, pd: nat, own: Owner, v: nat) {
    var f := Lookup(pages, pd, v);
    f.Some? ==> f.value in own && own[f.value] == PageOf(v) && IsData(pages, f.value)
  }

  /** A frame of the space is where its role says. */
  predicate RoleOk(pages: Frames, pd: nat, own: Owner, f: nat)
    requires f in own
  {
    match own[f] {
      case Directory => f == pd
      case TableOf(x) => x < NENTRIES && EntryAt(pages, pd, x) == Some(f)
      case PageOf(v) => v < USERPAGES && Lookup(pages, pd, v) == Some(f)
    }
  }

  ghost predicate Owned(pages: Frames, pd: nat, own: Owner) {
    && pd in own && own[pd] == Directory && IsTable(pages, pd)
    && (forall x: nat {:trigger TableOk(pages, pd, own, x)} :: x < NENTRIES ==> TableOk(pages, pd, own, x))
    && (forall v: nat {:trigger PageOk(pages, pd, own, v)} :: v < USERPAGES ==> PageOk(pages, pd, own, v))
    && (forall f: nat {:trigger RoleOk(pages, pd, own, f)} :: f in own ==> RoleOk(pages, pd, own, f))
  }

  /** Exactly the first `n` user pages are there. */
  ghost predicate Contiguous(pages: Frames, pd: nat, n: nat) {
    forall v: nat {:trigger Lookup(pages, pd, v)} :: v < USERPAGES ==> (Lookup(pages, pd, v).Some? <==> v < n)
  }

  // ----- The steps of the code -----

  function NoEntries(): (s: seq<Option<nat>>)
    ensures |s| == NENTRIES && forall i :: 0 <= i < NENTRIES ==> s[i] == None
  {
    Repeat(None, NENTRIES)
  }

  /** walkpgdir's new table `t` for directory entry `x`. */
  function WithTable(pages: Frames, pd: nat, x: nat, t: nat): Frames
    requires IsTable(pages, pd) && x < NENTRIES && t != pd
  {
    SetEntry(pages, pd, x, Some(t))[t := Table(NoEntries())]
  }

  lemma TableLookup(pages: Frames, pd: nat, own: Owner, x: nat, t: nat, v: nat)
    requires Owned(pages, pd, own) && x < NENTRIES && EntryAt(pages, pd, x) == None && t !in own && v < ALLPAGES
    ensures Lookup(WithTable(pages, pd, x, t), pd, v) == Lookup(pages, pd, v)
  {
    assert TableOk(pages, pd, own, Pdx(v));
  }

  lemma AddTable(pages: Frames, pd: nat, own: Owner, x: nat, t: nat)
    requires Owned(pages, pd, own) && x < NENTRIES && EntryAt(pages, pd, x) == None && t !in own
    ensures Owned(WithTable(pages, pd, x, t), pd, own[t := TableOf(x)])
  {
    var pages', own' := WithTable(pages, pd, x, t), own[t := TableOf(x)];
    forall y: nat | y < NENTRIES ensures TableOk(pages', pd, own', y) {
      assert TableOk(pages, pd, own, y);
    }
    forall v: nat | v < USERPAGES ensures PageOk(pages', pd, own', v) {
      assert PageOk(pages, pd, own, v);
      TableLookup(pages, pd, own, x, t, v);
    }
    forall f: nat | f in own' ensures RoleOk(pages', pd, own', f) {
      if f != t {
        assert RoleOk(pages, pd, own, f);
        if own[f].PageOf? {
          TableLookup(pages, pd, own, x, t, own[f].v);
        }
      }
    }
  }

  /** The table of page `v`. */
  function TableFor(pages: Frames, pd: nat, v: nat): (t: nat)
    requires EntryAt(pages, pd, Pdx(v)).Some?
  {
    EntryAt(pages, pd, Pdx(v)).value
  }

  /** Writing one page table entry. */
  lemma EntryLookup(pages: Frames, pd: nat, own: Owner, v: nat, e: Option<nat>, w: nat)
    requires Owned(pages, pd, own) && v < ALLPAGES && w < ALLPAGES && EntryAt(pages, pd, Pdx(v)).Some?
    ensures TableFor(pages, pd, v) != pd && IsTable(pages, TableFor(pages, pd, v))
    ensures Lookup(SetEntry(pages, TableFor(pages, pd, v), Ptx(v), e), pd, w) ==
            if w == v then e else Lookup(pages, pd, w)
  {
    assert TableOk(pages, pd, own, Pdx(v)) && TableOk(pages, pd, own, Pdx(w));
    if Pdx(v) == Pdx(w) && Ptx(v) == Ptx(w) {
      SamePlace(v, w);
    }
  }

  /** The owner after page `v` gets entry `e`: kernel pages have no owner. */
  function OwnerAfter(own: Owner, v: nat, was: Option<nat>, e: Option<nat>): Owner {
    if v >= USERPAGES then own
    else if e.Some? then own[e.value := PageOf(v)]
    else if was.Some? then own - {was.value}
    else own
  }

  /** Mapping a data frame at a page that is not there, or taking a page away. */
  lemma WriteEntry(pages: Frames, pd: nat, own: Owner, v: nat, e: Option<nat>)
    requires Owned(pages, pd, own) && v < ALLPAGES && EntryAt(pages, pd, Pdx(v)).Some?
    requires v < USERPAGES && e.Some? ==> Lookup(pages, pd, v) == None && e.value !in own && IsData(pages, e.value)
    ensures TableFor(pages, pd, v) != pd && IsTable(pages, TableFor(pages, pd, v))
    ensures Owned(SetEntry(pages, TableFor(pages, pd, v), Ptx(v), e), pd, OwnerAfter(own, v, Lookup(pages, pd, v), e))
  {
    EntryLookup(pages, pd, own, v, e, 0);
    var t := TableFor(pages, pd, v);
    var pages', own' := SetEntry(pages, t, Ptx(v), e), OwnerAfter(own, v, Lookup(pages, pd, v), e);
    assert TableOk(pages, pd, own, Pdx(v)) && (v < USERPAGES ==> PageOk(pages, pd, own, v));
    forall y: nat | y < NENTRIES ensures TableOk(pages', pd, own', y) {
      assert TableOk(pages, pd, own, y);
    }
    forall w: nat | w < USERPAGES ensures PageOk(pages', pd, own', w) {
      assert PageOk(pages, pd, own, w);
      EntryLookup(pages, pd, own, v, e, w);
    }
    forall f: nat | f in own' ensures RoleOk(pages', pd, own', f) {
      if f in own && own'[f] == own[f] {
        assert RoleOk(pages, pd, own, f);
      }
      if own'[f].PageOf? && own'[f].v < USERPAGES {
        EntryLookup(pages, pd, own, v, e, own'[f].v);
      }
    }
  }

  /** Only the frames of the space matter to it. */
  lemma OwnedElsewhere(pages: Frames, pages': Frames, pd: nat, own: Owner)
    requires Owned(pages, pd, own) && forall f :: f in own && f in pages ==> f in pages' && pages'[f] == pages[f]
    ensures Owned(pages', pd, own) && forall v: nat :: v < ALLPAGES ==> Lookup(pages', pd, v) == Lookup(pages, pd, v)
  {
    forall x: nat | x < NENTRIES
      ensures EntryAt(pages', pd, x) == EntryAt(pages, pd, x) && TableOk(pages', pd, own, x)
    {
      assert TableOk(pages, pd, own, x);
    }
    forall v: nat | v < ALLPAGES
      ensures Lookup(pages', pd, v) == Lookup(pages, pd, v) && (v < USERPAGES ==> PageOk(pages', pd, own, v))
    {
      assert TableOk(pages, pd, own, Pdx(v)) && (v < USERPAGES ==> PageOk(pages, pd, own, v));
    }
    forall f: nat | f in own ensures RoleOk(pages', pd, own, f) {
      assert RoleOk(pages, pd, own, f);
    }
  }

  /** The pages from `lo` up to `hi` are gone, and the others as they were. */
  ghost predicate Cleared(pages: Frames, pages': Frames, pd: nat, lo: nat, hi: nat) {
    forall v: nat {:trigger Lookup(pages', pd, v)} ::
      v < USERPAGES ==> Lookup(pages', pd, v) == if lo <= v < hi then None else Lookup(pages, pd, v)
  }

  /** deallocuvm's skip: when the first `n` pages were there and page `a`, which is next, has no
      table, no page from `a` on was there. */
  lemma NothingAbove(pages: Frames, pages': Frames, pd: nat, n: nat, lo: nat, a: nat, w: nat)
    requires Contiguous(pages, pd, n) && Cleared(pages, pages', pd, lo, a)
    requires a <= w < USERPAGES && EntryAt(pages', pd, Pdx(a)) == None
    ensures Lookup(pages, pd, w) == None
  {
    assert Lookup(pages', pd, a) == None;
    assert Lookup(pages, pd, a) == None;
  }

  // ----- A new address space -----

  /** A row of kmap: `n` pages from kernel page `v` on, mapped to the frames from `pa` on. */
  datatype Range = Range(v: nat, n: nat, pa: nat)

  predicate KernelRange(k: Range) {
    USERPAGES <= k.v && k.v + k.n <= ALLPAGES
  }

  predicate Apart(k: Range, l: Range) {
    k.v + k.n <= l.v || l.v + l.n <= k.v
  }

  /** The rows of kmap lie above user memory and do not overlap. */
  predicate KernelMap(kmap: seq<Range>) {
    && (forall i :: 0 <= i < |kmap| ==> KernelRange(kmap[i]))
    && (forall i, j :: 0 <= i < j < |kmap| ==> Apart(kmap[i], kmap[j]))
  }

  /** A directory without entries owns itself. */
  lemma BareDirectory(pages: Frames, pd: nat)
    requires pd in pages && pages[pd] == Table(NoEntries())
    ensures Owned(pages, pd, map[pd := Directory])
    ensures forall v: nat :: v < ALLPAGES ==> Lookup(pages, pd, v) == None
  {
  }

  ghost predicate Mapped(pages: Frames, pd: nat, k: Range) {
    forall w: nat {:trigger Lookup(pages, pd, w)} ::
      k.v <= w < k.v + k.n ==> Lookup(pages, pd, w) == Some(k.pa + (w - k.v))
  }

  ghost predicate Unmapped(pages: Frames, pd: nat, k: Range) {
    forall w: nat {:trigger Lookup(pages, pd, w)} :: k.v <= w < k.v + k.n ==> Lookup(pages, pd, w) == None
  }

  /** The first `k` rows are mapped and nothing else. */
  ghost predicate RowsMapped(pages: Frames, pd: nat, kmap: seq<Range>, k: nat) {
    && Contiguous(pages, pd, 0) && k <= |kmap|
    && (forall j :: 0 <= j < k ==> Mapped(pages, pd, kmap[j]))
    && (forall j :: k <= j < |kmap| ==> Unmapped(pages, pd, kmap[j]))
  }

  ghost predicate SameOutside(pages: Frames, pages': Frames, pd: nat, k: Range) {
    forall w: nat {:trigger Lookup(pages', pd, w)} ::
      w < ALLPAGES && !(k.v <= w < k.v + k.n) ==> Lookup(pages', pd, w) == Lookup(pages, pd, w)
  }

  lemma NextRow(pages: Frames, pages': Frames, pd: nat, kmap: seq<Range>, k: nat)
    requires KernelMap(kmap) && k < |kmap| && RowsMapped(pages, pd, kmap, k)
    requires Mapped(pages', pd, kmap[k]) && SameOutside(pages, pages', pd, kmap[k])
    ensures RowsMapped(pages', pd, kmap, k + 1)
  {
    assert KernelRange(kmap[k]);
    forall j | 0 <= j < k ensures Mapped(pages', pd, kmap[j]) {
      assert Mapped(pages, pd, kmap[j]) && Apart(kmap[j], kmap[k]) && KernelRange(kmap[j]);
    }
    forall j | k < j < |kmap| ensures Unmapped(pages', pd, kmap[j]) {
      assert Unmapped(pages, pd, kmap[j]) && Apart(kmap[k], kmap[j]) && KernelRange(kmap[j]);
    }
  }

  // ----- Growing -----

  /** Page `v` is there and holds `data`. */
  predicate HoldsBytes(pages: Frames, pd: nat, v: nat, data: seq<Byte>) {
    var f := Lookup(pages, pd, v);
    f.Some? && f.value in pages && pages[f.value] == Bytes(data)
  }

  /** Two spaces hold the same bytes at page `v`. */
  predicate SameBytes(pages: Frames, pd: nat, pages': Frames, pd': nat, v: nat) {
    var (f, g) := (Lookup(pages, pd, v), Lookup(pages', pd', v));
    f.Some? && g.Some? && f.value in pages && g.value in pages' && pages[f.value] == pages'[g.value]
  }

  // ----- Byte addresses -----

  /** Address `x` is on a page that is there. */
  predicate Backed(pages: Frames, pd: nat, x: nat) {
    Lookup(pages, pd, x / PGSIZE).Some?
  }

  /** The byte at address `x`. */
  function ByteAt(pages: Frames, pd: nat, x: nat): Option<Byte> {
    var f := Lookup(pages, pd, x / PGSIZE);
    if f.Some? && IsData(pages, f.value) && x % PGSIZE < |pages[f.value].bytes|
    then Some(pages[f.value].bytes[x % PGSIZE]) else None
  }

  /** A space of `sz` bytes: user pages are there exactly if they start below `sz`. */
  ghost predicate SizeIs(pages: Frames, pd: nat, sz: nat) {
    forall v: nat {:trigger Lookup(pages, pd, v)} :: v < USERPAGES ==> (Lookup(pages, pd, v).Some? <==> v * PGSIZE < sz)
  }

  lemma SizeContiguous(pages: Frames, pd: nat, sz: nat)
    ensures SizeIs(pages, pd, sz) <==> Contiguous(pages, pd, PageUp(sz))
  {
    forall v: nat ensures v < PageUp(sz) <==> v * PGSIZE < sz {
      StartsBelow(sz, v);
    }
  }

  // ----- What freevm has still to free -----

  predicate TableLeft(es: seq<Option<nat>>, pd: nat, rest: Owner, x: nat)
    requires x < |es|
  {
    es[x].Some? ==> es[x].value in rest && es[x].value != pd && rest[es[x].value] == TableOf(x)
  }

  /** The directory and the tables of its entries from `i` on. */
  ghost predicate Left(es: seq<Option<nat>>, pd: nat, rest: Owner, i: nat) {
    && pd in rest
    && (forall x: nat {:trigger TableLeft(es, pd, rest, x)} :: i <= x < |es| ==> TableLeft(es, pd, rest, x))
    && (forall f :: f in rest ==> f == pd || (rest[f].TableOf? && i <= rest[f].x < |es| && es[rest[f].x] == Some(f)))
  }

  lemma LeftStart(pages: Frames, pd: nat, own: Owner)
    requires Owned(pages, pd, own) && Contiguous(pages, pd, 0)
    ensures Left(pages[pd].es, pd, own, 0)
  {
    forall x: nat | x < NENTRIES ensures TableLeft(pages[pd].es, pd, own, x) {
      assert TableOk(pages, pd, own, x) && EntryAt(pages, pd, x) == pages[pd].es[x];
    }
    forall f | f in own
      ensures f == pd || (own[f].TableOf? && own[f].x < NENTRIES && pages[pd].es[own[f].x] == Some(f))
    {
      assert RoleOk(pages, pd, own, f);
    }
  }

  lemma LeftNext(es: seq<Option<nat>>, pd: nat, rest: Owner, i: nat)
    requires Left(es, pd, rest, i) && i < |es|
    ensures es[i].Some? ==> es[i].value in rest && es[i].value != pd && Left(es, pd, rest - {es[i].value}, i + 1)
    ensures es[i].None? ==> Left(es, pd, rest, i + 1)
  {
    assert TableLeft(es, pd, rest, i);
    if es[i].Some? {
      forall x: nat | i + 1 <= x < |es| ensures TableLeft(es, pd, rest - {es[i].value}, x) {
        assert TableLeft(es, pd, rest, x);
      }
    }
  }
}

/** How many frames it takes to map pages: one for each page, and one for each page table that
    is not there yet. */
module FrameCount {
  import opened Counting
  import opened Options
  import opened Vm

  /** Page `v` has no table yet. */
  predicate NoTable(pages: Frames, pd: nat, v: nat) {
    EntryAt(pages, pd, Pdx(v)).None?
  }

  /** Page `v` has a table now, and the other directory entries are as before. */
  ghost predicate TablesKept(pages: Frames, pages': Frames, pd: nat, v: nat) {
    && !NoTable(pages', pd, v)
    && forall x: nat {:trigger EntryAt(pages', pd, x)} ::
         x < NENTRIES && x != Pdx(v) ==> EntryAt(pages', pd, x) == EntryAt(pages, pd, x)
  }

  /** Directory entries from `x` up to `y` that are empty. */
  function Missing(pages: Frames, pd: nat, x: nat, y: nat): nat
    decreases y - x
  {
    if x >= y then 0 else Bit(EntryAt(pages, pd, x).None?) + Missing(pages, pd, x + 1, y)
  }

  /** Frames for the pages from `lo` up to `hi`. */
  function Need(pages: Frames, pd: nat, lo: nat, hi: nat): nat {
    if lo >= hi then 0 else (hi - lo) + Missing(pages, pd, Pdx(lo), Pdx(hi - 1) + 1)
  }

  lemma {:induction false} MissingSame(pages: Frames, pages': Frames, pd: nat, x: nat, y: nat)
    requires forall z: nat :: x <= z < y ==> EntryAt(pages', pd, z) == EntryAt(pages, pd, z)
    ensures Missing(pages', pd, x, y) == Missing(pages, pd, x, y)
    decreases y - x
  {
    if x < y {
      MissingSame(pages, pages', pd, x + 1, y);
    }
  }

  /** Mapping the first page leaves the rest to do. */
  lemma NeedStep(pages: Frames, pages': Frames, pd: nat, a: nat, hi: nat)
    requires a < hi <= USERPAGES && TablesKept(pages, pages', pd, a)
    ensures Need(pages, pd, a, hi) == 1 + Bit(NoTable(pages, pd, a)) + Need(pages', pd, a + 1, hi)
  {
    var x, y := Pdx(a), Pdx(hi - 1) + 1;
    assert x < y <= NENTRIES;
    MissingSame(pages, pages', pd, x + 1, y);
    if a + 1 < hi {
      assert Pdx(a + 1) == x || Pdx(a + 1) == x + 1;
      assert Missing(pages', pd, x, y) == Missing(pages', pd, x + 1, y);
    } else {
      assert y == x + 1;
    }
  }

  /** The last of the pages from `lo` up to `hi` is the first of them in its table, which is
      missing. */
  predicate LastBare(pages: Frames, pd: nat, lo: nat, hi: nat) {
    lo < hi && NoTable(pages, pd, hi - 1) && (hi - 1 == lo || Pdx(hi - 2) != Pdx(hi - 1))
  }

  /** What the directory looks like when the pages from `lo` up to `a` have been mapped. */
  ghost predicate MappedTo(pages: Frames, pages': Frames, pd: nat, lo: nat, a: nat, hi: nat) {
    && (forall x: nat {:trigger EntryAt(pages', pd, x)} ::
         x < NENTRIES && EntryAt(pages, pd, x).Some? ==> EntryAt(pages', pd, x).Some?)
    && (lo < a ==> !NoTable(pages', pd, a - 1))
    && (a < hi && LastBare(pages, pd, lo, hi) ==> NoTable(pages', pd, hi - 1))
  }

  lemma MappedOneMore(p0: Frames, p1: Frames, p2: Frames, pd: nat, lo: nat, a: nat, hi: nat)
    requires lo <= a < hi <= USERPAGES && MappedTo(p0, p1, pd, lo, a, hi) && TablesKept(p1, p2, pd, a)
    ensures MappedTo(p0, p2, pd, lo, a + 1, hi)
  {
    forall x: nat | x < NENTRIES && EntryAt(p0, pd, x).Some? ensures EntryAt(p2, pd, x).Some? {
      assert EntryAt(p1, pd, x).Some?;
    }
    if a + 1 < hi && LastBare(p0, pd, lo, hi) {
      assert Pdx(a) <= Pdx(hi - 2) < Pdx(hi - 1);
    }
  }

  /** Running short: how many frames there were, from how many are left. */
  lemma RunsShort(p0: Frames, p1: Frames, pd: nat, lo: nat, a: nat, hi: nat, had: nat, have: nat)
    requires lo <= a < hi <= USERPAGES && MappedTo(p0, p1, pd, lo, a, hi)
    requires had + Need(p1, pd, a, hi) == have + Need(p0, pd, lo, hi) && have < 1 + Bit(NoTable(p1, pd, a))
    ensures had < Need(p0, pd, lo, hi)
    ensures (have == 1 && a + 1 == hi) <==> (had + 1 == Need(p0, pd, lo, hi) && LastBare(p0, pd, lo, hi))
  {
    assert Missing(p1, pd, Pdx(a), Pdx(hi - 1) + 1) >= Bit(NoTable(p1, pd, a));
    assert NoTable(p1, pd, hi - 1) ==> NoTable(p0, pd, hi - 1);
    if a + 1 == hi {
      assert Missing(p1, pd, Pdx(a), Pdx(hi - 1) + 1) == Bit(NoTable(p1, pd, a));
      assert lo < a && Pdx(hi - 2) == Pdx(hi - 1) ==> !NoTable(p1, pd, hi - 1);
    }
  }

  /** Tables for `n` pages from page 0 on. */
  function TableCount(n: nat): nat {
    (n + NENTRIES - 1) / NENTRIES
  }

  lemma {:induction false} MissingAll(pages: Frames, pd: nat, x: nat, y: nat)
    requires x <= y && forall z: nat :: x <= z < y ==> EntryAt(pages, pd, z).None?
    ensures Missing(pages, pd, x, y) == y - x
    decreases y - x
  {
    if x < y {
      MissingAll(pages, pd, x + 1, y);
    }
  }

  /** A space without user tables. */
  lemma NeedFresh(pages: Frames, pd: nat, n: nat)
    requires n <= USERPAGES && forall x: nat :: x < Pdx(USERPAGES) ==> EntryAt(pages, pd, x).None?
    ensures Need(pages, pd, 0, n) == n + TableCount(n)
  {
    if n > 0 {
      assert Pdx(n - 1) + 1 == TableCount(n) && Pdx(n - 1) < Pdx(USERPAGES);
      MissingAll(pages, pd, 0, Pdx(n - 1) + 1);
    }
  }

  // ----- The kernel's tables -----

  /** Directory entry `x` serves a page of the row. */
  predicate InRow(k: Range, x: nat) {
    k.n > 0 && Pdx(k.v) <= x <= Pdx(k.v + k.n - 1)
  }

  /** The directory when the pages of the row have been mapped. */
  ghost predicate TablesFor(pages: Frames, pages': Frames, pd: nat, k: Range) {
    forall x: nat {:trigger EntryAt(pages', pd, x)} ::
      x < NENTRIES ==> (EntryAt(pages', pd, x).Some? <==> EntryAt(pages, pd, x).Some? || InRow(k, x))
  }

  lemma RowStep(p0: Frames, p1: Frames, p2: Frames, pd: nat, k: Range, i: nat)
    requires TablesFor(p0, p1, pd, k.(n := i)) && TablesKept(p1, p2, pd, k.v + i) && k.v + i < ALLPAGES
    ensures TablesFor(p0, p2, pd, k.(n := i + 1))
  {
    forall x: nat | x < NENTRIES
      ensures EntryAt(p2, pd, x).Some? <==> EntryAt(p0, pd, x).Some? || InRow(k.(n := i + 1), x)
    {
      assert EntryAt(p1, pd, x).Some? <==> EntryAt(p0, pd, x).Some? || InRow(k.(n := i), x);
      assert i > 0 ==> Pdx(k.v + i) <= Pdx(k.v + i - 1) + 1;
    }
  }

  predicate Covered(kmap: seq<Range>, n: nat, x: nat)
    requires n <= |kmap|
  {
    exists j :: 0 <= j < n && InRow(kmap[j], x)
  }

  /** Directory entries below `x` that kmap needs. */
  function KernelBelow(kmap: seq<Range>, x: nat): nat {
    if x == 0 then 0 else KernelBelow(kmap, x - 1) + Bit(Covered(kmap, |kmap|, x - 1))
  }

  function KernelTables(kmap: seq<Range>): nat {
    KernelBelow(kmap, NENTRIES)
  }

  /** Directory entries below `x` that are there. */
  function Present(pages: Frames, pd: nat, x: nat): nat {
    if x == 0 then 0 else Present(pages, pd, x - 1) + Bit(EntryAt(pages, pd, x - 1).Some?)
  }

  lemma {:induction false} PresentStep(pages: Frames, pages': Frames, pd: nat, v: nat, x: nat)
    requires TablesKept(pages, pages', pd, v) && x <= NENTRIES
    ensures Present(pages', pd, x) == Present(pages, pd, x) + Bit(Pdx(v) < x && NoTable(pages, pd, v))
  {
    if x > 0 {
      PresentStep(pages, pages', pd, v, x - 1);
    }
  }

  lemma {:induction false} PresentNone(pages: Frames, pd: nat, x: nat)
    requires x <= NENTRIES && forall z: nat :: z < NENTRIES ==> EntryAt(pages, pd, z).None?
    ensures Present(pages, pd, x) == 0
  {
    if x > 0 {
      PresentNone(pages, pd, x - 1);
    }
  }

  /** Nothing is there that kmap does not need. */
  ghost predicate OnlyCovered(pages: Frames, pd: nat, kmap: seq<Range>) {
    forall x: nat {:trigger EntryAt(pages, pd, x)} ::
      x < NENTRIES && EntryAt(pages, pd, x).Some? ==> Covered(kmap, |kmap|, x)
  }

  /** The first `k` rows of kmap have their tables, and nothing else has. */
  ghost predicate RowsTabled(pages: Frames, pd: nat, kmap: seq<Range>, k: nat)
    requires k <= |kmap|
  {
    forall x: nat {:trigger EntryAt(pages, pd, x)} ::
      x < NENTRIES ==> (EntryAt(pages, pd, x).Some? <==> Covered(kmap, k, x))
  }

  lemma RowTabled(pages: Frames, pages': Frames, pd: nat, kmap: seq<Range>, k: nat)
    requires k < |kmap| && RowsTabled(pages, pd, kmap, k) && TablesFor(pages, pages', pd, kmap[k])
    ensures RowsTabled(pages', pd, kmap, k + 1)
  {
    forall x: nat | x < NENTRIES ensures EntryAt(pages', pd, x).Some? <==> Covered(kmap, k + 1, x) {
      assert EntryAt(pages, pd, x).Some? <==> Covered(kmap, k, x);
      if Covered(kmap, k, x) {
        var j :| 0 <= j < k && InRow(kmap[j], x);
        assert InRow(kmap[j], x);
      } else if InRow(kmap[k], x) {
        assert Covered(kmap, k + 1, x);
      }
    }
  }

  /** With all rows mapped, the directory has the tables that kmap needs. */
  lemma AllRowsTabled(pages: Frames, pd: nat, kmap: seq<Range>)
    requires RowsTabled(pages, pd, kmap, |kmap|) && KernelMap(kmap)
    ensures Present(pages, pd, NENTRIES) == KernelTables(kmap)
    ensures forall x: nat :: x < Pdx(USERPAGES) ==> EntryAt(pages, pd, x).None?
  {
    PresentAtMost(pages, pd, kmap, NENTRIES);
    forall x: nat | x < Pdx(USERPAGES) ensures EntryAt(pages, pd, x).None? {
      forall j | 0 <= j < |kmap| ensures !InRow(kmap[j], x) {
        assert KernelRange(kmap[j]);
      }
    }
  }

  /** A row cut short: fewer than kmap needs. */
  lemma RowShort(pages: Frames, pages': Frames, pd: nat, kmap: seq<Range>, k: nat, i: nat)
    requires k < |kmap| && RowsTabled(pages, pd, kmap, k) && TablesFor(pages, pages', pd, kmap[k].(n := i))
    requires i < kmap[k].n && KernelRange(kmap[k]) && NoTable(pages', pd, kmap[k].v + i)
    ensures Present(pages', pd, NENTRIES) < KernelTables(kmap)
  {
    var r := kmap[k];
    forall x: nat | x < NENTRIES && EntryAt(pages', pd, x).Some? ensures Covered(kmap, |kmap|, x) {
      assert EntryAt(pages, pd, x).Some? <==> Covered(kmap, k, x);
      if InRow(r.(n := i), x) {
        assert InRow(kmap[k], x);
      } else {
        var j :| 0 <= j < k && InRow(kmap[j], x);
        assert InRow(kmap[j], x);
      }
    }
    assert InRow(kmap[k], Pdx(r.v + i)) && Pdx(r.v + i) < NENTRIES;
    PresentAtMost(pages', pd, kmap, NENTRIES);
  }

  /** What is left is not less than what the next page takes. */
  lemma NeedNext(pages: Frames, pd: nat, a: nat, hi: nat)
    requires a < hi
    ensures Need(pages, pd, a, hi) >= 1 + Bit(NoTable(pages, pd, a))
  {
    assert Pdx(a) < Pdx(hi - 1) + 1;
  }

  lemma {:induction false} PresentAtMost(pages: Frames, pd: nat, kmap: seq<Range>, x: nat)
    requires OnlyCovered(pages, pd, kmap) && x <= NENTRIES
    ensures Present(pages, pd, x) <= KernelBelow(kmap, x)
    ensures (forall z: nat :: z < x && Covered(kmap, |kmap|, z) ==> EntryAt(pages, pd, z).Some?) ==>
              Present(pages, pd, x) == KernelBelow(kmap, x)
    ensures (exists z: nat :: z < x && Covered(kmap, |kmap|, z) && EntryAt(pages, pd, z).None?) ==>
              Present(pages, pd, x) < KernelBelow(kmap, x)
  {
    if x > 0 {
      PresentAtMost(pages, pd, kmap, x - 1);
    }
  }
}

/** The user-level allocator of umalloc.c: a circular free list in address order.

    Addresses count header-sized units.  `Mem` holds the `s.ptr` and `s.size` words of the
    headers.  The specification view is the free list as an increasing sequence `fl` that
    starts at the header `base`, the set `live` of headers handed out, and `owner`, which
    maps every unit obtained from sbrk to the header of the block it lies in. */
module Umalloc {
  datatype Mem = Mem(ptr: map<nat, nat>, size: map<nat, nat>)

  function Ptr(m: Mem, a: nat): nat {
    if a in m.ptr then m.ptr[a] else 0
  }

  function Size(m: Mem, a: nat): nat {
    if a in m.size then m.size[a] else 0
  }

  /** Position after `i` on a circle of `n`. */
  function Next(i: nat, n: nat): nat {
    if i + 1 < n then i + 1 else 0
  }

  predicate Linked(m: Mem, fl: seq<nat>) {
    && (forall i {:trigger Ptr(m, fl[i])} :: 0 <= i < |fl| - 1 ==> Ptr(m, fl[i]) == fl[i + 1])
    && (fl != [] ==> Ptr(m, fl[|fl| - 1]) == fl[0])
  }

  /** In address order, disjoint and never adjacent. */
  predicate Separate(m: Mem, fl: seq<nat>) {
    forall i {:trigger Size(m, fl[i])} :: 0 <= i < |fl| - 1 ==> fl[i] + Size(m, fl[i]) < fl[i + 1]
  }

  lemma {:induction false} Far(m: Mem, fl: seq<nat>, i: nat, j: nat)
    requires Separate(m, fl) && i < j < |fl|
    ensures fl[i] + Size(m, fl[i]) < fl[j]
  {
    if i + 1 < j {
      Far(m, fl, i, j - 1);
      assert fl[j - 1] + Size(m, fl[j - 1]) < fl[j];
    }
  }

  predicate IsBlock(base: nat, fl: seq<nat>, live: set<nat>, a: nat) {
    a in live || (a in fl && a != base)
  }

  /** The header of the block that unit `u` lies in; 0 for units never obtained. */
  function OwnerOf(owner: map<nat, nat>, u: nat): nat {
    if u in owner then owner[u] else 0
  }

  /** Every unit of a block is owned by that block: blocks never overlap. */
  ghost predicate BlocksOwn(base: nat, m: Mem, fl: seq<nat>, live: set<nat>, owner: map<nat, nat>) {
    forall a: nat, u: nat {:trigger IsBlock(base, fl, live, a), OwnerOf(owner, u)} ::
      IsBlock(base, fl, live, a) && a <= u < a + Size(m, a) ==> OwnerOf(owner, u) == a
  }

  /** Every unit obtained from sbrk lies in a block, live or free. */
  ghost predicate UnitsOwned(base: nat, m: Mem, fl: seq<nat>, live: set<nat>, owner: map<nat, nat>, brk: nat) {
    forall u: nat {:trigger OwnerOf(owner, u)} :: u in owner ==>
      var a := OwnerOf(owner, u);
      base < a <= u < a + Size(m, a) && a + Size(m, a) <= brk && IsBlock(base, fl, live, a)
  }

  /** Blocks are non-empty; only the list's anchor has size 0. */
  predicate Sized(base: nat, m: Mem, fl: seq<nat>, live: set<nat>) {
    && Size(m, base) == 0
    && (forall i {:trigger Size(m, fl[i])} :: 0 < i < |fl| ==> Size(m, fl[i]) > 0)
    && (forall a :: a in live ==> a !in fl && Size(m, a) > 0 && base < a)
  }

  ghost predicate Sound(base: nat, m: Mem, fl: seq<nat>, live: set<nat>, owner: map<nat, nat>, brk: nat) {
    && 0 < base < brk && fl != [] && fl[0] == base
    && Linked(m, fl) && Separate(m, fl) && Sized(base, m, fl, live)
    && BlocksOwn(base, m, fl, live, owner)
    && UnitsOwned(base, m, fl, live, owner, brk)
  }

  /** Two different blocks share no unit. */
  lemma BlocksDisjoint(base: nat, m: Mem, fl: seq<nat>, live: set<nat>, owner: map<nat, nat>, brk: nat, a: nat, b: nat)
    requires Sound(base, m, fl, live, owner, brk) && a < b
    requires IsBlock(base, fl, live, a) && IsBlock(base, fl, live, b)
    ensures a + Size(m, a) <= b
  {
    assert OwnerOf(owner, b) == b;
  }

  /** A block lies above the anchor, is not empty, ends below the break and owns its units. */
  lemma BlockFacts(base: nat, m: Mem, fl: seq<nat>, live: set<nat>, owner: map<nat, nat>, brk: nat, a: nat)
    requires Sound(base, m, fl, live, owner, brk) && IsBlock(base, fl, live, a)
    ensures base < a && Size(m, a) > 0 && OwnerOf(owner, a) == a && a + Size(m, a) <= brk
  {
    if a !in live {
      var i :| 0 <= i < |fl| && fl[i] == a;
      Far(m, fl, 0, i);
    }
    assert OwnerOf(owner, a) == a;
  }

  // ----- List surgery -----

  function RemoveAt(fl: seq<nat>, i: nat): (r: seq<nat>)
    requires i < |fl|
    ensures |r| == |fl| - 1
    ensures forall j {:trigger r[j]} :: 0 <= j < |r| ==> r[j] == if j < i then fl[j] else fl[j + 1]
  {
    fl[..i] + fl[i + 1..]
  }

  function InsertAt(fl: seq<nat>, i: nat, x: nat): (r: seq<nat>)
    requires i <= |fl|
    ensures |r| == |fl| + 1
    ensures forall j {:trigger r[j]} ::
              0 <= j < |r| ==> r[j] == if j < i then fl[j] else if j == i then x else fl[j - 1]
  {
    fl[..i] + [x] + fl[i..]
  }

  lemma LinkedRemove(m: Mem, m': Mem, fl: seq<nat>, i: nat)
    requires 0 < i < |fl| && Linked(m, fl) && Ptr(m', fl[i - 1]) == Ptr(m, fl[i])
    requires forall j {:trigger Ptr(m', fl[j])} ::
               0 <= j < |fl| && j != i - 1 && j != i ==> Ptr(m', fl[j]) == Ptr(m, fl[j])
    ensures Linked(m', RemoveAt(fl, i))
  {
    var r := RemoveAt(fl, i);
    forall j | 0 <= j < |r| - 1
      ensures Ptr(m', r[j]) == r[j + 1]
    {
    }
  }

  lemma LinkedInsert(m: Mem, m': Mem, fl: seq<nat>, i: nat, x: nat)
    requires 0 < i <= |fl| && Linked(m, fl) && Ptr(m', fl[i - 1]) == x && Ptr(m', x) == Ptr(m, fl[i - 1])
    requires forall j {:trigger Ptr(m', fl[j])} :: 0 <= j < |fl| && j != i - 1 ==> Ptr(m', fl[j]) == Ptr(m, fl[j])
    ensures Linked(m', InsertAt(fl, i, x))
  {
    var r := InsertAt(fl, i, x);
    forall j | 0 <= j < |r| - 1
      ensures Ptr(m', r[j]) == r[j + 1]
    {
    }
  }

  lemma SeparateInsert(m: Mem, m': Mem, fl: seq<nat>, i: nat, x: nat)
    requires 0 < i <= |fl| && Separate(m, fl)
    requires forall j {:trigger Size(m', fl[j])} :: 0 <= j < |fl| ==> Size(m', fl[j]) == Size(m, fl[j])
    requires fl[i - 1] + Size(m, fl[i - 1]) < x && (i < |fl| ==> x + Size(m', x) < fl[i])
    ensures Separate(m', InsertAt(fl, i, x))
  {
    var r := InsertAt(fl, i, x);
    forall j | 0 <= j < |r| - 1
      ensures r[j] + Size(m', r[j]) < r[j + 1]
    {
    }
  }

  // ----- free -----

  /** `bp` belongs after position `i` of the list. */
  predicate Fits(fl: seq<nat>, i: nat, bp: nat) {
    i < |fl| && fl[i] < bp && (i + 1 < |fl| ==> bp < fl[i + 1])
  }

  /** The headers after free has linked `bp` between `p` and `nx`, merging where they touch. */
  function FreeMem(m: Mem, p: nat, nx: nat, bp: nat): Mem {
    var m1 := if bp + Size(m, bp) == nx
      then Mem(m.ptr[bp := Ptr(m, nx)], m.size[bp := Size(m, bp) + Size(m, nx)])
      else Mem(m.ptr[bp := nx], m.size);
    if p + Size(m1, p) == bp
    then Mem(m1.ptr[p := Ptr(m1, bp)], m1.size[p := Size(m1, p) + Size(m1, bp)])
    else Mem(m1.ptr[p := bp], m1.size)
  }

  predicate JoinsNext(m: Mem, fl: seq<nat>, i: nat, bp: nat)
    requires i < |fl|
  {
    i + 1 < |fl| && bp + Size(m, bp) == fl[i + 1]
  }

  /** The list without the block after `bp` where the two touch. */
  function Dropped(m: Mem, fl: seq<nat>, i: nat, bp: nat): (r: seq<nat>)
    requires i < |fl|
    ensures |r| == if JoinsNext(m, fl, i, bp) then |fl| - 1 else |fl|
    ensures forall j {:trigger r[j]} :: 0 <= j < |r| ==>
              r[j] == if j <= i || !JoinsNext(m, fl, i, bp) then fl[j] else fl[j + 1]
  {
    if JoinsNext(m, fl, i, bp) then RemoveAt(fl, i + 1) else fl
  }

  function FreeList(m: Mem, fl: seq<nat>, i: nat, bp: nat): seq<nat>
    requires i < |fl|
  {
    var rest := Dropped(m, fl, i, bp);
    if fl[i] + Size(m, fl[i]) == bp then rest else InsertAt(rest, i + 1, bp)
  }

  /** What free needs to know about its neighbours. */
  lemma Neighbours(base: nat, m: Mem, fl: seq<nat>, live: set<nat>, owner: map<nat, nat>, brk: nat, i: nat, bp: nat)
    requires Sound(base, m, fl, live, owner, brk) && bp in live && Fits(fl, i, bp)
    ensures fl[i] + Size(m, fl[i]) <= bp && (i == 0 ==> fl[i] + Size(m, fl[i]) < bp)
    ensures i + 1 < |fl| ==> bp + Size(m, bp) <= fl[i + 1]
    ensures i + 1 == |fl| ==> bp + Size(m, bp) != base
  {
    if i > 0 {
      Far(m, fl, 0, i);
      BlocksDisjoint(base, m, fl, live, owner, brk, fl[i], bp);
    }
    if i + 1 < |fl| {
      Far(m, fl, 0, i + 1);
      BlocksDisjoint(base, m, fl, live, owner, brk, bp, fl[i + 1]);
    }
  }

  /** What FreeMem does to sizes and links. */
  ghost predicate FreedMem(m: Mem, m': Mem, p: nat, nx: nat, bp: nat) {
    var joinN := bp + Size(m, bp) == nx;
    var z := if joinN then Size(m, bp) + Size(m, nx) else Size(m, bp);
    var next := if joinN then Ptr(m, nx) else nx;
    && (forall a: nat {:trigger Ptr(m', a)} :: a != p && a != bp ==> Ptr(m', a) == Ptr(m, a))
    && (forall a: nat {:trigger Size(m', a)} :: a != p && a != bp ==> Size(m', a) == Size(m, a))
    && Ptr(m', bp) == next && Size(m', bp) == z
    && (if p + Size(m, p) == bp then Ptr(m', p) == next && Size(m', p) == Size(m, p) + z
        else Ptr(m', p) == bp && Size(m', p) == Size(m, p))
  }

  lemma FreeMemIs(m: Mem, p: nat, nx: nat, bp: nat)
    requires p < bp && nx != bp && (bp + Size(m, bp) == nx ==> nx != p)
    ensures FreedMem(m, FreeMem(m, p, nx, bp), p, nx, bp)
  {
  }

  /** `bp` lies clear of the list, and the wrap-around link does not touch it. */
  predicate Clear(m: Mem, fl: seq<nat>, i: nat, bp: nat) {
    && Fits(fl, i, bp) && fl[i] + Size(m, fl[i]) <= bp
    && (i + 1 < |fl| ==> bp + Size(m, bp) <= fl[i + 1])
    && (i + 1 == |fl| ==> bp + Size(m, bp) != fl[0])
    && (forall j {:trigger fl[j]} :: 0 <= j < |fl| ==> fl[j] != bp)
    && (forall j {:trigger fl[j]} :: 0 <= j < |fl| && j != i ==> fl[j] != fl[i])
  }

  lemma DropLinked(m: Mem, mr: Mem, fl: seq<nat>, i: nat, bp: nat)
    requires Linked(m, fl) && Clear(m, fl, i, bp)
    requires Ptr(mr, fl[i]) == if JoinsNext(m, fl, i, bp) then Ptr(m, fl[i + 1]) else Ptr(m, fl[i])
    requires forall j {:trigger Ptr(mr, fl[j])} :: 0 <= j < |fl| && j != i ==> Ptr(mr, fl[j]) == Ptr(m, fl[j])
    ensures Linked(mr, Dropped(m, fl, i, bp))
  {
    if JoinsNext(m, fl, i, bp) {
      LinkedRemove(m, mr, fl, i + 1);
    }
  }

  lemma FreeLinked(m: Mem, m': Mem, fl: seq<nat>, i: nat, bp: nat)
    requires Linked(m, fl) && Clear(m, fl, i, bp) && FreedMem(m, m', fl[i], Ptr(m, fl[i]), bp)
    ensures Linked(m', FreeList(m, fl, i, bp))
  {
    var p, nx := fl[i], Ptr(m, fl[i]);
    assert nx == if i + 1 < |fl| then fl[i + 1] else fl[0];
    var mr := Mem(m.ptr[p := Ptr(m', bp)], m.size);
    DropLinked(m, mr, fl, i, bp);
    var rest := Dropped(m, fl, i, bp);
    if p + Size(m, p) == bp {
      LinkedSame(mr, m', rest);
    } else {
      LinkedInsert(mr, m', rest, i + 1, bp);
    }
  }

  lemma LinkedSame(m: Mem, m': Mem, fl: seq<nat>)
    requires Linked(m, fl)
    requires forall j {:trigger Ptr(m', fl[j])} :: 0 <= j < |fl| ==> Ptr(m', fl[j]) == Ptr(m, fl[j])
    ensures Linked(m', fl)
  {
  }

  lemma SeparateDrop(m: Mem, fl: seq<nat>, i: nat, bp: nat)
    requires i < |fl| && Separate(m, fl)
    ensures Separate(m, Dropped(m, fl, i, bp))
    ensures var r := Dropped(m, fl, i, bp);
            JoinsNext(m, fl, i, bp) && i + 1 < |r| ==> bp + Size(m, bp) + Size(m, fl[i + 1]) < r[i + 1]
  {
    var r := Dropped(m, fl, i, bp);
    if i + 2 < |fl| {
      Far(m, fl, i, i + 2);
      assert fl[i + 1] + Size(m, fl[i + 1]) < fl[i + 2];
    }
    forall j | 0 <= j < |r| - 1
      ensures r[j] + Size(m, r[j]) < r[j + 1]
    {
    }
  }

  lemma SeparateGrow(m: Mem, m': Mem, fl: seq<nat>, i: nat)
    requires i < |fl| && Separate(m, fl)
    requires forall j {:trigger Size(m', fl[j])} :: 0 <= j < |fl| && j != i ==> Size(m', fl[j]) == Size(m, fl[j])
    requires i + 1 < |fl| ==> fl[i] + Size(m', fl[i]) < fl[i + 1]
    ensures Separate(m', fl)
  {
  }

  lemma FreeSeparate(m: Mem, m': Mem, fl: seq<nat>, i: nat, bp: nat)
    requires Separate(m, fl) && Clear(m, fl, i, bp) && Linked(m, fl) && FreedMem(m, m', fl[i], Ptr(m, fl[i]), bp)
    ensures Separate(m', FreeList(m, fl, i, bp))
  {
    var rest := Dropped(m, fl, i, bp);
    SeparateDrop(m, fl, i, bp);
    assert Ptr(m, fl[i]) == if i + 1 < |fl| then fl[i + 1] else fl[0];
    assert i + 1 < |rest| ==> bp + Size(m', bp) < rest[i + 1];
    if fl[i] + Size(m, fl[i]) == bp {
      SeparateGrow(m, m', rest, i);
    } else {
      SeparateInsert(m, m', rest, i + 1, bp);
    }
  }

  lemma RemoveIn(m: Mem, fl: seq<nat>, i: nat, a: nat)
    requires i < |fl| && Separate(m, fl)
    ensures a in RemoveAt(fl, i) <==> a in fl && a != fl[i]
  {
    var r := RemoveAt(fl, i);
    if a in fl && a != fl[i] {
      var j :| 0 <= j < |fl| && fl[j] == a;
      assert r[if j < i then j else j - 1] == a;
    }
    if a in r {
      var j :| 0 <= j < |r| && r[j] == a;
      if j < i {
        Far(m, fl, j, i);
      } else {
        Far(m, fl, i, j + 1);
      }
    }
  }

  lemma InsertIn(fl: seq<nat>, i: nat, x: nat, a: nat)
    requires i <= |fl|
    ensures a in InsertAt(fl, i, x) <==> a in fl || a == x
  {
    var r := InsertAt(fl, i, x);
    if a in fl {
      var j :| 0 <= j < |fl| && fl[j] == a;
      assert r[if j < i then j else j + 1] == a;
    }
    assert r[i] == x;
  }

  lemma FreeListIn(m: Mem, fl: seq<nat>, i: nat, bp: nat, a: nat)
    requires Clear(m, fl, i, bp) && Separate(m, fl)
    ensures a in FreeList(m, fl, i, bp) <==>
              (a in fl && !(JoinsNext(m, fl, i, bp) && a == fl[i + 1])) || (a == bp && fl[i] + Size(m, fl[i]) != bp)
  {
    if JoinsNext(m, fl, i, bp) {
      RemoveIn(m, fl, i + 1, a);
    }
    InsertIn(Dropped(m, fl, i, bp), i + 1, bp, a);
  }

  /** The header of the block that `bp` ends up in. */
  function FreeHeader(m: Mem, p: nat, bp: nat): nat {
    if p + Size(m, p) == bp then p else bp
  }

  function FreeOwner(m: Mem, fl: seq<nat>, owner: map<nat, nat>, i: nat, bp: nat): (r: map<nat, nat>)
    requires i < |fl|
    ensures forall u: nat {:trigger OwnerOf(r, u)} :: OwnerOf(r, u) ==
              if u in owner && (owner[u] == bp || (JoinsNext(m, fl, i, bp) && owner[u] == fl[i + 1]))
              then FreeHeader(m, fl[i], bp) else OwnerOf(owner, u)
    ensures r.Keys == owner.Keys
  {
    map u | u in owner ::
      if owner[u] == bp || (JoinsNext(m, fl, i, bp) && owner[u] == fl[i + 1])
      then FreeHeader(m, fl[i], bp) else owner[u]
  }

  lemma FreeBlock(base: nat, m: Mem, fl: seq<nat>, live: set<nat>, i: nat, bp: nat, a: nat)
    requires Clear(m, fl, i, bp) && Separate(m, fl) && bp in live && bp != base
    ensures IsBlock(base, FreeList(m, fl, i, bp), live - {bp}, a) <==>
              || (a in live && a != bp)
              || (a in fl && a != base && !(JoinsNext(m, fl, i, bp) && a == fl[i + 1]))
              || (a == bp && fl[i] + Size(m, fl[i]) != bp)
  {
    FreeListIn(m, fl, i, bp, a);
  }

  /** Position, neighbours and resulting headers of one call of free. */
  ghost predicate FreeAt(base: nat, m: Mem, m': Mem, fl: seq<nat>, live: set<nat>, owner: map<nat, nat>, brk: nat,
                         i: nat, bp: nat) {
    && Sound(base, m, fl, live, owner, brk) && bp in live && Clear(m, fl, i, bp)
    && FreedMem(m, m', fl[i], Ptr(m, fl[i]), bp)
    && Ptr(m, fl[i]) == (if i + 1 < |fl| then fl[i + 1] else base)
    && (i == 0 ==> base + Size(m, base) != bp) && (0 < i ==> base < fl[i]) && (i + 1 < |fl| ==> base < fl[i + 1])
  }

  lemma FreeBlocksOwn(base: nat, m: Mem, m': Mem, fl: seq<nat>, live: set<nat>, owner: map<nat, nat>, brk: nat, i: nat,
                      bp: nat)
    requires FreeAt(base, m, m', fl, live, owner, brk, i, bp)
    ensures BlocksOwn(base, m', FreeList(m, fl, i, bp), live - {bp}, FreeOwner(m, fl, owner, i, bp))
  {
    var fl', live', owner' := FreeList(m, fl, i, bp), live - {bp}, FreeOwner(m, fl, owner, i, bp);
    forall a: nat, u: nat | IsBlock(base, fl', live', a) && a <= u < a + Size(m', a)
      ensures OwnerOf(owner', u) == a
    {
      FreeBlock(base, m, fl, live, i, bp, a);
      if a == FreeHeader(m, fl[i], bp) {
        if u < bp {
          assert IsBlock(base, fl, live, fl[i]);
        } else if u < bp + Size(m, bp) {
          assert IsBlock(base, fl, live, bp);
        } else {
          assert IsBlock(base, fl, live, fl[i + 1]);
        }
        assert OwnerOf(owner, u) > 0;
      } else {
        assert IsBlock(base, fl, live, a);
        assert OwnerOf(owner, u) == a;
      }
    }
  }

  lemma FreeUnitsOwned(base: nat, m: Mem, m': Mem, fl: seq<nat>, live: set<nat>, owner: map<nat, nat>, brk: nat,
                       i: nat, bp: nat)
    requires FreeAt(base, m, m', fl, live, owner, brk, i, bp)
    ensures UnitsOwned(base, m', FreeList(m, fl, i, bp), live - {bp}, FreeOwner(m, fl, owner, i, bp), brk)
  {
    var fl', live', owner' := FreeList(m, fl, i, bp), live - {bp}, FreeOwner(m, fl, owner, i, bp);
    var h := FreeHeader(m, fl[i], bp);
    assert OwnerOf(owner, bp) == bp by {
      assert IsBlock(base, fl, live, bp);
    }
    if JoinsNext(m, fl, i, bp) {
      assert IsBlock(base, fl, live, fl[i + 1]) && OwnerOf(owner, fl[i + 1]) == fl[i + 1];
    }
    forall u: nat | u in owner'
      ensures var a := OwnerOf(owner', u);
              base < a <= u < a + Size(m', a) && a + Size(m', a) <= brk && IsBlock(base, fl', live', a)
    {
      var a := OwnerOf(owner', u);
      FreeBlock(base, m, fl, live, i, bp, a);
      assert base < OwnerOf(owner, u) <= u;
    }
  }

  lemma FreeSized(base: nat, m: Mem, m': Mem, fl: seq<nat>, live: set<nat>, owner: map<nat, nat>, brk: nat, i: nat,
                  bp: nat)
    requires FreeAt(base, m, m', fl, live, owner, brk, i, bp)
    ensures Sized(base, m', FreeList(m, fl, i, bp), live - {bp})
  {
    var fl', live' := FreeList(m, fl, i, bp), live - {bp};
    forall a | a in live'
      ensures a !in fl' && Size(m', a) > 0 && base < a
    {
      FreeListIn(m, fl, i, bp, a);
      assert a !in fl;
    }
    forall j | 0 < j < |fl'|
      ensures Size(m', fl'[j]) > 0
    {
      FreeListIn(m, fl, i, bp, fl'[j]);
    }
  }

  /** free keeps every invariant: order, separation, ownership and the set of units. */
  lemma FreeSound(base: nat, m: Mem, fl: seq<nat>, live: set<nat>, owner: map<nat, nat>, brk: nat, i: nat, bp: nat)
    requires Sound(base, m, fl, live, owner, brk) && bp in live && Fits(fl, i, bp)
    ensures Sound(base, FreeMem(m, fl[i], Ptr(m, fl[i]), bp), FreeList(m, fl, i, bp), live - {bp},
                  FreeOwner(m, fl, owner, i, bp), brk)
  {
    var m' := FreeMem(m, fl[i], Ptr(m, fl[i]), bp);
    Neighbours(base, m, fl, live, owner, brk, i, bp);
    forall j | 0 <= j < |fl| && j != i
      ensures fl[j] != fl[i]
    {
      if j < i { Far(m, fl, j, i); } else { Far(m, fl, i, j); }
    }
    if 0 < i { Far(m, fl, 0, i); }
    if i + 1 < |fl| { Far(m, fl, 0, i + 1); }
    FreeMemIs(m, fl[i], Ptr(m, fl[i]), bp);
    FreeLinked(m, m', fl, i, bp);
    FreeSeparate(m, m', fl, i, bp);
    FreeBlocksOwn(base, m, m', fl, live, owner, brk, i, bp);
    FreeUnitsOwned(base, m, m', fl, live, owner, brk, i, bp);
    FreeSized(base, m, m', fl, live, owner, brk, i, bp);
  }

  /** The freed units end up in a block at a known place of the list. */
  lemma FreedBlockAt(base: nat, m: Mem, fl: seq<nat>, live: set<nat>, owner: map<nat, nat>, brk: nat, i: nat, bp: nat)
    requires Sound(base, m, fl, live, owner, brk) && bp in live && Fits(fl, i, bp)
    ensures var m', fl' := FreeMem(m, fl[i], Ptr(m, fl[i]), bp), FreeList(m, fl, i, bp);
            var j := if fl[i] + Size(m, fl[i]) == bp then i else i + 1;
            && i < |fl'| && fl'[i] == fl[i]
            && j < |fl'| && fl'[j] == FreeHeader(m, fl[i], bp) && Size(m', fl'[j]) >= Size(m, bp)
            && (forall a :: a in live && a != bp ==> Size(m', a) == Size(m, a))
  {
    FreeSound(base, m, fl, live, owner, brk, i, bp);
    Neighbours(base, m, fl, live, owner, brk, i, bp);
    FreeMemIs(m, fl[i], Ptr(m, fl[i]), bp);
  }

  lemma {:induction false} FindPlace(m: Mem, fl: seq<nat>, bp: nat, n: nat) returns (t: nat)
    requires Separate(m, fl) && 0 < n <= |fl| && fl[0] < bp && bp !in fl && (n < |fl| ==> bp < fl[n])
    ensures Fits(fl, t, bp)
  {
    if fl[n - 1] < bp {
      t := n - 1;
    } else {
      t := FindPlace(m, fl, bp, n - 1);
    }
  }

  // ----- malloc and morecore -----

  lemma TakeList(m: Mem, m': Mem, fl: seq<nat>, j: nat)
    requires 0 < j < |fl| && Linked(m, fl) && Separate(m, fl)
    requires m' == Mem(m.ptr[fl[j - 1] := Ptr(m, fl[j])], m.size)
    ensures Linked(m', RemoveAt(fl, j)) && Separate(m', RemoveAt(fl, j))
  {
    forall i | 0 <= i < |fl| && i != j - 1 && i != j
      ensures fl[i] != fl[j - 1]
    {
      if i < j { Far(m, fl, i, j - 1); } else { Far(m, fl, j - 1, i); }
    }
    LinkedRemove(m, m', fl, j);
    SeparateRemove(m, m', fl, j);
  }

  /** Handing out a whole free block. */
  lemma TakeSound(base: nat, m: Mem, fl: seq<nat>, live: set<nat>, owner: map<nat, nat>, brk: nat, j: nat)
    requires Sound(base, m, fl, live, owner, brk) && 0 < j < |fl|
    ensures var m' := Mem(m.ptr[fl[j - 1] := Ptr(m, fl[j])], m.size);
            Sound(base, m', RemoveAt(fl, j), live + {fl[j]}, owner, brk)
  {
    var m' := Mem(m.ptr[fl[j - 1] := Ptr(m, fl[j])], m.size);
    var fl', live' := RemoveAt(fl, j), live + {fl[j]};
    TakeList(m, m', fl, j);
    Far(m, fl, 0, j);
    forall a: nat
      ensures IsBlock(base, fl', live', a) == IsBlock(base, fl, live, a)
      ensures a in fl' <==> a in fl && a != fl[j]
    {
      RemoveIn(m, fl, j, a);
    }
    assert forall a: nat :: Size(m', a) == Size(m, a);
    assert Sized(base, m', fl', live');
  }

  lemma SeparateRemove(m: Mem, m': Mem, fl: seq<nat>, j: nat)
    requires 0 < j < |fl| && Separate(m, fl) && m'.size == m.size
    ensures Separate(m', RemoveAt(fl, j))
  {
    var r := RemoveAt(fl, j);
    if j + 1 < |fl| {
      Far(m, fl, j - 1, j + 1);
    }
    forall i | 0 <= i < |r| - 1
      ensures r[i] + Size(m', r[i]) < r[i + 1]
    {
      assert Size(m', r[i]) == Size(m, r[i]);
    }
  }

  function SplitMem(m: Mem, p: nat, n: nat): Mem
    requires n <= Size(m, p)
  {
    Mem(m.ptr, m.size[p := Size(m, p) - n][p + Size(m, p) - n := n])
  }

  function SplitOwner(owner: map<nat, nat>, q: nat, n: nat): (r: map<nat, nat>)
    ensures r.Keys == owner.Keys
    ensures forall u: nat {:trigger OwnerOf(r, u)} ::
              OwnerOf(r, u) == if u in owner && q <= u < q + n then q else OwnerOf(owner, u)
  {
    map u | u in owner :: if q <= u < q + n then q else owner[u]
  }

  /** What SplitMem does: `p` shrinks and the header `q` appears behind it. */
  ghost predicate SplitAt(base: nat, m: Mem, m': Mem, fl: seq<nat>, live: set<nat>, owner: map<nat, nat>, brk: nat,
                          p: nat, q: nat, n: nat) {
    && Sound(base, m, fl, live, owner, brk) && p in fl && base < p < q && !IsBlock(base, fl, live, q)
    && Size(m, p) == q - p + n && Size(m', p) == q - p && Size(m', q) == n > 0
    && (forall a: nat {:trigger Size(m', a)} :: a != p && a != q ==> Size(m', a) == Size(m, a))
    && m'.ptr == m.ptr
  }

  lemma SplitOwns(base: nat, m: Mem, m': Mem, fl: seq<nat>, live: set<nat>, owner: map<nat, nat>, brk: nat, p: nat,
                  q: nat, n: nat)
    requires SplitAt(base, m, m', fl, live, owner, brk, p, q, n)
    ensures BlocksOwn(base, m', fl, live + {q}, SplitOwner(owner, q, n))
  {
    var live', owner' := live + {q}, SplitOwner(owner, q, n);
    assert IsBlock(base, fl, live, p);
    forall a: nat, u: nat | IsBlock(base, fl, live', a) && a <= u < a + Size(m', a)
      ensures OwnerOf(owner', u) == a
    {
      assert q <= u < q + n ==> OwnerOf(owner, u) == p;
      if a != q {
        assert IsBlock(base, fl, live, a) && OwnerOf(owner, u) == a;
        BlockFacts(base, m, fl, live, owner, brk, a);
      }
    }
  }

  lemma SplitUnits(base: nat, m: Mem, m': Mem, fl: seq<nat>, live: set<nat>, owner: map<nat, nat>, brk: nat, p: nat,
                   q: nat, n: nat)
    requires SplitAt(base, m, m', fl, live, owner, brk, p, q, n)
    ensures UnitsOwned(base, m', fl, live + {q}, SplitOwner(owner, q, n), brk)
  {
    var live', owner' := live + {q}, SplitOwner(owner, q, n);
    assert IsBlock(base, fl, live, p);
    BlockFacts(base, m, fl, live, owner, brk, p);
    forall u: nat | u in owner'
      ensures var a := OwnerOf(owner', u);
              base < a <= u < a + Size(m', a) && a + Size(m', a) <= brk && IsBlock(base, fl, live', a)
    {
      var a := OwnerOf(owner, u);
      assert base < a <= u < a + Size(m, a);
      if q <= u < q + n {
        assert OwnerOf(owner', u) == q;
      } else {
        assert OwnerOf(owner', u) == a && a != q;
      }
    }
  }

  lemma SplitListKept(base: nat, m: Mem, m': Mem, fl: seq<nat>, live: set<nat>, owner: map<nat, nat>, brk: nat, p: nat,
                      q: nat, n: nat, j: nat)
    requires SplitAt(base, m, m', fl, live, owner, brk, p, q, n) && 0 < j < |fl| && fl[j] == p
    ensures Linked(m', fl) && Separate(m', fl) && Sized(base, m', fl, live + {q})
  {
    forall i | 0 <= i < |fl|
      ensures fl[i] != q && (i != j ==> fl[i] != p)
    {
      if i < j { Far(m, fl, i, j); } else if j < i { Far(m, fl, j, i); }
    }
    LinkedSame(m, m', fl);
    SeparateShrink(m, m', fl, j);
  }

  /** Handing out the tail end of a larger free block. */
  lemma SplitSound(base: nat, m: Mem, fl: seq<nat>, live: set<nat>, owner: map<nat, nat>, brk: nat, j: nat, n: nat)
    requires Sound(base, m, fl, live, owner, brk) && 0 < j < |fl| && 0 < n < Size(m, fl[j])
    ensures var p := fl[j]; var q := p + Size(m, p) - n;
            q !in live && Sound(base, SplitMem(m, p, n), fl, live + {q}, SplitOwner(owner, q, n), brk)
  {
    var p := fl[j];
    var q := p + Size(m, p) - n;
    Far(m, fl, 0, j);
    assert IsBlock(base, fl, live, p) && OwnerOf(owner, q) == p;
    if IsBlock(base, fl, live, q) {
      BlockFacts(base, m, fl, live, owner, brk, q);
    }
    assert q != base;
    var m' := SplitMem(m, p, n);
    assert SplitAt(base, m, m', fl, live, owner, brk, p, q, n);
    SplitOwns(base, m, m', fl, live, owner, brk, p, q, n);
    SplitUnits(base, m, m', fl, live, owner, brk, p, q, n);
    SplitListKept(base, m, m', fl, live, owner, brk, p, q, n, j);
  }

  lemma SeparateShrink(m: Mem, m': Mem, fl: seq<nat>, j: nat)
    requires j < |fl| && Separate(m, fl) && Size(m', fl[j]) <= Size(m, fl[j])
    requires forall i {:trigger Size(m', fl[i])} :: 0 <= i < |fl| && i != j ==> Size(m', fl[i]) == Size(m, fl[i])
    ensures Separate(m', fl)
  {
  }

  function GrowOwner(owner: map<nat, nat>, hp: nat, n: nat): (r: map<nat, nat>)
    ensures forall u: nat {:trigger u in r} :: u in r <==> u in owner || hp <= u < hp + n
    ensures forall u: nat {:trigger OwnerOf(r, u)} ::
              OwnerOf(r, u) == if hp <= u < hp + n then hp else OwnerOf(owner, u)
  {
    if n == 0 then owner else
      var r0 := GrowOwner(owner, hp, n - 1);
      assert forall u: nat {:trigger OwnerOf(r0[hp + n - 1 := hp], u)} ::
          OwnerOf(r0[hp + n - 1 := hp], u) == if u == hp + n - 1 then hp else OwnerOf(r0, u);
      r0[hp + n - 1 := hp]
  }

  lemma GrowOwns(base: nat, m: Mem, m': Mem, fl: seq<nat>, live: set<nat>, owner: map<nat, nat>, brk: nat, n: nat)
    requires Sound(base, m, fl, live, owner, brk) && Size(m', brk) == n && !IsBlock(base, fl, live, brk)
    requires forall a: nat {:trigger Size(m', a)} :: a != brk ==> Size(m', a) == Size(m, a)
    ensures BlocksOwn(base, m', fl, live + {brk}, GrowOwner(owner, brk, n))
    ensures UnitsOwned(base, m', fl, live + {brk}, GrowOwner(owner, brk, n), brk + n)
  {
    var live', owner' := live + {brk}, GrowOwner(owner, brk, n);
    forall a: nat, u: nat | IsBlock(base, fl, live', a) && a <= u < a + Size(m', a)
      ensures OwnerOf(owner', u) == a
    {
      if a != brk {
        assert IsBlock(base, fl, live, a);
        BlockFacts(base, m, fl, live, owner, brk, a);
        assert OwnerOf(owner, u) == a;
      }
    }
    forall u: nat | u in owner'
      ensures var a := OwnerOf(owner', u);
              base < a <= u < a + Size(m', a) && a + Size(m', a) <= brk + n && IsBlock(base, fl, live', a)
    {
      if !(brk <= u < brk + n) {
        assert base < OwnerOf(owner, u);
      }
    }
  }

  /** The block fresh from sbrk, as morecore hands it to free. */
  lemma GrowSound(base: nat, m: Mem, fl: seq<nat>, live: set<nat>, owner: map<nat, nat>, brk: nat, n: nat)
    requires Sound(base, m, fl, live, owner, brk) && 0 < n
    ensures brk !in live && brk !in fl
    ensures Sound(base, Mem(m.ptr, m.size[brk := n]), fl, live + {brk}, GrowOwner(owner, brk, n), brk + n)
  {
    var m' := Mem(m.ptr, m.size[brk := n]);
    if IsBlock(base, fl, live, brk) {
      BlockFacts(base, m, fl, live, owner, brk, brk);
    }
    assert forall i {:trigger Size(m', fl[i])} :: 0 <= i < |fl| ==> Size(m', fl[i]) == Size(m, fl[i]);
    LinkedSame(m, m', fl);
    GrowOwns(base, m, m', fl, live, owner, brk, n);
  }
}

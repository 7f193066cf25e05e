/** dirlookup, dirlink, isdirempty, ialloc, create, link and unlink as code. */
module DirsCode {
  import opened Counting
  import opened Dirs
  import opened DirTree
  import opened Options

  /** How create ends; NoInodes is ialloc's panic. */
  datatype Outcome = Made(i: nat) | Found(i: nat) | Taken | NoInodes

  /** The name stands for the file `i`. */
  predicate FileNamed(ns: seq<Inode>, dp: nat, name: string, i: nat) {
    dp < |ns| && 0 < i < |ns| && ns[i].kind == Plain(true) && Entry(name, i) in ns[dp].entries
  }

  /** A name stands for one inode. */
  lemma SameName(t: Tree, dp: nat, name: string, s: nat)
    requires Inv(t) && dp < |t.ns| && s < |t.ns[dp].entries| && t.ns[dp].entries[s].inum != 0
    requires t.ns[dp].entries[s].name == name
    ensures t.ns[dp].entries[s].inum < |t.ns|
    ensures forall i :: FileNamed(t.ns, dp, name, i) ==> i == t.ns[dp].entries[s].inum
  {
    assert KindOk(t, dp);
    assert s >= 2 ==> EntryOk(t, dp, s);
    forall i | FileNamed(t.ns, dp, name, i) ensures i == t.ns[dp].entries[s].inum {
      var u :| 0 <= u < |t.ns[dp].entries| && t.ns[dp].entries[u] == Entry(name, i);
      assert NamesDiffer(t, dp, u, s) && NamesDiffer(t, dp, s, u);
    }
  }

  class DirTable {
    var ns: seq<Inode>
    ghost var depth: seq<nat>
    ghost var slot: seq<nat>

    ghost function T(): Tree
      reads this
    {
      Tree(ns, depth, slot)
    }

    /** An empty file system with `n` inodes. */
    constructor (n: nat)
      requires n > ROOTINO
      ensures Inv(T()) && |ns| == n && forall i :: 0 <= i < n && i != ROOTINO ==> ns[i].kind.Free?
      ensures forall d: nat, name: string, i: nat ::
                NamedIn(ns, d, name, i) <==> d == i == ROOTINO && (name == "." || name == "..")
    {
      ns, depth, slot := Fresh(n).ns, Fresh(n).depth, Fresh(n).slot;
      FreshOk(n);
    }

    /** The slot of a name. */
    method Dirlookup(dp: nat, name: string) returns (r: Option<nat>)
      requires dp < |ns|
      ensures r.None? ==> Absent(ns[dp], name)
      ensures r.Some? ==> r.value < |ns[dp].entries| && ns[dp].entries[r.value].inum != 0
      ensures r.Some? ==> ns[dp].entries[r.value].name == name
    {
      var off := 0;
      while off < |ns[dp].entries|
        invariant 0 <= off <= |ns[dp].entries|
        invariant forall s :: 0 <= s < off && ns[dp].entries[s].inum != 0 ==> ns[dp].entries[s].name != name
      {
        if ns[dp].entries[off].inum != 0 && ns[dp].entries[off].name == name {
          return Some(off);
        }
        off := off + 1;
      }
      return None;
    }

    /** A new entry in the first empty slot, or at the end. */
    method Dirlink(dp: nat, name: string, inum: nat) returns (ok: bool, s: nat)
      requires dp < |ns|
      modifies this`ns
      ensures ok == Absent(old(ns)[dp], name)
      ensures ok ==> Vacant(old(ns)[dp], s) && (forall u :: 0 <= u < s ==> old(ns)[dp].entries[u].inum != 0)
      ensures ok ==> ns == old(ns)[dp := old(ns)[dp].(entries := Put(old(ns)[dp].entries, s, Entry(name, inum)))]
      ensures !ok ==> ns == old(ns)
    {
      var found := Dirlookup(dp, name);
      if found.Some? {
        return false, 0;
      }
      s := 0;
      while s < |ns[dp].entries| && ns[dp].entries[s].inum != 0
        invariant 0 <= s <= |ns[dp].entries|
        invariant forall u :: 0 <= u < s ==> ns[dp].entries[u].inum != 0
      {
        s := s + 1;
      }
      ns := ns[dp := ns[dp].(entries := Put(ns[dp].entries, s, Entry(name, inum)))];
      ok := true;
    }

    method IsDirEmpty(d: nat) returns (r: bool)
      requires d < |ns|
      ensures r == EmptyDir(ns[d])
    {
      var off := 2;
      while off < |ns[d].entries|
        invariant 2 <= off && forall s :: 2 <= s < off && s < |ns[d].entries| ==> ns[d].entries[s].inum == 0
      {
        if ns[d].entries[off].inum != 0 {
          return false;
        }
        off := off + 1;
      }
      return true;
    }

    /** ialloc's choice: the lowest free inode. */
    method Ialloc() returns (r: Option<nat>)
      ensures r.Some? ==> 0 < r.value < |ns| && ns[r.value].kind.Free?
      ensures r.Some? ==> forall i :: 0 < i < r.value ==> !ns[i].kind.Free?
      ensures r.None? ==> forall i :: 0 < i < |ns| ==> !ns[i].kind.Free?
    {
      var i := 1;
      while i < |ns|
        invariant 1 <= i && forall j :: 0 < j < i && j < |ns| ==> !ns[j].kind.Free?
      {
        if ns[i].kind.Free? {
          return Some(i);
        }
        i := i + 1;
      }
      return None;
    }

    /** The new inode of create, with its dot entries, and the parent's link for "..". */
    method MakeInode(i: nat, dp: nat, kind: Kind)
      requires dp < |ns| && 0 < i < |ns| && i != dp
      modifies this`ns
      ensures ns == old(ns)[i := NewInode(kind, i, dp)][dp := old(ns)[dp].(nlink := old(ns)[dp].nlink + Bit(kind.Dir?))]
    {
      ns := ns[i := Inode(kind, 1, [])];
      if kind.Dir? {
        ns := ns[dp := ns[dp].(nlink := ns[dp].nlink + 1)];
        var ok, u := Dirlink(i, ".", i);
        ok, u := Dirlink(i, "..", dp);
        assert ns[i] == NewInode(kind, i, dp);
      }
    }

    /** create in the directory `dp`.  A name that is there gives the file it names, if that and
        what is asked for are files and no password stands in the way.  A new inode keeps the
        counts safe exactly when `dp` is linked. */
    method Create(dp: nat, name: string, kind: Kind, locked: set<nat>) returns (r: Outcome)
      requires Inv(T()) && IsDir(T(), dp) && !kind.Free?
      modifies this
      ensures !r.Made? ==> T() == old(T())
      ensures r.Found? ==> FileNamed(ns, dp, name, r.i) && r.i !in locked && kind == Plain(true)
      ensures r.Taken? ==> !Absent(ns[dp], name)
      ensures r.Taken? ==> (kind == Plain(true) ==> forall i :: FileNamed(ns, dp, name, i) ==> i in locked)
      ensures r.NoInodes? ==> Absent(ns[dp], name) && forall i :: 0 < i < |ns| ==> !ns[i].kind.Free?
      ensures r.Made? ==> 0 < r.i < |old(ns)| && old(ns)[r.i].kind.Free? && Absent(old(ns)[dp], name)
      ensures r.Made? ==> exists s: nat ::
                            s >= 2 && Vacant(old(ns)[dp], s) && T() == Created(old(T()), dp, s, name, r.i, kind)
      ensures r.Made? ==> NameAdded(old(ns), ns, dp, name, r.i, kind.Dir?) && ns[r.i].kind == kind && ns[r.i].nlink == 1
      ensures r.Made? ==> forall k :: 0 <= k < |ns| && k != r.i ==>
                            OnlyLinks(old(ns)[k], ns[k], Bit(k == dp && kind.Dir?))
      ensures r.Made? ==> forall k :: 0 < k < r.i ==> !old(ns)[k].kind.Free?
      ensures r.Made? ==> (SafeCounts(T()) <==> old(ns)[dp].nlink > 0)
      ensures !r.Made? || old(ns)[dp].nlink > 0 ==> Inv(T())
    {
      assert KindOk(T(), dp);
      var found := Dirlookup(dp, name);
      if found.Some? {
        var i := ns[dp].entries[found.value].inum;
        SameName(T(), dp, name, found.value);
        assert found.value >= 2 ==> EntryOk(T(), dp, found.value);
        if i in locked || kind != Plain(true) || ns[i].kind != Plain(true) {
          return Taken;
        }
        return Found(i);
      }
      var free := Ialloc();
      if free.None? {
        return NoInodes;
      }
      ghost var s := MakeEntry(dp, name, kind, free.value);
      r := Made(free.value);
    }

    /** The end of create, with the new inode `i`. */
    method MakeEntry(dp: nat, name: string, kind: Kind, i: nat) returns (ghost s: nat)
      requires Inv(T()) && IsDir(T(), dp) && !kind.Free? && Absent(ns[dp], name) && 0 < i < |ns| && ns[i].kind.Free?
      modifies this
      ensures s >= 2 && Vacant(old(ns)[dp], s) && T() == Created(old(T()), dp, s, name, i, kind)
      ensures NameAdded(old(ns), ns, dp, name, i, kind.Dir?) && ns[i].kind == kind && ns[i].nlink == 1
      ensures forall k :: 0 <= k < |ns| && k != i ==> OnlyLinks(old(ns)[k], ns[k], Bit(k == dp && kind.Dir?))
      ensures SafeCounts(T()) <==> old(ns)[dp].nlink > 0
      ensures old(ns)[dp].nlink > 0 ==> Inv(T())
    {
      assert KindOk(T(), dp) && KindOk(T(), i);
      MakeInode(i, dp, kind);
      var ok, at := Dirlink(dp, name, i);
      s := at;
      depth, slot := depth[i := depth[dp] + 1], slot[i := s];
      CreateKeepsIff(old(T()), dp, s, name, i, kind);
      CreatedMeans(old(T()), dp, s, name, i, kind);
      assert T() == Created(old(T()), dp, s, name, i, kind);
    }

    /** link: one more name for inode `i`.  It keeps the counts safe exactly when `dp` is linked. */
    method Link(i: nat, dp: nat, name: string) returns (ok: bool)
      requires Inv(T()) && IsDir(T(), dp) && 0 < i < |ns| && !ns[i].kind.Free?
      modifies this`ns
      ensures ok == (!old(ns)[i].kind.Dir? && Absent(old(ns)[dp], name))
      ensures !ok ==> T() == old(T())
      ensures ok ==> exists s: nat :: s >= 2 && Vacant(old(ns)[dp], s) && T() == Linked(old(T()), dp, s, name, i)
      ensures ok ==> NameAdded(old(ns), ns, dp, name, i, false)
      ensures ok ==> forall k :: 0 <= k < |ns| ==> OnlyLinks(old(ns)[k], ns[k], Bit(k == i))
      ensures ok ==> (SafeCounts(T()) <==> old(ns)[dp].nlink > 0)
      ensures !ok || old(ns)[dp].nlink > 0 ==> Inv(T())
    {
      if ns[i].kind.Dir? {
        return false;
      }
      assert KindOk(T(), dp);
      ns := ns[i := ns[i].(nlink := ns[i].nlink + 1)];
      var s;
      ok, s := Dirlink(dp, name, i);
      if !ok {
        ns := ns[i := ns[i].(nlink := ns[i].nlink - 1)];
        assert ns == old(ns);
        return;
      }
      assert T() == Linked(old(T()), dp, s, name, i);
      LinkKeepsIff(old(T()), dp, s, name, i);
      LinkedMeans(old(T()), dp, s, name, i);
    }

    /** unlink: clears the entry of a name, unless it is a dot name or a directory in use.  The
        tree is kept, and the panic on an inode without links cannot happen. */
    method Unlink(dp: nat, name: string) returns (ok: bool, s: nat)
      requires Inv(T()) && IsDir(T(), dp)
      modifies this`ns
      ensures Inv(T())
      ensures ok ==> s < |old(ns)[dp].entries| && old(ns)[dp].entries[s].name == name
      ensures ok ==> CanUnlink(old(T()), dp, s, old(ns)[dp].entries[s].inum)
      ensures ok ==> T() == UnlinkedAt(old(T()), dp, s, old(ns)[dp].entries[s].inum)
      ensures ok ==> NameTaken(old(ns), ns, dp, name)
      ensures ok ==> var i := old(ns)[dp].entries[s].inum;
                     forall k :: 0 <= k < |ns| ==>
                       OnlyLinks(old(ns)[k], ns[k], 0 - Bit(k == i) - Bit(k == dp && old(ns)[i].kind.Dir?))
      ensures !ok ==> T() == old(T())
      ensures !ok ==> (name == "." || name == ".." || Absent(ns[dp], name) || HoldsFullDir(ns, dp, name, s))
    {
      if name == "." || name == ".." {
        return false, 0;
      }
      var found := Dirlookup(dp, name);
      if found.None? {
        return false, 0;
      }
      s := found.value;
      var i := ns[dp].entries[s].inum;
      assert KindOk(T(), dp) && s >= 2 && EntryOk(T(), dp, s) && KindOk(T(), i);
      if ns[i].kind.Dir? {
        var e := IsDirEmpty(i);
        if !e {
          return false, s;
        }
      }
      ClearEntry(dp, s, i);
      ok := true;
    }

    /** The end of unlink. */
    method ClearEntry(dp: nat, s: nat, i: nat)
      requires Inv(T()) && CanUnlink(T(), dp, s, i)
      modifies this`ns
      ensures Inv(T()) && T() == UnlinkedAt(old(T()), dp, s, i)
      ensures NameTaken(old(ns), ns, dp, old(ns)[dp].entries[s].name)
      ensures forall k :: 0 <= k < |ns| ==>
                OnlyLinks(old(ns)[k], ns[k], 0 - Bit(k == i) - Bit(k == dp && old(ns)[i].kind.Dir?))
    {
      UnlinkKeeps(T(), dp, s, i);
      UnlinkedMeans(T(), dp, s, i);
      ns := ns[dp := ns[dp].(entries := ns[dp].entries[s := EMPTY])];
      if ns[i].kind.Dir? {
        ns := ns[dp := ns[dp].(nlink := ns[dp].nlink - 1)];
      }
      ns := ns[i := ns[i].(nlink := ns[i].nlink - 1)];
      assert T() == Unlinked(old(T()), dp, s);
    }
  }

  /** Slot `s` has the name of a directory that is not empty. */
  predicate HoldsFullDir(ns: seq<Inode>, dp: nat, name: string, s: nat) {
    && dp < |ns| && s < |ns[dp].entries| && ns[dp].entries[s].name == name && ns[dp].entries[s].inum < |ns|
    && ns[ns[dp].entries[s].inum].kind.Dir? && !EmptyDir(ns[ns[dp].entries[s].inum])
  }

  /** The state after unlinking, when it can be done. */
  ghost function UnlinkedAt(t: Tree, dp: nat, s: nat, i: nat): Tree
    requires Inv(t) && CanUnlink(t, dp, s, i)
  {
    UnlinkKeeps(t, dp, s, i);
    Unlinked(t, dp, s)
  }
}

/** The table of unlocked inodes beside the process table (proc.c, fs.c): which ids its rows can
    hold at any time, and why neither of its panics can happen.

    fork calls fork_pids after it has set the child's parent and before the child can run; exit
    calls free_inode_locks before it takes ptable.lock.  `copied` lists the entries that
    fork_pids has been called for and that are still EMBRYO, `leaving` the processes between
    free_inode_locks and ZOMBIE. */
module UnlockRuns {
  import opened Options
  import opened UnlockTable
  import Procs

  datatype System = System(p: Procs.State, rows: seq<Row>, leaving: set<nat>, copied: set<nat>)

  datatype Act = Proc(e: Procs.Event) | Unlock(me: nat, inum: nat) | Copy(me: nat) | Release(me: nat)

  function PidOf(s: System, i: nat): nat
    requires i < |s.p.table|
  {
    s.p.table[i].pid
  }

  predicate Can(s: System, a: Act) {
    match a
    case Proc(e) =>
      && Procs.Enabled(s.p, e)
      && (e.Alloc? ==> e.me !in s.leaving) && (e.Start? ==> s.p.forks[e.me] in s.copied)
      && (e.Exit? ==> e.me in s.leaving)
    case Unlock(me, inum) => Procs.Runs(s.p, me) && me !in s.p.forks && me !in s.leaving && inum < |s.rows|
    case Copy(me) => Procs.Forking(s.p, me) && s.p.table[s.p.forks[me]].parent == Some(me) && s.p.forks[me] !in s.copied
    case Release(me) => Procs.Runs(s.p, me) && me !in s.p.forks && me !in s.leaving && me != s.p.init
  }

  /** The step is a call of unlock_inode or fork_pids that finds no place in a row. */
  predicate Panics(s: System, a: Act)
    requires Can(s, a)
  {
    match a
    case Unlock(me, inum) => NoPlace(s.rows[inum], PidOf(s, me))
    case Copy(me) => !CanCopy(s.rows, PidOf(s, me))
    case _ => false
  }

  ghost predicate Next(s: System, a: Act, s': System) {
    && Can(s, a) && !Panics(s, a)
    && match a
       case Proc(e) =>
         && Procs.Next(s.p, e, s'.p) && s'.rows == s.rows
         && s'.leaving == (if e.Exit? then s.leaving - {e.me} else s.leaving)
         && s'.copied == (if e.Start? then s.copied - {s.p.forks[e.me]} else s.copied)
       case Unlock(me, inum) => s' == s.(rows := UnlockAt(s.rows, inum, PidOf(s, me)))
       case Copy(me) =>
         s' == s.(rows := CopyAll(s.rows, PidOf(s, me), PidOf(s, s.p.forks[me])), copied := s.copied + {s.p.forks[me]})
       case Release(me) => s' == s.(rows := DropAll(s.rows, PidOf(s, me)), leaving := s.leaving + {me})
  }

  // ----- What every step keeps -----

  /** The process of entry `i` can have inodes unlocked. */
  predicate Holder(s: System, i: nat) {
    && i < |s.p.table| && i !in s.leaving
    && (Procs.Alive(s.p.table[i]) || (s.p.table[i].state.Embryo? && i in s.copied))
  }

  /** The ids of those processes among the first `n` entries. */
  ghost function Holders(s: System, n: nat): (r: set<nat>)
    requires n <= |s.p.table|
    ensures forall i :: 0 <= i < n && Holder(s, i) ==> PidOf(s, i) in r
    ensures forall x :: x in r ==> exists i :: 0 <= i < n && Holder(s, i) && PidOf(s, i) == x
  {
    if n == 0 then {} else Holders(s, n - 1) + if Holder(s, n - 1) then {PidOf(s, n - 1)} else {}
  }

  ghost function Ids(s: System): set<nat> {
    Holders(s, |s.p.table|)
  }

  ghost predicate LeavingOk(s: System, i: nat) {
    i < |s.p.table| && Procs.Alive(s.p.table[i]) && i !in s.p.forks && i != s.p.init
  }

  ghost predicate CopiedOk(s: System, i: nat) {
    i < |s.p.table| && s.p.table[i].state.Embryo? && s.p.table[i].parent.Some?
  }

  ghost predicate RowsOk(rows: seq<Row>, ids: set<nat>) {
    |rows| == NINODES && forall r {:trigger rows[r]} :: 0 <= r < |rows| ==> RowOk(rows[r], ids)
  }

  ghost predicate Inv(s: System) {
    && Procs.Inv(s.p) && |s.p.table| == NPROC
    && (forall i: nat {:trigger LeavingOk(s, i)} :: i in s.leaving ==> LeavingOk(s, i))
    && (forall i: nat {:trigger CopiedOk(s, i)} :: i in s.copied ==> CopiedOk(s, i))
    && RowsOk(s.rows, Ids(s))
  }

  /** There are never more ids than entries: the holders are entries in use. */
  lemma FewHolders(s: System)
    ensures Ids(s) <= Procs.PidsInUse(s.p.table, |s.p.table|)
  {
    forall x | x in Ids(s) ensures x in Procs.PidsInUse(s.p.table, |s.p.table|) {
      var i :| 0 <= i < |s.p.table| && Holder(s, i) && PidOf(s, i) == x;
      assert Procs.InUse(s.p.table[i]);
    }
  }

  /** Two entries in use do not share an id. */
  lemma OneEntry(s: System, i: nat, j: nat)
    requires Procs.Inv(s.p) && i < |s.p.table| && j < |s.p.table|
    requires Procs.InUse(s.p.table[i]) && Procs.InUse(s.p.table[j]) && PidOf(s, i) == PidOf(s, j)
    ensures i == j
  {
    assert i < j ==> Procs.PidsDiffer(s.p, i, j);
    assert j < i ==> Procs.PidsDiffer(s.p, j, i);
  }

  /** In a state that keeps the invariant neither panic can happen. */
  lemma PlaceFound(s: System, row: Row, i: nat)
    requires Inv(s) && RowOk(row, Ids(s)) && i < |s.p.table| && Procs.InUse(s.p.table[i]) && PidOf(s, i) !in row
    ensures 0 in row
  {
    var ids := Procs.PidsInUse(s.p.table, |s.p.table|);
    FewHolders(s);
    PlaceLeft(row, ids, PidOf(s, i));
  }

  /** The child's id is in no row before fork_pids. */
  lemma ChildNew(s: System, row: Row, np: nat)
    requires Inv(s) && RowOk(row, Ids(s)) && np < |s.p.table| && s.p.table[np].state.Embryo? && np !in s.copied
    ensures PidOf(s, np) !in row && PidOf(s, np) != 0
  {
    assert Procs.PidOk(s.p, np);
    if PidOf(s, np) in row {
      var i :| 0 <= i < |s.p.table| && Holder(s, i) && PidOf(s, i) == PidOf(s, np);
      OneEntry(s, i, np);
    }
  }

  lemma NoPanic(s: System, a: Act)
    requires Inv(s) && Can(s, a)
    ensures !Panics(s, a)
  {
    match a
    case Unlock(me, inum) =>
      if PidOf(s, me) !in s.rows[inum] {
        PlaceFound(s, s.rows[inum], me);
      }
    case Copy(me) =>
      var np := s.p.forks[me];
      assert Procs.Builds(s.p, me, np);
      forall r | 0 <= r < |s.rows| ensures CopyPlace(s.rows[r], PidOf(s, me)) {
        ChildNew(s, s.rows[r], np);
        PlaceFound(s, s.rows[r], np);
      }
    case _ =>
  }

  // ----- The steps of the process table -----

  lemma HolderStays(s: System, e: Procs.Event, s': System, i: nat)
    requires Inv(s) && Next(s, Proc(e), s') && Holder(s, i)
    ensures Holder(s', i) && PidOf(s', i) == PidOf(s, i)
  {
    assert s'.p.table[i] == Procs.SlotAfter(s.p, e, i);
    if Procs.Alive(s.p.table[i]) {
      Procs.AliveKept(s.p, e, s'.p, i);
    } else {
      assert CopiedOk(s, i);
    }
    if e.Exit? {
      assert LeavingOk(s, e.me);
    }
    if e.Start? || e.ForkFails? || e.Link? {
      assert Procs.Builds(s.p, e.me, s.p.forks[e.me]);
    }
  }

  lemma LeavingStays(s: System, e: Procs.Event, s': System, i: nat)
    requires Inv(s) && Next(s, Proc(e), s') && i in s'.leaving
    ensures LeavingOk(s', i)
  {
    assert LeavingOk(s, i);
    Procs.AliveKept(s.p, e, s'.p, i);
  }

  lemma CopiedStays(s: System, e: Procs.Event, s': System, i: nat)
    requires Inv(s) && Next(s, Proc(e), s') && i in s'.copied
    ensures CopiedOk(s', i)
  {
    assert CopiedOk(s, i);
    assert s'.p.table[i] == Procs.SlotAfter(s.p, e, i);
    if e.Start? || e.ForkFails? || e.Link? {
      assert Procs.Builds(s.p, e.me, s.p.forks[e.me]);
    }
  }

  lemma ProcKeeps(s: System, e: Procs.Event, s': System)
    requires Inv(s) && Next(s, Proc(e), s')
    ensures Inv(s')
  {
    Procs.InvKept(s.p, e, s'.p);
    forall i: nat | i in s'.leaving ensures LeavingOk(s', i) {
      LeavingStays(s, e, s', i);
    }
    forall i: nat | i in s'.copied ensures CopiedOk(s', i) {
      CopiedStays(s, e, s', i);
    }
    forall x | x in Ids(s) ensures x in Ids(s') {
      var i :| 0 <= i < |s.p.table| && Holder(s, i) && PidOf(s, i) == x;
      HolderStays(s, e, s', i);
    }
    MoreIds(s.rows, Ids(s), Ids(s'));
  }

  lemma MoreIds(rows: seq<Row>, ids: set<nat>, ids': set<nat>)
    requires RowsOk(rows, ids) && ids <= ids'
    ensures RowsOk(rows, ids')
  {
  }

  // ----- The steps of the table of unlocked inodes -----

  lemma UnlockKeeps(s: System, me: nat, inum: nat, s': System)
    requires Inv(s) && Next(s, Unlock(me, inum), s')
    ensures Inv(s')
  {
    assert Procs.PidOk(s.p, me) && Holder(s, me);
    assert Ids(s') == Ids(s) by {
      SameIds(s, s');
    }
    if PidOf(s, me) !in s.rows[inum] {
      AddedOk(s.rows[inum], Ids(s), PidOf(s, me));
    }
    forall i: nat | i in s'.leaving ensures LeavingOk(s', i) {
      assert LeavingOk(s, i);
    }
    forall i: nat | i in s'.copied ensures CopiedOk(s', i) {
      assert CopiedOk(s, i);
    }
  }

  lemma SameIds(s: System, s': System)
    requires s'.p == s.p && s'.leaving == s.leaving && s'.copied == s.copied
    ensures Ids(s') == Ids(s)
  {
    forall x ensures x in Ids(s) <==> x in Ids(s') {
      if x in Ids(s) {
        var i :| 0 <= i < |s.p.table| && Holder(s, i) && PidOf(s, i) == x;
        assert Holder(s', i);
      }
      if x in Ids(s') {
        var i :| 0 <= i < |s.p.table| && Holder(s', i) && PidOf(s', i) == x;
        assert Holder(s, i);
      }
    }
  }

  lemma CopyKeeps(s: System, me: nat, s': System)
    requires Inv(s) && Next(s, Copy(me), s')
    ensures Inv(s')
  {
    var np := s.p.forks[me];
    assert Procs.Builds(s.p, me, np) && Procs.PidOk(s.p, np);
    assert np in s.leaving ==> LeavingOk(s, np);
    assert Holder(s', np);
    forall x | x in Ids(s) ensures x in Ids(s') {
      var i :| 0 <= i < |s.p.table| && Holder(s, i) && PidOf(s, i) == x;
      assert Holder(s', i);
    }
    MoreIds(s.rows, Ids(s), Ids(s'));
    forall r | 0 <= r < |s.rows| ensures RowOk(s'.rows[r], Ids(s')) {
      ChildNew(s, s.rows[r], np);
      assert CopyPlace(s.rows[r], PidOf(s, me));
      if PidOf(s, me) in s.rows[r] {
        AddedOk(s.rows[r], Ids(s'), PidOf(s, np));
      }
    }
    forall i: nat | i in s'.leaving ensures LeavingOk(s', i) {
      assert LeavingOk(s, i);
    }
    forall i: nat | i in s'.copied ensures CopiedOk(s', i) {
      assert i != np ==> CopiedOk(s, i);
    }
  }

  lemma ReleaseKeeps(s: System, me: nat, s': System)
    requires Inv(s) && Next(s, Release(me), s')
    ensures Inv(s')
  {
    var pid := PidOf(s, me);
    assert Procs.PidOk(s.p, me);
    forall x | x in Ids(s) - {pid} ensures x in Ids(s') {
      var i :| 0 <= i < |s.p.table| && Holder(s, i) && PidOf(s, i) == x;
      assert Holder(s', i);
    }
    forall r | 0 <= r < |s.rows| ensures RowOk(s'.rows[r], Ids(s) - {pid}) {
      DroppedOk(s.rows[r], Ids(s), pid);
    }
    MoreIds(s'.rows, Ids(s) - {pid}, Ids(s'));
    forall i: nat | i in s'.leaving ensures LeavingOk(s', i) {
      assert i != me ==> LeavingOk(s, i);
    }
    forall i: nat | i in s'.copied ensures CopiedOk(s', i) {
      assert CopiedOk(s, i);
    }
  }

  lemma InvKept(s: System, a: Act, s': System)
    requires Inv(s) && Next(s, a, s')
    ensures Inv(s')
  {
    match a
    case Proc(e) => ProcKeeps(s, e, s');
    case Unlock(me, inum) => UnlockKeeps(s, me, inum, s');
    case Copy(me) => CopyKeeps(s, me, s');
    case Release(me) => ReleaseKeeps(s, me, s');
  }

  // ----- Runs -----

  ghost predicate Boot(s: System) {
    && Procs.Boot(s.p) && |s.p.table| == NPROC && s.leaving == {} && s.copied == {}
    && s.rows == seq(NINODES, _ => seq(NPROC, _ => 0))
  }

  ghost predicate StepAt(ss: seq<System>, acts: seq<Act>, k: nat) {
    k < |acts| && |ss| == |acts| + 1 && Next(ss[k], acts[k], ss[k + 1])
  }

  ghost predicate IsRun(ss: seq<System>, acts: seq<Act>) {
    && |ss| == |acts| + 1 && Boot(ss[0])
    && forall k: nat {:trigger StepAt(ss, acts, k)} :: k < |acts| ==> StepAt(ss, acts, k)
  }

  lemma BootOk(s: System)
    requires Boot(s)
    ensures Inv(s)
  {
    Procs.InvAlways([s.p], [], 0);
  }

  lemma {:induction false} InvAlways(ss: seq<System>, acts: seq<Act>, k: nat)
    requires IsRun(ss, acts) && k < |ss|
    ensures Inv(ss[k])
  {
    if k == 0 {
      BootOk(ss[0]);
    } else {
      InvAlways(ss, acts, k - 1);
      assert StepAt(ss, acts, k - 1);
      InvKept(ss[k - 1], acts[k - 1], ss[k]);
    }
  }

  /** In no state of any run does the next call of unlock_inode or fork_pids panic. */
  lemma NeverPanics(ss: seq<System>, acts: seq<Act>, k: nat, a: Act)
    requires IsRun(ss, acts) && k < |ss| && Can(ss[k], a)
    ensures !Panics(ss[k], a)
  {
    InvAlways(ss, acts, k);
    NoPanic(ss[k], a);
  }

  /** An inode is only ever unlocked for a process that exists: one that can run and is not
      past free_inode_locks, or a child that fork is about to start.  Its entry is the only
      one with that id. */
  lemma UnlockedForLiving(ss: seq<System>, acts: seq<Act>, k: nat, inum: nat, pid: nat) returns (i: nat)
    requires IsRun(ss, acts) && k < |ss| && Has(ss[k].rows, inum, pid)
    ensures Holder(ss[k], i) && PidOf(ss[k], i) == pid
    ensures forall j :: 0 <= j < |ss[k].p.table| && Procs.InUse(ss[k].p.table[j]) && PidOf(ss[k], j) == pid ==> j == i
  {
    InvAlways(ss, acts, k);
    var s := ss[k];
    var m :| 0 <= m < |s.rows[inum]| && s.rows[inum][m] == pid;
    assert RowOk(s.rows[inum], Ids(s)) && pid in Ids(s);
    i :| 0 <= i < |s.p.table| && Holder(s, i) && PidOf(s, i) == pid;
    forall j | 0 <= j < |s.p.table| && Procs.InUse(s.p.table[j]) && PidOf(s, j) == pid ensures j == i {
      OneEntry(s, i, j);
    }
  }

  lemma NotReaped(s: System, i: nat)
    requires Inv(s) && Holder(s, i)
    ensures PidOf(s, i) !in s.p.reaped
  {
    assert Procs.PidOk(s.p, i);
  }

  /** An id that wait has returned is in no row. */
  lemma ReapedForgotten(ss: seq<System>, acts: seq<Act>, k: nat, inum: nat, pid: nat)
    requires IsRun(ss, acts) && k < |ss| && pid in ss[k].p.reaped
    ensures !Has(ss[k].rows, inum, pid)
  {
    InvAlways(ss, acts, k);
    if Has(ss[k].rows, inum, pid) {
      var i := UnlockedForLiving(ss, acts, k, inum, pid);
      NotReaped(ss[k], i);
    }
  }

  // ----- For whom an inode is unlocked -----

  /** The step unlocks inode `inum` for the process with id `pid`: it asks for that itself, or it is the
      child of one that has the inode unlocked. */
  predicate Gives(s: System, a: Act, inum: nat, pid: nat)
    requires Can(s, a)
  {
    match a
    case Unlock(me, i) => i == inum && PidOf(s, me) == pid
    case Copy(me) => PidOf(s, s.p.forks[me]) == pid && Has(s.rows, inum, PidOf(s, me))
    case _ => false
  }

  /** The step is free_inode_locks of that process. */
  predicate Takes(s: System, a: Act, pid: nat)
    requires Can(s, a)
  {
    a.Release? && PidOf(s, a.me) == pid
  }

  /** One step: whoever had the inode unlocked keeps it so until free_inode_locks, and nobody else gets
      it but by the step. */
  lemma StepHas(s: System, a: Act, s': System, inum: nat, pid: nat)
    requires Inv(s) && Next(s, a, s')
    ensures Has(s'.rows, inum, pid) <==> (Has(s.rows, inum, pid) && !Takes(s, a, pid)) || Gives(s, a, inum, pid)
  {
    match a
    case Proc(e) =>
    case Unlock(me, i) =>
      assert Procs.PidOk(s.p, me);
      UnlockHas(s.rows, i, PidOf(s, me));
    case Copy(me) =>
      assert Procs.Builds(s.p, me, s.p.forks[me]) && Procs.PidOk(s.p, me) && Procs.PidOk(s.p, s.p.forks[me]);
      CopyHas(s.rows, PidOf(s, me), PidOf(s, s.p.forks[me]));
    case Release(me) =>
      assert Procs.PidOk(s.p, me);
      DropHas(s.rows, PidOf(s, me));
  }

  /** Step `j` of the run unlocks the inode for the process, and no step before `k` takes that back. */
  ghost predicate GivenSince(ss: seq<System>, acts: seq<Act>, inum: nat, pid: nat, j: nat, k: nat)
    requires IsRun(ss, acts)
  {
    && j < k <= |acts| && StepAt(ss, acts, j) && Gives(ss[j], acts[j], inum, pid)
    && forall m: nat {:trigger StepAt(ss, acts, m)} :: j < m < k && StepAt(ss, acts, m) ==> !Takes(ss[m], acts[m], pid)
  }

  /** In every state of every run, an inode is unlocked for a process exactly if the process has
      unlocked it, or was forked by one for which it was unlocked, and has not exited since. */
  lemma {:induction false} UnlockedIff(ss: seq<System>, acts: seq<Act>, k: nat, inum: nat, pid: nat)
    requires IsRun(ss, acts) && k < |ss|
    ensures Has(ss[k].rows, inum, pid) <==> exists j: nat :: GivenSince(ss, acts, inum, pid, j, k)
  {
    if k > 0 {
      UnlockedIff(ss, acts, k - 1, inum, pid);
      InvAlways(ss, acts, k - 1);
      assert StepAt(ss, acts, k - 1);
      StepHas(ss[k - 1], acts[k - 1], ss[k], inum, pid);
      if Has(ss[k].rows, inum, pid) {
        var j: nat := if Gives(ss[k - 1], acts[k - 1], inum, pid) then k - 1 else GivenBy(ss, acts, inum, pid, k - 1);
        assert j < k - 1 ==> GivenSince(ss, acts, inum, pid, j, k - 1);
        GivenOn(ss, acts, inum, pid, j, k);
      } else {
        forall j: nat ensures !GivenSince(ss, acts, inum, pid, j, k) {
          GivenOn(ss, acts, inum, pid, j, k);
        }
      }
    }
  }

  ghost function GivenBy(ss: seq<System>, acts: seq<Act>, inum: nat, pid: nat, k: nat): (j: nat)
    requires IsRun(ss, acts) && exists j: nat :: GivenSince(ss, acts, inum, pid, j, k)
    ensures GivenSince(ss, acts, inum, pid, j, k)
  {
    var j: nat :| GivenSince(ss, acts, inum, pid, j, k);
    j
  }

  lemma GivenOn(ss: seq<System>, acts: seq<Act>, inum: nat, pid: nat, j: nat, k: nat)
    requires IsRun(ss, acts) && 0 < k <= |acts| && StepAt(ss, acts, k - 1)
    ensures GivenSince(ss, acts, inum, pid, j, k) <==>
            if j == k - 1 then Gives(ss[j], acts[j], inum, pid)
            else GivenSince(ss, acts, inum, pid, j, k - 1) && !Takes(ss[k - 1], acts[k - 1], pid)
  {
  }

  /** Entry `me` keeps its process until that calls free_inode_locks. */
  lemma StaysHolder(s: System, a: Act, s': System, me: nat)
    requires Inv(s) && Next(s, a, s') && Holder(s, me) && a != Release(me)
    ensures Holder(s', me) && PidOf(s', me) == PidOf(s, me) && !Takes(s, a, PidOf(s, me))
  {
    match a
    case Proc(e) => HolderStays(s, e, s', me);
    case Release(i) =>
      if PidOf(s, i) == PidOf(s, me) {
        OneEntry(s, i, me);
      }
    case _ =>
  }

  /** A process that has unlocked an inode has it unlocked in every state until it exits. */
  lemma {:induction false} StaysUnlocked(ss: seq<System>, acts: seq<Act>, j: nat, k: nat, me: nat, inum: nat)
    requires IsRun(ss, acts) && j < k < |ss| && acts[j] == Unlock(me, inum)
    requires forall m :: j < m < k ==> acts[m] != Release(me)
    ensures me < |ss[j].p.table| && Holder(ss[k], me) && PidOf(ss[k], me) == PidOf(ss[j], me)
    ensures Has(ss[k].rows, inum, PidOf(ss[k], me))
  {
    assert StepAt(ss, acts, j) && StepAt(ss, acts, k - 1);
    InvAlways(ss, acts, k - 1);
    if k > j + 1 {
      StaysUnlocked(ss, acts, j, k - 1, me, inum);
    }
    StaysHolder(ss[k - 1], acts[k - 1], ss[k], me);
    StepHas(ss[k - 1], acts[k - 1], ss[k], inum, PidOf(ss[j], me));
  }

  // ----- A run -----

  lemma OneMore(ss: seq<System>, acts: seq<Act>, a: Act, s': System)
    requires IsRun(ss, acts) && Next(ss[|acts|], a, s')
    ensures IsRun(ss + [s'], acts + [a])
  {
    forall k: nat | k < |acts| + 1 ensures StepAt(ss + [s'], acts + [a], k) {
      assert k < |acts| ==> StepAt(ss, acts, k);
    }
  }

  /** The process table after userinit: process 1 in entry 0. */
  function FirstTable(): seq<Procs.Slot> {
    seq(NPROC, i => if i == 0 then Procs.Slot(Procs.Runnable, 1, None, Procs.NoChan, false)
                    else Procs.Slot(Procs.Unused, 0, None, Procs.NoChan, false))
  }

  lemma Unlocks(s: System, s': System)
    requires Procs.Runs(s.p, 0) && s.p.forks == map[] && s.leaving == {} && PidOf(s, 0) == 1
    requires s.rows == seq(NINODES, _ => seq(NPROC, _ => 0)) && s' == s.(rows := s'.rows)
    requires s'.rows == s.rows[5 := s.rows[5][0 := 1]]
    ensures Next(s, Unlock(0, 5), s')
  {
    assert s.rows[5][0] == 0;
  }

  lemma Copies(s: System, s': System)
    requires Procs.Forking(s.p, 0) && s.p.forks[0] == 1 && s.p.table[1].parent == Some(0) && s.copied == {}
    requires PidOf(s, 0) == 1 && PidOf(s, 1) == 2 && Shaped(s.rows) && s.rows[5][0] == 1 && s.rows[5][1] == 0
    requires forall r :: 0 <= r < NINODES && r != 5 ==> 1 !in s.rows[r]
    requires s' == s.(rows := s.rows[5 := s.rows[5][1 := 2]], copied := {1})
    ensures Next(s, Copy(0), s')
  {
    var rows := s.rows;
    assert FirstOf(rows[5], 0) == 1 && 0 in rows[5];
    assert CanCopy(rows, 1);
    assert CopyAll(rows, 1, 2) == s'.rows;
  }

  /** The first process runs and unlocks inode 5. */
  lemma FirstUnlock() returns (ss: seq<System>, acts: seq<Act>)
    ensures IsRun(ss, acts) && |acts| == 2
    ensures var t, rows := FirstTable(), seq(NINODES, _ => seq(NPROC, _ => 0));
            && ss[2].p == Procs.State(t[0 := t[0].(state := Procs.Running)], 0, 2, map[], [])
            && ss[2].rows == rows[5 := rows[5][0 := 1]] && ss[2].leaving == ss[2].copied == {}
  {
    var t := FirstTable();
    var rows: seq<Row> := seq(NINODES, _ => seq(NPROC, _ => 0));
    var s0 := System(Procs.State(t, 0, 2, map[], []), rows, {}, {});
    var s1 := s0.(p := Procs.State(t[0 := t[0].(state := Procs.Running)], 0, 2, map[], []));
    ss, acts := [s0], [];
    OneMore(ss, acts, Proc(Procs.Dispatch(0)), s1);
    ss, acts := ss + [s1], acts + [Proc(Procs.Dispatch(0))];
    var s2 := s1.(rows := rows[5 := rows[5][0 := 1]]);
    Unlocks(s1, s2);
    OneMore(ss, acts, Unlock(0, 5), s2);
    ss, acts := ss + [s2], acts + [Unlock(0, 5)];
  }

  /** Then it forks: the child has the inode unlocked too. */
  lemma ChildInherits() returns (ss: seq<System>, acts: seq<Act>)
    ensures IsRun(ss, acts) && |acts| == 5 && Has(ss[5].rows, 5, 1) && Has(ss[5].rows, 5, 2)
  {
    ss, acts := FirstUnlock();
    var s2 := ss[2];
    var t2 := s2.p.table[1 := s2.p.table[1].(state := Procs.Embryo, pid := 2)];
    var s3 := s2.(p := Procs.State(t2, 0, 3, map[0 := 1], []));
    OneMore(ss, acts, Proc(Procs.Alloc(0, 1)), s3);
    ss, acts := ss + [s3], acts + [Proc(Procs.Alloc(0, 1))];
    var s4 := s3.(p := s3.p.(table := t2[1 := t2[1].(parent := Some(0))]));
    OneMore(ss, acts, Proc(Procs.Link(0)), s4);
    ss, acts := ss + [s4], acts + [Proc(Procs.Link(0))];
    var s5 := s4.(rows := s4.rows[5 := s4.rows[5][1 := 2]], copied := {1});
    Copies(s4, s5);
    OneMore(ss, acts, Copy(0), s5);
    ss, acts := ss + [s5], acts + [Copy(0)];
    assert s5.rows[5][0] == 1 && s5.rows[5][1] == 2;
  }
}

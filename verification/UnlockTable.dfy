/** The table of per-process unlocked inodes (fs.c), with its rows of fixed length.

    Row `i` lists the ids of the processes for which inode `i` is unlocked; 0 is an empty
    place. */
module UnlockTable {
  import opened Counting

  const NPROC := 64
  const NINODES := 200

  type Row = seq<nat>

  /** The relation that the table stands for. */
  predicate Unlocked(row: Row, pid: nat) {
    pid != 0 && pid in row
  }

  predicate Shaped(rows: seq<Row>) {
    |rows| == NINODES && forall i :: 0 <= i < |rows| ==> |rows[i]| == NPROC
  }

  /** No id stands twice in the row. */
  ghost predicate NoRepeat(row: Row) {
    forall i, j :: 0 <= i < j < |row| && row[i] != 0 ==> row[i] != row[j]
  }

  ghost predicate RowOk(row: Row, ids: set<nat>) {
    |row| == NPROC && NoRepeat(row) && forall i :: 0 <= i < |row| && row[i] != 0 ==> row[i] in ids
  }

  // ----- What the loops do to a row -----

  /** The first place that holds `x`; |row| when there is none. */
  function FirstOf(row: Row, x: nat): (i: nat)
    ensures i <= |row| && (i < |row| ==> row[i] == x) && x !in row[..i]
    ensures x in row ==> i < |row|
  {
    if row == [] then 0 else if row[0] == x then 0 else 1 + FirstOf(row[1..], x)
  }

  function Added(row: Row, pid: nat): Row
    requires 0 in row
  {
    row[FirstOf(row, 0) := pid]
  }

  function Dropped(row: Row, pid: nat): Row {
    seq(|row|, i requires 0 <= i < |row| => if row[i] == pid then 0 else row[i])
  }

  /** unlock_inode does not find a place. */
  predicate NoPlace(row: Row, pid: nat) {
    pid !in row && 0 !in row
  }

  function UnlockRow(row: Row, pid: nat): Row
    requires !NoPlace(row, pid)
  {
    if pid in row then row else Added(row, pid)
  }

  function CopyRow(row: Row, parent: nat, child: nat): Row
    requires parent in row ==> 0 in row
  {
    if parent in row then Added(row, child) else row
  }

  lemma AddedHas(row: Row, pid: nat, p: nat)
    requires 0 in row && pid != 0
    ensures Unlocked(Added(row, pid), p) <==> Unlocked(row, p) || p == pid
  {
    var i, row' := FirstOf(row, 0), Added(row, pid);
    assert row'[i] == pid;
    if Unlocked(row, p) {
      var j :| 0 <= j < |row| && row[j] == p;
      assert row'[j] == p;
    }
  }

  lemma AddedOk(row: Row, ids: set<nat>, pid: nat)
    requires RowOk(row, ids) && 0 in row && pid in ids && pid !in row && pid != 0
    ensures RowOk(Added(row, pid), ids)
    ensures forall p: nat :: Unlocked(Added(row, pid), p) <==> Unlocked(row, p) || p == pid
  {
    forall p: nat ensures Unlocked(Added(row, pid), p) <==> Unlocked(row, p) || p == pid {
      AddedHas(row, pid, p);
    }
  }

  lemma DroppedHas(row: Row, pid: nat, p: nat)
    requires pid != 0
    ensures Unlocked(Dropped(row, pid), p) <==> Unlocked(row, p) && p != pid
  {
    if Unlocked(row, p) && p != pid {
      var j :| 0 <= j < |row| && row[j] == p;
      assert Dropped(row, pid)[j] == p;
    }
  }

  lemma DroppedOk(row: Row, ids: set<nat>, pid: nat)
    requires RowOk(row, ids) && pid != 0
    ensures RowOk(Dropped(row, pid), ids - {pid})
    ensures forall p: nat :: Unlocked(Dropped(row, pid), p) <==> Unlocked(row, p) && p != pid
  {
    forall p: nat ensures Unlocked(Dropped(row, pid), p) <==> Unlocked(row, p) && p != pid {
      DroppedHas(row, pid, p);
    }
  }

  // ----- Pigeonhole -----

  /** The ids in the first `n` places. */
  ghost function Pids(row: Row, n: nat): set<nat>
    requires n <= |row|
  {
    if n == 0 then {} else Pids(row, n - 1) + {row[n - 1]}
  }

  /** A full row without repetitions has as many ids as places. */
  lemma {:induction false} PidsOfRow(row: Row, n: nat, ids: set<nat>)
    requires NoRepeat(row) && n <= |row| && 0 !in row && forall i :: 0 <= i < |row| ==> row[i] in ids
    ensures |Pids(row, n)| == n && Pids(row, n) <= ids && forall i :: n <= i < |row| ==> row[i] !in Pids(row, n)
  {
    if n > 0 {
      PidsOfRow(row, n - 1, ids);
    }
  }

  /** A row that lacks one of at most NPROC ids has an empty place. */
  lemma PlaceLeft(row: Row, ids: set<nat>, pid: nat)
    requires RowOk(row, ids) && |ids| <= NPROC && pid in ids && pid !in row
    ensures 0 in row
  {
    if 0 !in row {
      forall i | 0 <= i < |row| ensures row[i] in ids - {pid} {
        assert row[i] in row;
      }
      PidsOfRow(row, |row|, ids - {pid});
      SubsetFits(Pids(row, |row|), ids - {pid});
    }
  }

  // ----- The table -----

  /** Is inode `i` unlocked for process `p`? */
  predicate Has(rows: seq<Row>, i: nat, p: nat) {
    i < |rows| && Unlocked(rows[i], p)
  }

  function UnlockAt(rows: seq<Row>, inum: nat, pid: nat): seq<Row>
    requires inum < |rows| && !NoPlace(rows[inum], pid)
  {
    rows[inum := UnlockRow(rows[inum], pid)]
  }

  function DropAll(rows: seq<Row>, pid: nat): seq<Row> {
    seq(|rows|, i requires 0 <= i < |rows| => Dropped(rows[i], pid))
  }

  /** fork_pids finds a place in every row it has to. */
  predicate CanCopy(rows: seq<Row>, parent: nat) {
    forall i :: 0 <= i < |rows| ==> CopyPlace(rows[i], parent)
  }

  predicate CopyPlace(row: Row, parent: nat) {
    parent in row ==> 0 in row
  }

  function CopyAll(rows: seq<Row>, parent: nat, child: nat): seq<Row>
    requires CanCopy(rows, parent)
  {
    seq(|rows|, i requires 0 <= i < |rows| => CopyRow(rows[i], parent, child))
  }

  /** unlock_inode adds one pair to the relation. */
  lemma UnlockHas(rows: seq<Row>, inum: nat, pid: nat)
    requires inum < |rows| && !NoPlace(rows[inum], pid) && pid != 0
    ensures forall i: nat, p: nat ::
              Has(UnlockAt(rows, inum, pid), i, p) <==> Has(rows, i, p) || (i == inum && p == pid)
  {
    forall p: nat ensures Unlocked(UnlockRow(rows[inum], pid), p) <==> Unlocked(rows[inum], p) || p == pid {
      if pid !in rows[inum] {
        AddedHas(rows[inum], pid, p);
      }
    }
  }

  /** free_inode_locks takes away the pairs of one id. */
  lemma DropHas(rows: seq<Row>, pid: nat)
    requires pid != 0
    ensures forall i: nat, p: nat :: Has(DropAll(rows, pid), i, p) <==> Has(rows, i, p) && p != pid
  {
    forall i: nat, p: nat | i < |rows|
      ensures Unlocked(Dropped(rows[i], pid), p) <==> Unlocked(rows[i], p) && p != pid
    {
      DroppedHas(rows[i], pid, p);
    }
  }

  /** fork_pids gives the child what the parent has. */
  lemma CopyHas(rows: seq<Row>, parent: nat, child: nat)
    requires CanCopy(rows, parent) && parent != 0 && child != 0
    ensures forall i: nat, p: nat ::
              Has(CopyAll(rows, parent, child), i, p) <==> Has(rows, i, p) || (p == child && Has(rows, i, parent))
  {
    forall i: nat, p: nat | i < |rows|
      ensures Unlocked(CopyAll(rows, parent, child)[i], p) <==>
              Unlocked(rows[i], p) || (p == child && Unlocked(rows[i], parent))
    {
      assert CopyPlace(rows[i], parent);
      if parent in rows[i] {
        AddedHas(rows[i], child, p);
      }
    }
  }

  class Table {
    var rows: seq<Row>

    constructor ()
      ensures Shaped(rows) && forall i: nat, p: nat :: !Has(rows, i, p)
    {
      rows := seq(NINODES, _ => seq(NPROC, _ => 0));
    }

    method Find(inum: nat, x: nat) returns (i: nat)
      requires Shaped(rows) && inum < NINODES
      ensures i == FirstOf(rows[inum], x)
    {
      i := 0;
      while i < NPROC && rows[inum][i] != x
        invariant 0 <= i <= NPROC && FirstOf(rows[inum], x) == i + FirstOf(rows[inum][i..], x)
      {
        assert rows[inum][i..][1..] == rows[inum][i + 1..];
        i := i + 1;
      }
    }

    /** unlock_inode; `ok` is false where it panics. */
    method UnlockInode(inum: nat, pid: nat) returns (ok: bool)
      requires Shaped(rows) && inum < NINODES
      modifies this
      ensures Shaped(rows) && ok == !NoPlace(old(rows)[inum], pid)
      ensures rows == if ok then UnlockAt(old(rows), inum, pid) else old(rows)
      ensures ok <==> pid in old(rows)[inum] || 0 in old(rows)[inum]
      ensures ok && pid != 0 ==>
                forall i: nat, p: nat :: Has(rows, i, p) <==> Has(old(rows), i, p) || (i == inum && p == pid)
    {
      if !NoPlace(rows[inum], pid) && pid != 0 {
        UnlockHas(rows, inum, pid);
      }
      var at := Find(inum, pid);
      if at < NPROC {
        assert pid in rows[inum];
        assert rows == rows[inum := rows[inum]];
        return true;
      }
      assert rows[inum][..NPROC] == rows[inum];
      at := Find(inum, 0);
      ok := at < NPROC;
      if ok {
        var row: seq<nat> := rows[inum];
        row := row[at := pid];
        rows := rows[inum := row];
      } else {
        assert rows[inum][..NPROC] == rows[inum];
      }
    }

    /** is_inode_unlocked */
    method IsInodeUnlocked(inum: nat, pid: nat) returns (r: bool)
      requires Shaped(rows) && inum < NINODES && pid != 0
      ensures r == Has(rows, inum, pid)
    {
      var at := Find(inum, pid);
      assert rows[inum][..NPROC] == rows[inum];
      r := at < NPROC;
    }

    /** The inner loop of free_inode_locks. */
    method DropRow(inum: nat, pid: nat)
      requires Shaped(rows) && inum < NINODES
      modifies this
      ensures Shaped(rows) && rows == old(rows)[inum := Dropped(old(rows)[inum], pid)]
    {
      var j := 0;
      while j < NPROC
        invariant 0 <= j <= NPROC && Shaped(rows) && rows == old(rows)[inum := rows[inum]]
        invariant forall k :: 0 <= k < NPROC ==>
                    rows[inum][k] == if k < j && old(rows)[inum][k] == pid then 0 else old(rows)[inum][k]
      {
        if rows[inum][j] == pid {
          var row: seq<nat> := rows[inum];
          row := row[j := 0];
          rows := rows[inum := row];
        }
        j := j + 1;
      }
      assert rows[inum] == Dropped(old(rows)[inum], pid);
    }

    /** free_inode_locks */
    method FreeInodeLocks(pid: nat)
      requires Shaped(rows)
      modifies this
      ensures Shaped(rows) && rows == DropAll(old(rows), pid)
      ensures pid != 0 ==> forall i: nat, p: nat :: Has(rows, i, p) <==> Has(old(rows), i, p) && p != pid
    {
      if pid != 0 {
        DropHas(rows, pid);
      }
      var i := 0;
      while i < NINODES
        invariant 0 <= i <= NINODES && Shaped(rows)
        invariant forall k :: 0 <= k < NINODES ==> rows[k] == if k < i then Dropped(old(rows)[k], pid) else old(rows)[k]
      {
        DropRow(i, pid);
        i := i + 1;
      }
    }

    /** fork_pids; `ok` is false where it panics. */
    method ForkPids(parent: nat, child: nat) returns (ok: bool)
      requires Shaped(rows)
      modifies this
      ensures ok == CanCopy(old(rows), parent)
      ensures ok ==> Shaped(rows) && rows == CopyAll(old(rows), parent, child)
      ensures ok <==> forall i :: 0 <= i < NINODES && parent in old(rows)[i] ==> 0 in old(rows)[i]
      ensures ok && parent != 0 && child != 0 ==>
                forall i: nat, p: nat ::
                  Has(rows, i, p) <==> Has(old(rows), i, p) || (p == child && Has(old(rows), i, parent))
    {
      if CanCopy(rows, parent) && parent != 0 && child != 0 {
        CopyHas(rows, parent, child);
      }
      var i := 0;
      while i < NINODES
        invariant 0 <= i <= NINODES && Shaped(rows)
        invariant forall k ::
                    0 <= k < i ==> CopyPlace(old(rows)[k], parent) && rows[k] == CopyRow(old(rows)[k], parent, child)
        invariant forall k :: i <= k < NINODES ==> rows[k] == old(rows)[k]
      {
        var at := Find(i, parent);
        assert rows[i][..NPROC] == rows[i];
        if at < NPROC {
          at := Find(i, 0);
          assert rows[i][..NPROC] == rows[i];
          if at == NPROC {
            assert !CopyPlace(old(rows)[i], parent);
            return false;
          }
          var row: seq<nat> := rows[i];
          row := row[at := child];
          rows := rows[i := row];
        }
        i := i + 1;
      }
      ok := true;
    }
  }
}

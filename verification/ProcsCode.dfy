/** The critical sections of proc.c as code over the process table. */
module ProcsCode {
  import opened Procs
  import opened Options

  datatype WaitResult = Got(pid: nat) | NoChild | Waits

  class ProcTable {
    var table: seq<Slot>
    var nextpid: nat
    const init: nat
    ghost var forks: map<nat, nat>
    ghost var reaped: seq<nat>

    ghost function Snapshot(): State
      reads this
    {
      State(table, init, nextpid, forks, reaped)
    }

    /** A zeroed table of `n` entries after userinit. */
    constructor (n: nat)
      requires 0 < n
      ensures Boot(Snapshot()) && |table| == n
    {
      table := seq(n, i => Slot(if i == 0 then Runnable else Unused, if i == 0 then 1 else 0, None, NoChan, false));
      nextpid, init := 2, 0;
      forks, reaped := map[], [];
    }

    method Wakeup1(c: Chan)
      modifies this`table
      ensures |table| == |old(table)|
      ensures forall i :: 0 <= i < |table| ==> table[i] == WakeSlot(old(table)[i], c)
    {
      var p := 0;
      while p < |table|
        invariant 0 <= p <= |table| == |old(table)|
        invariant forall i ::
                    0 <= i < |table| ==> table[i] == if i < p then WakeSlot(old(table)[i], c) else old(table)[i]
      {
        if table[p].state.Sleeping? && table[p].chan == c {
          table := table[p := table[p].(state := Runnable)];
        }
        p := p + 1;
      }
    }

    /** allocproc's part under the lock, called by fork in process `me`. */
    method AllocProc(ghost me: nat) returns (np: Option<nat>)
      requires Runs(Snapshot(), me) && me !in forks
      modifies this`table, this`nextpid, this`forks
      ensures np.Some? ==> Next(old(Snapshot()), Alloc(me, np.value), Snapshot())
      ensures np.Some? ==> forall j :: 0 <= j < np.value ==> InUse(table[j])
      ensures np.Some? ==> np.value < |old(table)| && old(table)[np.value].state.Unused? && nextpid == old(nextpid) + 1
      ensures np.Some? ==>
                table == old(table)[np.value := old(table)[np.value].(state := Embryo, pid := old(nextpid))]
      ensures np.None? ==> Snapshot() == old(Snapshot()) && forall j :: 0 <= j < |table| ==> InUse(table[j])
    {
      var p := 0;
      while p < |table|
        invariant 0 <= p <= |table|
        invariant forall j :: 0 <= j < p ==> InUse(table[j])
      {
        if table[p].state.Unused? {
          table := table[p := table[p].(state := Embryo, pid := nextpid)];
          nextpid := nextpid + 1;
          forks := forks[me := p];
          return Some(p);
        }
        p := p + 1;
      }
      return None;
    }

    /** exit's part under the lock, up to its call of sched. */
    method Exit(me: nat)
      requires Runs(Snapshot(), me) && me !in forks && me != init
      modifies this`table
      ensures Next(old(Snapshot()), Event.Exit(me), Snapshot())
    {
      Wakeup1(ParentChan(table[me]));
      var p := 0;
      while p < |table|
        invariant 0 <= p <= |table| == |old(table)|
        invariant forall i :: 0 <= i < |table| ==> table[i] == Disowned(old(table), init, me, p, i)
      {
        if table[p].parent == Some(me) {
          table := table[p := table[p].(parent := Some(init))];
          if table[p].state.Zombie? {
            assert ZombieChild(old(table), me, p);
            Wakeup1(OnProc(init));
          }
        }
        p := p + 1;
      }
      table := table[me := table[me].(state := Zombie)];
    }

    /** One round of wait's loop, up to its return or its call of sleep. */
    method Wait(me: nat) returns (r: WaitResult)
      requires Runs(Snapshot(), me) && me !in forks
      modifies this`table, this`reaped
      ensures match r {
        case Got(pid) =>
          exists z: nat ::
            ZombieChild(old(table), me, z) && old(table)[z].pid == pid && Next(old(Snapshot()), Reap(me, z), Snapshot())
        case Waits =>
          && Next(old(Snapshot()), WaitSleeps(me), Snapshot()) && !old(table)[me].killed
          && exists i :: 0 <= i < |table| && old(table)[i].parent == Some(me)
        case NoChild =>
          && Snapshot() == old(Snapshot())
          && (old(table)[me].killed || forall i :: 0 <= i < |table| ==> table[i].parent != Some(me))
      }
      ensures !r.Got? ==> forall z :: 0 <= z < |table| ==> !ZombieChild(old(table), me, z)
      ensures r.Got? ==> exists z: nat ::
                && ZombieChild(old(table), me, z) && old(table)[z].pid == r.pid
                && (forall y :: 0 <= y < z ==> !ZombieChild(old(table), me, y))
                && table == old(table)[z := Slot(Unused, 0, None, old(table)[z].chan, false)]
      ensures r.Waits? ==> table == old(table)[me := old(table)[me].(state := Sleeping, chan := OnProc(me))]
    {
      var havekids := false;
      var p := 0;
      while p < |table|
        invariant 0 <= p <= |table|
        invariant forall z :: 0 <= z < p ==> !ZombieChild(table, me, z)
        invariant havekids <==> exists i :: 0 <= i < p && table[i].parent == Some(me)
      {
        if table[p].parent == Some(me) {
          havekids := true;
          if table[p].state.Zombie? {
            assert ZombieChild(table, me, p);
            reaped := reaped + [table[p].pid];
            r := Got(table[p].pid);
            table := table[p := table[p].(state := Unused, pid := 0, parent := None, killed := false)];
            return;
          }
        }
        p := p + 1;
      }
      if !havekids || table[me].killed {
        return NoChild;
      }
      table := table[me := table[me].(chan := OnProc(me), state := Sleeping)];
      return Waits;
    }

    /** kill: the first entry with the given id, in use or not. */
    method Kill(pid: nat) returns (ok: bool)
      modifies this`table
      ensures ok ==> exists i: nat ::
                && i < |old(table)| && old(table)[i].pid == pid && (forall j :: 0 <= j < i ==> old(table)[j].pid != pid)
                && Next(old(Snapshot()), Event.Kill(i), Snapshot())
      ensures !ok ==> Snapshot() == old(Snapshot()) && forall j :: 0 <= j < |table| ==> table[j].pid != pid
      ensures ok ==> exists i: nat ::
                && i < |table| == |old(table)| && table == old(table)[i := table[i]] && old(table)[i].pid == pid
                && table[i] == old(table)[i].(killed := true, state := table[i].state)
                && table[i].state == if old(table)[i].state.Sleeping? then Runnable else old(table)[i].state
    {
      var p := 0;
      while p < |table|
        invariant 0 <= p <= |table|
        invariant forall j :: 0 <= j < p ==> table[j].pid != pid
      {
        if table[p].pid == pid {
          table := table[p := table[p].(killed := true)];
          if table[p].state.Sleeping? {
            table := table[p := table[p].(state := Runnable)];
          }
          return true;
        }
        p := p + 1;
      }
      return false;
    }
  }
}

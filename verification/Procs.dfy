/** The process table (proc.c): fork, exit, wait, kill and the scheduler as steps.

    A step is what one process does while it holds ptable.lock, or one of the stores that
    fork makes without it.  The table may have any size and any number of processes run at
    once.  `forks` says which running process is building which EMBRYO entry; `reaped` lists
    every process id that wait has returned. */
module Procs {
  import opened Options

  datatype ProcState = Unused | Embryo | Sleeping | Runnable | Running | Zombie

  /** wait sleeps on the entry of the process itself; everything else is `Other`. */
  datatype Chan = NoChan | OnProc(p: nat) | Other(id: nat)

  datatype Slot = Slot(state: ProcState, pid: nat, parent: Option<nat>, chan: Chan, killed: bool)

  datatype State = State(table: seq<Slot>, init: nat, nextpid: nat, forks: map<nat, nat>, reaped: seq<nat>)

  predicate Alive(p: Slot) {
    p.state.Sleeping? || p.state.Runnable? || p.state.Running?
  }

  predicate InUse(p: Slot) {
    !p.state.Unused?
  }

  predicate ZombieChild(t: seq<Slot>, p: nat, i: nat) {
    i < |t| && t[i].state.Zombie? && t[i].parent == Some(p)
  }

  // ----- What the critical sections do to one entry -----

  /** wakeup1 */
  function WakeSlot(p: Slot, c: Chan): Slot {
    if p.state.Sleeping? && p.chan == c then p.(state := Runnable) else p
  }

  function ParentChan(p: Slot): Chan {
    if p.parent.Some? then OnProc(p.parent.value) else NoChan
  }

  /** exit of `me` after its wakeup of the parent and `n` rounds of its loop over the table. */
  function Disowned(t: seq<Slot>, init: nat, me: nat, n: nat, i: nat): Slot
    requires me < |t| && i < |t| && n <= |t|
  {
    var p := WakeSlot(t[i], ParentChan(t[me]));
    var p := if exists z :: 0 <= z < n && ZombieChild(t, me, z) then WakeSlot(p, OnProc(init)) else p;
    if i < n && p.parent == Some(me) then p.(parent := Some(init)) else p
  }

  /** exit of `me`, up to its call of sched. */
  function ExitSlot(t: seq<Slot>, init: nat, me: nat, i: nat): Slot
    requires me < |t| && i < |t|
  {
    var p := Disowned(t, init, me, |t|, i);
    if i == me then p.(state := Zombie) else p
  }

  /** wait's reset of a reaped entry. */
  function Reaped(p: Slot): Slot {
    Slot(Unused, 0, None, p.chan, false)
  }

  function KillSlot(p: Slot): Slot {
    p.(killed := true, state := if p.state.Sleeping? then Runnable else p.state)
  }

  // ----- Steps -----

  datatype Event =
    | Alloc(me: nat, np: nat)
    | ForkFails(me: nat)
    | Link(me: nat)
    | Start(me: nat)
    | Exit(me: nat)
    | Reap(me: nat, z: nat)
    | WaitSleeps(me: nat)
    | Kill(i: nat)
    | Dispatch(i: nat)
    | Yield(me: nat)
    | SleepOther(me: nat, id: nat)
    | WakeOther(id: nat)

  predicate Runs(s: State, me: nat) {
    me < |s.table| && s.table[me].state.Running?
  }

  predicate Forking(s: State, me: nat) {
    Runs(s, me) && me in s.forks && s.forks[me] < |s.table|
  }

  predicate Enabled(s: State, e: Event) {
    match e {
      case Alloc(me, np) => Runs(s, me) && me !in s.forks && np < |s.table| && s.table[np].state.Unused?
      case ForkFails(me) => Forking(s, me) && s.table[s.forks[me]].parent == None
      case Link(me) => Forking(s, me)
      case Start(me) => Forking(s, me) && s.table[s.forks[me]].parent == Some(me)
      case Exit(me) => Runs(s, me) && me !in s.forks && me != s.init
      case Reap(me, z) => Runs(s, me) && me !in s.forks && ZombieChild(s.table, me, z)
      case WaitSleeps(me) =>
        Runs(s, me) && me !in s.forks && forall z :: 0 <= z < |s.table| ==> !ZombieChild(s.table, me, z)
      case Kill(i) => i < |s.table|
      case Dispatch(i) => i < |s.table| && s.table[i].state.Runnable?
      case Yield(me) => Runs(s, me)
      case SleepOther(me, id) => Runs(s, me) && me !in s.forks
      case WakeOther(id) => true
    }
  }

  /** Entry `i` after the step. */
  function SlotAfter(s: State, e: Event, i: nat): Slot
    requires Enabled(s, e) && i < |s.table|
  {
    var p := s.table[i];
    match e {
      case Alloc(me, np) => if i == np then p.(state := Embryo, pid := s.nextpid) else p
      case ForkFails(me) => if i == s.forks[me] then p.(state := Unused) else p
      case Link(me) => if i == s.forks[me] then p.(parent := Some(me)) else p
      case Start(me) => if i == s.forks[me] then p.(state := Runnable) else p
      case Exit(me) => ExitSlot(s.table, s.init, me, i)
      case Reap(me, z) => if i == z then Reaped(p) else p
      case WaitSleeps(me) => if i == me then p.(state := Sleeping, chan := OnProc(me)) else p
      case Kill(k) => if i == k then KillSlot(p) else p
      case Dispatch(k) => if i == k then p.(state := Running, chan := NoChan) else p
      case Yield(me) => if i == me then p.(state := Runnable) else p
      case SleepOther(me, id) => if i == me then p.(state := Sleeping, chan := Other(id)) else p
      case WakeOther(id) => WakeSlot(p, Other(id))
    }
  }

  ghost predicate Next(s: State, e: Event, s': State) {
    && Enabled(s, e) && |s'.table| == |s.table| && s'.init == s.init
    && (forall i: nat {:trigger SlotAfter(s, e, i)} :: i < |s.table| ==> s'.table[i] == SlotAfter(s, e, i))
    && s'.nextpid == (if e.Alloc? then s.nextpid + 1 else s.nextpid)
    && s'.forks == (if e.Alloc? then s.forks[e.me := e.np]
                    else if e.ForkFails? || e.Start? then s.forks - {e.me} else s.forks)
    && s'.reaped == (if e.Reap? then s.reaped + [s.table[e.z].pid] else s.reaped)
  }

  // ----- Invariant -----

  ghost predicate InitAlive(s: State) {
    s.init < |s.table| && Alive(s.table[s.init]) && s.table[s.init].parent == None
  }

  /** A recorded parent is neither UNUSED nor ZOMBIE, nor still an EMBRYO; everyone but init
      has a parent once it can run. */
  ghost predicate ParentsAlive(s: State) {
    forall i: nat {:trigger ParentOk(s, i)} :: i < |s.table| ==> ParentOk(s, i)
  }

  ghost predicate ParentOk(s: State, i: nat)
    requires i < |s.table|
  {
    var p := s.table[i];
    && (p.parent.Some? ==>
          InUse(p) && p.parent.value < |s.table| && p.parent.value != i && Alive(s.table[p.parent.value]))
    && (Alive(p) || p.state.Zombie? ==> i == s.init || p.parent.Some?)
  }

  /** Process ids of entries in use are distinct, and no id is reaped twice or used again. */
  ghost predicate PidsUnique(s: State) {
    && 0 < s.nextpid
    && (forall i: nat, j: nat {:trigger PidsDiffer(s, i, j)} :: i < j < |s.table| ==> PidsDiffer(s, i, j))
    && (forall i: nat {:trigger PidOk(s, i)} :: i < |s.table| ==> PidOk(s, i))
    && (forall k :: 0 <= k < |s.reaped| ==> s.reaped[k] < s.nextpid)
    && (forall k, l :: 0 <= k < l < |s.reaped| ==> s.reaped[k] != s.reaped[l])
  }

  ghost predicate PidsDiffer(s: State, i: nat, j: nat)
    requires i < |s.table| && j < |s.table|
  {
    InUse(s.table[i]) && InUse(s.table[j]) ==> s.table[i].pid != s.table[j].pid
  }

  ghost predicate PidOk(s: State, i: nat)
    requires i < |s.table|
  {
    InUse(s.table[i]) ==> 0 < s.table[i].pid < s.nextpid && s.table[i].pid !in s.reaped
  }

  /** Process `m` is building entry `i`. */
  ghost predicate Builds(s: State, m: nat, i: nat) {
    && m < |s.table| && (s.table[m].state.Running? || s.table[m].state.Runnable?)
    && i < |s.table| && s.table[i].state.Embryo? && (s.table[i].parent.None? || s.table[i].parent == Some(m))
  }

  ghost predicate BuiltBySome(s: State, i: nat)
    requires i < |s.table|
  {
    s.table[i].state.Embryo? ==> exists m :: m in s.forks && s.forks[m] == i
  }

  /** The ids in use among the first `n` entries: never more than there are entries. */
  ghost function PidsInUse(t: seq<Slot>, n: nat): (r: set<nat>)
    requires n <= |t|
    ensures |r| <= n
    ensures forall i :: 0 <= i < n && InUse(t[i]) ==> t[i].pid in r
  {
    if n == 0 then {} else PidsInUse(t, n - 1) + if InUse(t[n - 1]) then {t[n - 1].pid} else {}
  }

  /** EMBRYO entries are exactly those being built, each by one process. */
  ghost predicate ForksOk(s: State) {
    && (forall m: nat {:trigger s.forks[m]} :: m in s.forks ==> Builds(s, m, s.forks[m]))
    && (forall m, n :: m in s.forks && n in s.forks && m != n ==> s.forks[m] != s.forks[n])
    && (forall i: nat {:trigger BuiltBySome(s, i)} :: i < |s.table| ==> BuiltBySome(s, i))
  }

  /** Process `i` sleeps in wait. */
  predicate InWait(t: seq<Slot>, i: nat) {
    i < |t| && t[i].state.Sleeping? && t[i].chan.OnProc?
  }

  /** Nobody sleeps in wait beside a zombie child. */
  ghost predicate WaitersServed(s: State) {
    && (forall i: nat {:trigger InWait(s.table, i)} :: InWait(s.table, i) ==> s.table[i].chan.p == i)
    && (forall i: nat, z: nat {:trigger InWait(s.table, i), ZombieChild(s.table, i, z)} ::
          InWait(s.table, i) ==> !ZombieChild(s.table, i, z))
  }

  ghost predicate Inv(s: State) {
    InitAlive(s) && ParentsAlive(s) && PidsUnique(s) && ForksOk(s) && WaitersServed(s)
  }

  lemma InitKept(s: State, e: Event, s': State)
    requires InitAlive(s) && Next(s, e, s') && ForksOk(s)
    ensures InitAlive(s')
  {
    assert s'.table[s.init] == SlotAfter(s, e, s.init);
    if e.Link? {
      assert Builds(s, e.me, s.forks[e.me]);
    }
  }

  /** Whoever was alive stays so, but for the process that exits. */
  lemma AliveKept(s: State, e: Event, s': State, i: nat)
    requires Next(s, e, s') && ForksOk(s) && i < |s.table| && Alive(s.table[i])
    ensures Alive(s'.table[i]) || (e.Exit? && e.me == i)
  {
    assert s'.table[i] == SlotAfter(s, e, i);
    if e.ForkFails? {
      assert Builds(s, e.me, s.forks[e.me]);
    }
  }

  lemma ParentKept(s: State, e: Event, s': State, i: nat)
    requires InitAlive(s) && ForksOk(s) && Next(s, e, s') && i < |s.table| && ParentOk(s, i)
    ensures ParentOk(s', i)
  {
    assert s'.table[i] == SlotAfter(s, e, i);
    AliveKept(s, e, s', s.init);
    if s.table[i].parent.Some? {
      AliveKept(s, e, s', s.table[i].parent.value);
    }
    if e.Link? {
      AliveKept(s, e, s', e.me);
    }
    if e.Start? || e.ForkFails? || e.Link? {
      assert Builds(s, e.me, s.forks[e.me]);
    }
  }

  lemma PidKept(s: State, e: Event, s': State, i: nat)
    requires Next(s, e, s') && ForksOk(s) && i < |s.table| && InUse(s'.table[i])
    ensures if e.Alloc? && i == e.np then s'.table[i].pid == s.nextpid
            else s'.table[i].pid == s.table[i].pid && InUse(s.table[i])
    ensures e.Reap? ==> i != e.z
  {
    assert s'.table[i] == SlotAfter(s, e, i);
    if e.Start? {
      assert Builds(s, e.me, s.forks[e.me]);
    }
  }

  lemma PidsKept(s: State, e: Event, s': State)
    requires PidsUnique(s) && ForksOk(s) && Next(s, e, s')
    ensures PidsUnique(s')
  {
    forall i: nat | i < |s.table| ensures PidOk(s', i) {
      assert PidOk(s, i);
      if InUse(s'.table[i]) {
        PidKept(s, e, s', i);
        if e.Reap? {
          assert if i < e.z then PidsDiffer(s, i, e.z) else PidsDiffer(s, e.z, i);
        }
      }
    }
    forall i: nat, j: nat | i < j < |s.table| ensures PidsDiffer(s', i, j) {
      assert PidsDiffer(s, i, j) && PidOk(s, i) && PidOk(s, j);
      if InUse(s'.table[i]) && InUse(s'.table[j]) {
        PidKept(s, e, s', i);
        PidKept(s, e, s', j);
      }
    }
    if e.Reap? {
      assert PidOk(s, e.z);
    }
  }

  lemma BuildsKept(s: State, e: Event, s': State, m: nat)
    requires ForksOk(s) && Next(s, e, s') && m in s'.forks && m in s.forks
    ensures s'.forks[m] == s.forks[m] && Builds(s', m, s.forks[m])
  {
    var i := s.forks[m];
    assert Builds(s, m, i);
    assert s'.table[m] == SlotAfter(s, e, m) && s'.table[i] == SlotAfter(s, e, i);
    if e.Start? || e.ForkFails? || e.Link? {
      assert Builds(s, e.me, s.forks[e.me]);
    }
  }

  lemma ForksKept(s: State, e: Event, s': State)
    requires ForksOk(s) && ParentsAlive(s) && Next(s, e, s')
    ensures ForksOk(s')
  {
    forall m: nat | m in s'.forks ensures Builds(s', m, s'.forks[m]) {
      if m in s.forks {
        BuildsKept(s, e, s', m);
      } else {
        assert s'.table[m] == SlotAfter(s, e, m) && s'.table[s'.forks[m]] == SlotAfter(s, e, s'.forks[m]);
        assert ParentOk(s, s'.forks[m]);
      }
    }
    forall i: nat | i < |s.table| ensures BuiltBySome(s', i) {
      if s'.table[i].state.Embryo? {
        assert s'.table[i] == SlotAfter(s, e, i) && BuiltBySome(s, i);
        if e.Alloc? && i == e.np {
          assert s'.forks[e.me] == i;
        } else {
          var m :| m in s.forks && s.forks[m] == i;
          assert s'.forks[m] == i;
        }
      }
    }
  }

  lemma WaiterKept(s: State, e: Event, s': State, i: nat, z: nat)
    requires ForksOk(s) && ParentsAlive(s) && WaitersServed(s) && Next(s, e, s') && InWait(s'.table, i)
    ensures s'.table[i].chan.p == i && !ZombieChild(s'.table, i, z)
  {
    assert s'.table[i] == SlotAfter(s, e, i);
    assert InWait(s.table, i) || e.WaitSleeps?;
    if z < |s.table| {
      assert s'.table[z] == SlotAfter(s, e, z);
      assert ParentOk(s, z);
      assert !(InWait(s.table, i) && ZombieChild(s.table, i, z));
      assert e.WaitSleeps? && i == e.me ==> !ZombieChild(s.table, i, z);
      assert e.Exit? && s.table[z].parent == Some(e.me) && s.table[z].state.Zombie? ==> ZombieChild(s.table, e.me, z);
    }
  }

  lemma InvKept(s: State, e: Event, s': State)
    requires Inv(s) && Next(s, e, s')
    ensures Inv(s')
  {
    InitKept(s, e, s');
    forall i: nat | i < |s.table| ensures ParentOk(s', i) {
      assert ParentOk(s, i);
      ParentKept(s, e, s', i);
    }
    PidsKept(s, e, s');
    ForksKept(s, e, s');
    forall i: nat, z: nat | InWait(s'.table, i) ensures !ZombieChild(s'.table, i, z) {
      WaiterKept(s, e, s', i, z);
    }
    forall i: nat | InWait(s'.table, i) ensures s'.table[i].chan.p == i {
      WaiterKept(s, e, s', i, 0);
    }
  }

  // ----- Runs -----

  /** After userinit. */
  ghost predicate Boot(s: State) {
    && s.init < |s.table| && s.table[s.init].state.Runnable? && 0 < s.table[s.init].pid < s.nextpid
    && s.forks == map[] && s.reaped == []
    && forall i :: 0 <= i < |s.table| ==>
         s.table[i].parent == None && !s.table[i].killed && (i != s.init ==> s.table[i].state.Unused?)
  }

  ghost predicate IsRun(ss: seq<State>, es: seq<Event>) {
    |ss| == |es| + 1 && Boot(ss[0]) && forall k: nat {:trigger StepAt(ss, es, k)} :: k < |es| ==> StepAt(ss, es, k)
  }

  ghost predicate StepAt(ss: seq<State>, es: seq<Event>, k: nat)
    requires |ss| == |es| + 1 && k < |es|
  {
    Next(ss[k], es[k], ss[k + 1])
  }

  lemma {:induction false} InvAlways(ss: seq<State>, es: seq<Event>, k: nat)
    requires IsRun(ss, es) && k < |ss|
    ensures Inv(ss[k])
  {
    if k > 0 {
      InvAlways(ss, es, k - 1);
      assert StepAt(ss, es, k - 1);
      InvKept(ss[k - 1], es[k - 1], ss[k]);
    }
  }

  /** In every reachable state a recorded parent is neither UNUSED nor ZOMBIE, a process that
      can run or has exited has a parent to reap it unless it is init, and no process sleeps
      in wait while it has a zombie child. */
  lemma ProcessTreeSafe(ss: seq<State>, es: seq<Event>, k: nat, i: nat)
    requires IsRun(ss, es) && k < |ss| && i < |ss[k].table|
    ensures var t := ss[k].table;
            && (t[i].parent.Some? ==>
                  var p := t[i].parent.value; p < |t| && !t[p].state.Unused? && !t[p].state.Zombie?)
            && (t[i].state.Zombie? ==> t[i].parent.Some? && !InWait(t, t[i].parent.value))
  {
    InvAlways(ss, es, k);
    assert ParentOk(ss[k], i);
    if ss[k].table[i].state.Zombie? && ss[k].table[i].parent.Some? {
      assert ZombieChild(ss[k].table, ss[k].table[i].parent.value, i);
    }
  }

  // ----- Entry by entry -----

  /** Who may be woken by the step: the process that is killed, sleepers on a channel that is woken, the
      parent of a process that exits, and init when it gets a zombie. */
  ghost predicate WokenBy(s: State, e: Event, i: nat)
    requires Enabled(s, e) && i < |s.table|
  {
    var c := s.table[i].chan;
    match e
    case Kill(k) => k == i
    case WakeOther(id) => c == Other(id)
    case Exit(me) =>
      || (s.table[me].parent.Some? && c == OnProc(s.table[me].parent.value)) || (s.table[me].parent.None? && c.NoChan?)
      || (c == OnProc(s.init) && exists z: nat :: ZombieChild(s.table, me, z))
    case _ => false
  }

  /** A step does to each entry no more than it is for. */
  lemma EntryKept(s: State, e: Event, s': State, i: nat)
    requires ForksOk(s) && Next(s, e, s') && i < |s.table|
    ensures var p, p' := s.table[i], s'.table[i];
            && (p'.killed <==> (p.killed || e == Kill(i)) && !(e.Reap? && e.z == i))
            && (p'.pid == p.pid || (e.Alloc? && e.np == i && p'.pid == s.nextpid)
                || (e.Reap? && e.z == i && p'.pid == 0))
            && (p'.parent == p.parent || (e.Link? && s.forks[e.me] == i && p'.parent == Some(e.me))
                || (e.Exit? && p.parent == Some(e.me) && p'.parent == Some(s.init))
                || (e.Reap? && e.z == i && p'.parent == None))
            && (p.state.Sleeping? && !(e.Exit? && e.me == i) ==>
                  p'.state == if WokenBy(s, e, i) then Runnable else p.state)
  {
    assert s'.table[i] == SlotAfter(s, e, i);
    if e.Start? || e.ForkFails? {
      assert Builds(s, e.me, s.forks[e.me]);
    }
  }

  /** The ways in which an entry goes from one state to another. */
  predicate Arrow(p: Slot, e: Event, i: nat, q: Slot) {
    || (p.state.Unused? && q.state.Embryo? && e.Alloc? && e.np == i)
    || (p.state.Embryo? && q.state.Unused? && e.ForkFails?)
    || (p.state.Embryo? && q.state.Runnable? && e.Start?)
    || (p.state.Runnable? && q.state.Running? && e == Dispatch(i))
    || (p.state.Running? && q.state.Runnable? && e == Yield(i))
    || (p.state.Running? && q.state.Sleeping? && (e == WaitSleeps(i) || (e.SleepOther? && e.me == i)))
    || (p.state.Running? && q.state.Zombie? && e == Exit(i))
    || (p.state.Sleeping? && q.state.Runnable? && (e == Kill(i) || e.WakeOther? || e.Exit?))
    || (p.state.Zombie? && q.state.Unused? && e.Reap? && e.z == i)
  }

  /** There are no others, and the step of a process always takes it along its own. */
  lemma StateDiagram(s: State, e: Event, s': State, i: nat)
    requires ForksOk(s) && Next(s, e, s') && i < |s.table|
    ensures s'.table[i].state == s.table[i].state || Arrow(s.table[i], e, i, s'.table[i])
    ensures (e.Alloc? && e.np == i) || (e.Reap? && e.z == i) || e == Dispatch(i) || e == Yield(i) || e == Exit(i) ||
            e == WaitSleeps(i) || (e.SleepOther? && e.me == i) ||
            ((e.Start? || e.ForkFails?) && s.forks[e.me] == i) ==>
              s'.table[i].state != s.table[i].state
    ensures s'.table[i].chan ==
              if e == WaitSleeps(i) then OnProc(i) else if e.SleepOther? && e.me == i then Other(e.id)
              else if e == Dispatch(i) then NoChan else s.table[i].chan
  {
    assert s'.table[i] == SlotAfter(s, e, i);
    if e.Start? || e.ForkFails? {
      assert Builds(s, e.me, s.forks[e.me]);
    }
  }

  /** exit: the process is a zombie, its children are init's, sleepers are woken exactly if they wait for
      this process, or for a zombie that is now init's, and nothing else changes. */
  lemma ExitMeans(s: State, me: nat, s': State, i: nat)
    requires ForksOk(s) && Next(s, Exit(me), s') && i < |s.table|
    ensures var p, p' := s.table[i], s'.table[i];
            && p'.parent == (if p.parent == Some(me) then Some(s.init) else p.parent)
            && p'.state == (if i == me then Zombie
                            else if p.state.Sleeping? && WokenBy(s, Exit(me), i) then Runnable else p.state)
            && p' == p.(parent := p'.parent, state := p'.state)
  {
    assert s'.table[i] == SlotAfter(s, Exit(me), i);
  }

  /** A process is killed exactly if kill has been called for its entry since that was last reaped. */
  lemma {:induction false} KilledIff(ss: seq<State>, es: seq<Event>, k: nat, i: nat)
    requires IsRun(ss, es) && k < |ss| && i < |ss[k].table|
    ensures ss[k].table[i].killed <==>
            exists j :: 0 <= j < k && es[j] == Kill(i) && forall m :: j < m < k ==> !(es[m].Reap? && es[m].z == i)
  {
    if k > 0 {
      InvAlways(ss, es, k - 1);
      assert StepAt(ss, es, k - 1);
      KilledIff(ss, es, k - 1, i);
      EntryKept(ss[k - 1], es[k - 1], ss[k], i);
    }
  }

  /** The step `e` is wait returning `pid` to process `me`. */
  predicate Reaps(s: State, e: Event, me: nat, pid: nat) {
    e.Reap? && e.me == me && e.z < |s.table| && s.table[e.z].pid == pid
  }

  /** Every process id is reaped at most once in a run, and by the parent of the zombie. */
  lemma ReapedOnce(ss: seq<State>, es: seq<Event>, k: nat, l: nat, me: nat, me': nat, pid: nat)
    requires IsRun(ss, es) && k <= l < |es| && Reaps(ss[k], es[k], me, pid) && Reaps(ss[l], es[l], me', pid)
    ensures k == l && ZombieChild(ss[k].table, me, es[k].z)
  {
    InvAlways(ss, es, l);
    assert StepAt(ss, es, k) && StepAt(ss, es, l);
    assert PidOk(ss[l], es[l].z);
    if k < l {
      StaysReaped(ss, es, k, l, me, pid);
    }
  }

  lemma {:induction false} StaysReaped(ss: seq<State>, es: seq<Event>, k: nat, l: nat, me: nat, pid: nat)
    requires IsRun(ss, es) && k < l < |es| && Reaps(ss[k], es[k], me, pid)
    ensures pid in ss[l].reaped
  {
    assert StepAt(ss, es, l - 1);
    if k < l - 1 {
      StaysReaped(ss, es, k, l - 1, me, pid);
    } else {
      assert ss[l].reaped[|ss[k].reaped|] == pid;
    }
  }
}

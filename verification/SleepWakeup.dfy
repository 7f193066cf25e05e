/** sleep and wakeup (proc.c) over spin locks (spinlock.c), for any number of processes,
    channels and condition locks.

    Each step is one action of one process, or of a scheduler: taking or releasing a lock,
    looking at one entry of the process table.  A condition belongs to a channel, and the
    lock that guards it is fixed.  Only a holder of that lock changes the condition, and a
    process that makes it true owes a wakeup on the channel.  Callers of sleep check the
    condition again when sleep returns. */
module SleepWakeup {
  import opened Options

  /** Where a process is.  `held` is its condition lock, `owes` the channels it has still
      to wake; from Spinning to Retaking it is inside sleep(c, l). */
  datatype Pc =
    | Normal(held: Option<nat>, owes: set<nat>)
    | Spinning(l: nat, c: nat)
    | HasBoth(l: nat, c: nat)
    | HasTable(l: nat, c: nat)
    | Switched(l: nat, c: nat)
    | Resumed(l: nat, c: nat)
    | Retaking(l: nat, c: nat)
    | Waking(held: Option<nat>, owes: set<nat>, c: nat, k: nat)
    | Killing(held: Option<nat>, owes: set<nat>)

  /** `asleep` is state == SLEEPING. */
  datatype Proc = Proc(pc: Pc, asleep: bool, chan: nat)

  datatype Holder = Free | By(i: nat) | Scheduler

  /** `guard[c]` is the lock of channel `c`'s condition, `table` the holder of ptable.lock. */
  datatype State = State(procs: seq<Proc>, cond: seq<bool>, guard: seq<nat>, locks: seq<Holder>, table: Holder)

  /** One action of one process. */
  datatype Action =
    | Acquire(l: nat)
    | Release
    | SetCond(c: nat, b: bool)
    | Sleep(c: nat)
    | TakeTable
    | DropLock
    | Switch
    | Dispatch
    | LeaveSched
    | Retake
    | StartWakeup(c: nat)
    | WakeOne
    | EndWakeup
    | StartKill
    | KillOne(j: nat)
    | EndKill

  datatype Step = Turn(i: nat, a: Action) | SchedulerIn | SchedulerOut

  predicate WellTyped(s: State) {
    && |s.cond| == |s.guard| && (forall c :: 0 <= c < |s.guard| ==> s.guard[c] < |s.locks|)
  }

  predicate IsAt(s: State, i: nat, l: nat) {
    i < |s.procs| && l < |s.locks|
  }

  /** Can the process `p` do this now? */
  predicate Ready(s: State, p: Proc, a: Action)
    requires WellTyped(s)
  {
    var pc := p.pc;
    match a {
      case Acquire(l) => pc.Normal? && pc.held.None? && l < |s.locks| && s.locks[l].Free?
      case Release => pc.Normal? && pc.held.Some? && pc.held.value < |s.locks|
      case SetCond(c, b) => pc.Normal? && c < |s.cond| && pc.held == Some(s.guard[c])
      case Sleep(c) => pc.Normal? && c < |s.cond| && pc.held == Some(s.guard[c]) && pc.owes == {} && !s.cond[c]
      case TakeTable => pc.Spinning? && s.table.Free?
      case DropLock => pc.HasBoth? && pc.l < |s.locks|
      case Switch => pc.HasTable?
      case Dispatch => s.table.Scheduler? && pc.Switched? && !p.asleep
      case LeaveSched => pc.Resumed?
      case Retake => pc.Retaking? && pc.l < |s.locks| && s.locks[pc.l].Free?
      case StartWakeup(c) => pc.Normal? && s.table.Free?
      case WakeOne => pc.Waking? && pc.k < |s.procs|
      case EndWakeup => pc.Waking? && pc.k == |s.procs|
      case StartKill => pc.Normal? && s.table.Free?
      case KillOne(j) => pc.Killing? && j < |s.procs|
      case EndKill => pc.Killing?
    }
  }

  predicate Enabled(s: State, t: Step)
    requires WellTyped(s)
  {
    match t {
      case Turn(i, a) => i < |s.procs| && Ready(s, s.procs[i], a)
      case SchedulerIn => s.table.Free?
      case SchedulerOut => s.table.Scheduler?
    }
  }

  function At(s: State, i: nat, pc: Pc): State
    requires i < |s.procs|
  {
    s.(procs := s.procs[i := s.procs[i].(pc := pc)])
  }

  /** Wake process `j` if it sleeps and `c` is its channel or is not given. */
  function Woken(s: State, j: nat, c: Option<nat>): State
    requires j < |s.procs|
  {
    if c.None? || s.procs[j].chan == c.value then s.(procs := s.procs[j := s.procs[j].(asleep := false)]) else s
  }

  function Act(s: State, i: nat, a: Action): State
    requires WellTyped(s) && i < |s.procs| && Ready(s, s.procs[i], a)
  {
    var pc := s.procs[i].pc;
    match a {
      case Acquire(l) => At(s.(locks := s.locks[l := By(i)]), i, Normal(Some(l), pc.owes))
      case Release => At(s.(locks := s.locks[pc.held.value := Free]), i, Normal(None, pc.owes))
      case SetCond(c, b) =>
        var owes := if b && !s.cond[c] then pc.owes + {c} else pc.owes;
        At(s.(cond := s.cond[c := b]), i, Normal(pc.held, owes))
      case Sleep(c) => At(s, i, Spinning(pc.held.value, c))
      case TakeTable => At(s.(table := By(i)), i, HasBoth(pc.l, pc.c))
      case DropLock => At(s.(locks := s.locks[pc.l := Free]), i, HasTable(pc.l, pc.c))
      case Switch => s.(table := Scheduler, procs := s.procs[i := Proc(Switched(pc.l, pc.c), true, pc.c)])
      case Dispatch => At(s.(table := By(i)), i, Resumed(pc.l, pc.c))
      case LeaveSched => At(s.(table := Free), i, Retaking(pc.l, pc.c))
      case Retake => At(s.(locks := s.locks[pc.l := By(i)]), i, Normal(Some(pc.l), {}))
      case StartWakeup(c) => At(s.(table := By(i)), i, Waking(pc.held, pc.owes, c, 0))
      case WakeOne => At(Woken(s, pc.k, Some(pc.c)), i, Waking(pc.held, pc.owes, pc.c, pc.k + 1))
      case EndWakeup => At(s.(table := Free), i, Normal(pc.held, pc.owes - {pc.c}))
      case StartKill => At(s.(table := By(i)), i, Killing(pc.held, pc.owes))
      case KillOne(j) => Woken(s, j, None)
      case EndKill => At(s.(table := Free), i, Normal(pc.held, pc.owes))
    }
  }

  function Do(s: State, t: Step): State
    requires WellTyped(s) && Enabled(s, t)
  {
    match t {
      case Turn(i, a) => Act(s, i, a)
      case SchedulerIn => s.(table := Scheduler)
      case SchedulerOut => s.(table := Free)
    }
  }

  // ----- Invariant -----

  predicate HoldsLock(pc: Pc, l: nat) {
    match pc {
      case Normal(h, _) => h == Some(l)
      case Waking(h, _, _, _) => h == Some(l)
      case Killing(h, _) => h == Some(l)
      case Spinning(m, _) => m == l
      case HasBoth(m, _) => m == l
      case _ => false
    }
  }

  predicate HoldsTable(pc: Pc) {
    pc.HasBoth? || pc.HasTable? || pc.Resumed? || pc.Waking? || pc.Killing?
  }

  /** Will process `j` still wake process `i` if it sleeps on `c`? */
  predicate WillWake(pc: Pc, i: nat, c: nat) {
    match pc {
      case Normal(_, owes) => c in owes
      case Killing(_, owes) => c in owes
      case Waking(_, owes, d, k) => if c == d then k <= i else c in owes
      case _ => false
    }
  }

  ghost predicate Pending(s: State, i: nat, c: nat) {
    exists j :: 0 <= j < |s.procs| && WillWake(s.procs[j].pc, i, c)
  }

  /** The locks record who is inside them. */
  ghost predicate Exclusive(s: State) {
    && (forall i: nat, l: nat {:trigger IsAt(s, i, l)} ::
          IsAt(s, i, l) ==> (s.locks[l] == By(i) <==> HoldsLock(s.procs[i].pc, l)))
    && (forall i: nat :: i < |s.procs| ==> (s.table == By(i) <==> HoldsTable(s.procs[i].pc)))
  }

  /** What process `i` relies on. */
  ghost predicate Settled(s: State, i: nat)
    requires WellTyped(s) && i < |s.procs|
  {
    var p := s.procs[i];
    && (p.asleep ==> p.pc.Switched? && p.chan == p.pc.c)
    && (p.pc.Spinning? || p.pc.HasBoth? ==> p.pc.c < |s.cond| && s.guard[p.pc.c] == p.pc.l && !s.cond[p.pc.c])
    && (p.pc.HasTable? ==> p.pc.c < |s.cond| && s.guard[p.pc.c] == p.pc.l && (s.cond[p.pc.c] ==> Pending(s, i, p.pc.c)))
    && (p.asleep ==> p.chan < |s.cond| && (s.cond[p.chan] ==> Pending(s, i, p.chan)))
  }

  ghost predicate Inv(s: State) {
    && WellTyped(s) && Exclusive(s)
    && forall i: nat {:trigger Settled(s, i)} :: i < |s.procs| ==> Settled(s, i)
  }

  /** Lock `l` records whether process `i` is inside. */
  predicate Recorded(s: State, i: nat, l: nat)
    requires IsAt(s, i, l)
  {
    s.locks[l] == By(i) <==> HoldsLock(s.procs[i].pc, l)
  }

  lemma MoverRecorded(s: State, i: nat, a: Action, l: nat)
    requires WellTyped(s) && IsAt(s, i, l) && Ready(s, s.procs[i], a) && Recorded(s, i, l)
    ensures IsAt(Act(s, i, a), i, l) && Recorded(Act(s, i, a), i, l)
  {
  }

  lemma OtherRecorded(s: State, j: nat, a: Action, i: nat, l: nat)
    requires WellTyped(s) && IsAt(s, i, l) && IsAt(s, j, l) && i != j && Ready(s, s.procs[j], a)
    requires Recorded(s, i, l) && Recorded(s, j, l)
    ensures IsAt(Act(s, j, a), i, l) && Recorded(Act(s, j, a), i, l)
  {
  }

  lemma LockKept(s: State, t: Step, i: nat, l: nat)
    requires WellTyped(s) && Exclusive(s) && Enabled(s, t) && IsAt(s, i, l)
    ensures IsAt(Do(s, t), i, l) && Recorded(Do(s, t), i, l)
  {
    if t.Turn? {
      assert IsAt(s, t.i, l);
      if t.i == i {
        MoverRecorded(s, i, t.a, l);
      } else {
        OtherRecorded(s, t.i, t.a, i, l);
      }
    }
  }

  lemma ExclusiveKept(s: State, t: Step)
    requires WellTyped(s) && Exclusive(s) && Enabled(s, t)
    ensures Exclusive(Do(s, t))
  {
    var s' := Do(s, t);
    forall i: nat, l: nat | IsAt(s', i, l) ensures s'.locks[l] == By(i) <==> HoldsLock(s'.procs[i].pc, l) {
      LockKept(s, t, i, l);
    }
  }

  /** A wakeup stays pending unless the step is its last. */
  lemma PendingKept(s: State, t: Step, i: nat, c: nat)
    requires WellTyped(s) && Enabled(s, t) && Pending(s, i, c) && i < |s.procs|
    ensures Pending(Do(s, t), i, c) || (t.Turn? && t.a.WakeOne? && s.procs[t.i].pc.k == i && s.procs[t.i].pc.c == c)
  {
    var j :| 0 <= j < |s.procs| && WillWake(s.procs[j].pc, i, c);
    var s' := Do(s, t);
    assert WillWake(s'.procs[j].pc, i, c) ||
           (t.Turn? && t.a.WakeOne? && s.procs[t.i].pc.k == i && s.procs[t.i].pc.c == c);
  }

  /** A sleeper is woken by kill, or by a wakeup on its own channel that has come to its entry, and by
      nothing else. */
  lemma WokenIff(s: State, t: Step, i: nat)
    requires Inv(s) && Enabled(s, t) && i < |s.procs| && s.procs[i].asleep
    ensures i < |Do(s, t).procs|
    ensures !Do(s, t).procs[i].asleep <==>
            t.Turn? && (t.a == KillOne(i) ||
                        (t.a.WakeOne? && s.procs[t.i].pc.k == i && s.procs[t.i].pc.c == s.procs[i].chan))
  {
    assert Settled(s, i);
  }

  /** The process that moves. */
  lemma OwnSettled(s: State, i: nat, a: Action)
    requires Inv(s) && i < |s.procs| && Ready(s, s.procs[i], a)
    ensures Settled(Act(s, i, a), i)
  {
    var s', p := Act(s, i, a), s.procs[i];
    assert Settled(s, i);
    if p.pc.HasTable? && Pending(s, i, p.pc.c) {
      PendingKept(s, Turn(i, a), i, p.pc.c);
    }
  }

  /** Another process: at most woken. */
  lemma OtherUnmoved(s: State, t: Step, i: nat)
    requires WellTyped(s) && Enabled(s, t) && i < |s.procs| && (t.Turn? ==> t.i != i)
    ensures var s' := Do(s, t);
            && s'.guard == s.guard && |s'.procs| == |s.procs| && |s'.cond| == |s.cond|
            && s'.procs[i].pc == s.procs[i].pc && s'.procs[i].chan == s.procs[i].chan
            && (s'.procs[i].asleep ==>
                  && s.procs[i].asleep
                  && !(t.Turn? && t.a.WakeOne? && s.procs[t.i].pc.k == i && s.procs[t.i].pc.c == s.procs[i].chan))
  {
  }

  /** Only a holder of its lock makes a condition true, and then owes the wakeup. */
  lemma CondSettled(s: State, t: Step, i: nat, c: nat)
    requires Inv(s) && Enabled(s, t) && i < |s.procs| && c < |s.cond| && (t.Turn? ==> t.i != i)
    ensures Do(s, t).cond[c] && !s.cond[c] ==> Pending(Do(s, t), i, c) && !HoldsLock(s.procs[i].pc, s.guard[c])
  {
    var s' := Do(s, t);
    if s'.cond[c] && !s.cond[c] {
      assert IsAt(s, i, s.guard[c]) && IsAt(s, t.i, s.guard[c]);
      assert WillWake(s'.procs[t.i].pc, i, c);
    }
  }

  lemma OtherSettled(s: State, t: Step, i: nat)
    requires Inv(s) && Enabled(s, t) && i < |s.procs| && (t.Turn? ==> t.i != i)
    ensures Settled(Do(s, t), i)
  {
    var p := s.procs[i];
    assert Settled(s, i);
    OtherUnmoved(s, t, i);
    if p.asleep || p.pc.HasTable? || p.pc.HasBoth? || p.pc.Spinning? {
      var c := if p.asleep then p.chan else p.pc.c;
      CondSettled(s, t, i, c);
      if Pending(s, i, c) {
        PendingKept(s, t, i, c);
        assert t.Turn? && t.a.WakeOne? ==> HoldsTable(s.procs[t.i].pc);
      }
    }
  }

  lemma InvKept(s: State, t: Step)
    requires Inv(s) && Enabled(s, t)
    ensures Inv(Do(s, t))
  {
    ExclusiveKept(s, t);
    forall i: nat | i < |s.procs| ensures Settled(Do(s, t), i) {
      if t.Turn? && t.i == i {
        OwnSettled(s, i, t.a);
      } else {
        OtherSettled(s, t, i);
      }
    }
  }

  // ----- Runs -----

  predicate IsRun(s: State, ts: seq<Step>)
    decreases ts
  {
    ts == [] || (WellTyped(s) && Enabled(s, ts[0]) && IsRun(Do(s, ts[0]), ts[1..]))
  }

  function After(s: State, ts: seq<Step>): State
    requires IsRun(s, ts)
    decreases ts
  {
    if ts == [] then s else After(Do(s, ts[0]), ts[1..])
  }

  /** Every process outside, nothing locked, nothing owed. */
  predicate Initial(s: State) {
    && WellTyped(s) && s.table == Free
    && (forall l :: 0 <= l < |s.locks| ==> s.locks[l] == Free)
    && (forall i :: 0 <= i < |s.procs| ==> s.procs[i].pc == Normal(None, {}) && !s.procs[i].asleep)
  }

  lemma {:induction false} InvAlways(s: State, ts: seq<Step>)
    requires Inv(s) && IsRun(s, ts)
    ensures Inv(After(s, ts))
    decreases ts
  {
    if ts != [] {
      InvKept(s, ts[0]);
      InvAlways(Do(s, ts[0]), ts[1..]);
    }
  }

  /** No wakeup is lost: in every reachable state, for a process that sleeps on a channel
      whose condition is true some process still owes that channel a wakeup, or is waking it
      and has not passed the sleeper yet. */
  lemma NoLostWakeup(s: State, ts: seq<Step>, i: nat)
    requires Initial(s) && IsRun(s, ts)
    requires i < |After(s, ts).procs| && After(s, ts).procs[i].asleep
    ensures var r := After(s, ts); var c := r.procs[i].chan;
            c < |r.cond| && (r.cond[c] ==> Pending(r, i, c))
  {
    InvAlways(s, ts);
    assert Settled(After(s, ts), i);
  }

  /** At most one process is inside a condition lock or ptable.lock. */
  lemma MutualExclusion(s: State, ts: seq<Step>, i: nat, j: nat, l: nat)
    requires Initial(s) && IsRun(s, ts)
    requires i < |After(s, ts).procs| && j < |After(s, ts).procs| && l < |After(s, ts).locks|
    ensures var ps := After(s, ts).procs;
            && (HoldsLock(ps[i].pc, l) && HoldsLock(ps[j].pc, l) ==> i == j)
            && (HoldsTable(ps[i].pc) && HoldsTable(ps[j].pc) ==> i == j)
  {
    InvAlways(s, ts);
    assert IsAt(After(s, ts), i, l) && IsAt(After(s, ts), j, l);
  }

  /** Process `pc` owes nothing and is not waking anyone. */
  predicate Quiet(pc: Pc) {
    !pc.Waking? && (pc.Normal? || pc.Killing? ==> pc.owes == {})
  }

  /** When nobody owes a wakeup or is in the middle of one, all sleepers wait for something
      that is still false. */
  lemma QuietSleepersWait(s: State, ts: seq<Step>, i: nat)
    requires Initial(s) && IsRun(s, ts)
    requires forall j :: 0 <= j < |After(s, ts).procs| ==> Quiet(After(s, ts).procs[j].pc)
    requires i < |After(s, ts).procs| && After(s, ts).procs[i].asleep
    ensures var r := After(s, ts); r.procs[i].chan < |r.cond| && !r.cond[r.procs[i].chan]
  {
    NoLostWakeup(s, ts, i);
  }
}

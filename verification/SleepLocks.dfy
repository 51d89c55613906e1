/** Sleep locks over spin locks, sleep and wakeup (sleeplock.c, proc.c), as steps
    that any number of processes interleave. Each acquire and release of a spin lock
    is a step of its own; one that would have to spin is not enabled. */
module SleepLocks {
  import opened Options

  /** Where a process is in acquiresleep or releasesleep, with the spin locks it has. */
  datatype Pc =
    | Outside
    | Wants          // acquiresleep, at acquire(lk->lk)
    | Tests          // has lk->lk, at while(lk->locked)
    | ToSleep        // has lk->lk, in sleep at acquire(ptable.lock)
    | Handing        // has both, at release(lk->lk)
    | Marking        // has ptable.lock, at p->state = SLEEPING
    | Asleep         // SLEEPING on lk
    | Took           // has lk->lk, locked is set
    | Holds          // acquiresleep has returned
    | Frees          // releasesleep, at acquire(lk->lk)
    | Clears         // has lk->lk, at lk->locked = 0
    | ToWake         // has lk->lk, in wakeup at acquire(ptable.lock)
    | Wakes          // has both, at wakeup1(lk)
    | Leaves         // has lk->lk, at release(lk->lk)

  predicate HasSpin(pc: Pc) {
    pc.Tests? || pc.ToSleep? || pc.Handing? || pc.Took? || pc.Clears? || pc.ToWake? || pc.Wakes? || pc.Leaves?
  }

  predicate HasTable(pc: Pc) { pc.Handing? || pc.Marking? || pc.Wakes? }

  /** From setting lk->locked to clearing it. */
  predicate HasSleepLock(pc: Pc) { pc.Took? || pc.Holds? || pc.Frees? || pc.Clears? }

  datatype State = State(locked: bool, pid: Option<nat>, spin: Option<nat>, table: Option<nat>, procs: seq<Pc>)

  /** Advance takes a process one step on; Kill makes a sleeping one runnable. */
  datatype Action = Advance(p: nat) | Kill(p: nat)

  function Init(n: nat): State { State(false, None, None, None, seq(n, _ => Outside)) }

  predicate Enabled(s: State, a: Action) {
    && a.p < |s.procs|
    && match a
       case Kill(p) => s.table.None? && s.procs[p].Asleep?
       case Advance(p) =>
         match s.procs[p]
         case Wants | Frees => s.spin.None?
         case ToSleep | ToWake => s.table.None?
         case Asleep => false
         case _ => true
  }

  /** wakeup1: every process asleep on the lock goes back to acquiring lk->lk. */
  function Woken(procs: seq<Pc>): (after: seq<Pc>)
    ensures |after| == |procs|
  {
    seq(|procs|, i requires 0 <= i < |procs| => if procs[i].Asleep? then Wants else procs[i])
  }

  function Step(s: State, a: Action): State
    requires Enabled(s, a)
  {
    match a
    case Kill(p) => s.(procs := s.procs[p := Wants])
    case Advance(p) =>
      match s.procs[p]
      case Outside => s.(procs := s.procs[p := Wants])
      case Wants => s.(spin := Some(p), procs := s.procs[p := Tests])
      case Tests =>
        if s.locked then s.(procs := s.procs[p := ToSleep])
        else s.(locked := true, pid := Some(p), procs := s.procs[p := Took])
      case ToSleep => s.(table := Some(p), procs := s.procs[p := Handing])
      case Handing => s.(spin := None, procs := s.procs[p := Marking])
      case Marking => s.(table := None, procs := s.procs[p := Asleep])
      case Asleep => s
      case Took => s.(spin := None, procs := s.procs[p := Holds])
      case Holds => s.(procs := s.procs[p := Frees])
      case Frees => s.(spin := Some(p), procs := s.procs[p := Clears])
      case Clears => s.(locked := false, pid := None, procs := s.procs[p := ToWake])
      case ToWake => s.(table := Some(p), procs := s.procs[p := Wakes])
      case Wakes => s.(table := None, procs := Woken(s.procs)[p := Leaves])
      case Leaves => s.(spin := None, procs := s.procs[p := Outside])
  }

  function Exec(s: State, acts: seq<Action>): Option<State>
    decreases |acts|
  {
    if acts == [] then Some(s)
    else if Enabled(s, acts[0]) then Exec(Step(s, acts[0]), acts[1..])
    else None
  }

  // -------------------------------------------------------------- invariants

  ghost predicate SpinHeld(s: State) {
    forall p :: 0 <= p < |s.procs| ==> (HasSpin(s.procs[p]) <==> s.spin == Some(p))
  }

  ghost predicate TableHeld(s: State) {
    forall p :: 0 <= p < |s.procs| ==> (HasTable(s.procs[p]) <==> s.table == Some(p))
  }

  /** The lock is marked exactly while one process has it, and names that process. */
  ghost predicate OneHolder(s: State) {
    && (s.locked <==> s.pid.Some?) && (s.pid.Some? ==> s.pid.value < |s.procs|)
    && (forall p :: 0 <= p < |s.procs| ==> (HasSleepLock(s.procs[p]) <==> s.pid == Some(p)))
  }

  /** A holder of lk->lk has cleared the lock and is yet to wake the sleepers. */
  predicate WakePending(s: State) {
    s.spin.Some? && s.spin.value < |s.procs| && (s.procs[s.spin.value].ToWake? || s.procs[s.spin.value].Wakes?)
  }

  /** A process sleeps, or is bound to, only on a lock that is held or about to be
      announced free. */
  ghost predicate SleepersJustified(s: State) {
    forall p :: 0 <= p < |s.procs| ==>
      match s.procs[p]
      case ToSleep | Handing => s.locked
      case Marking | Asleep => s.locked || WakePending(s)
      case _ => true
  }

  ghost predicate Inv(s: State) { SpinHeld(s) && TableHeld(s) && OneHolder(s) && SleepersJustified(s) }

  lemma StepSpin(s: State, a: Action)
    requires SpinHeld(s) && Enabled(s, a)
    ensures SpinHeld(Step(s, a))
  {
  }

  lemma StepTable(s: State, a: Action)
    requires TableHeld(s) && Enabled(s, a)
    ensures TableHeld(Step(s, a))
  {
  }

  lemma StepHolder(s: State, a: Action)
    requires OneHolder(s) && Enabled(s, a)
    ensures OneHolder(Step(s, a))
  {
  }

  lemma StepSleepers(s: State, a: Action)
    requires Inv(s) && Enabled(s, a)
    ensures SleepersJustified(Step(s, a))
  {
  }

  lemma {:induction false} RunKeeps(s: State, acts: seq<Action>)
    requires Inv(s) && Exec(s, acts).Some?
    ensures Inv(Exec(s, acts).value)
    decreases |acts|
  {
    if acts != [] {
      StepSpin(s, acts[0]);
      StepTable(s, acts[0]);
      StepHolder(s, acts[0]);
      StepSleepers(s, acts[0]);
      RunKeeps(Step(s, acts[0]), acts[1..]);
    }
  }

  /** No wakeup is lost: in every reachable state, once lk->lk is free, a process
      asleep on the sleep lock means the lock is held. */
  lemma NoLostWakeup(n: nat, acts: seq<Action>)
    requires Exec(Init(n), acts).Some?
    ensures var s := Exec(Init(n), acts).value;
            s.spin.None? ==> forall p :: 0 <= p < |s.procs| && s.procs[p].Asleep? ==> s.locked
  {
    RunKeeps(Init(n), acts);
  }

  /** At most one process holds the sleep lock, and lk->pid names it. */
  lemma MutualExclusion(n: nat, acts: seq<Action>, p: nat, q: nat)
    requires Exec(Init(n), acts).Some?
    requires var s := Exec(Init(n), acts).value;
             p < |s.procs| && q < |s.procs| && HasSleepLock(s.procs[p]) && HasSleepLock(s.procs[q])
    ensures p == q && Exec(Init(n), acts).value.pid == Some(p)
  {
    RunKeeps(Init(n), acts);
  }

  // ---------------------------------------------------------------- progress

  /** Some process can always get on: spin locks and sleep locks never shut each other
      out. */
  lemma NoDeadlock(n: nat, acts: seq<Action>)
    requires n > 0 && Exec(Init(n), acts).Some?
    ensures var s := Exec(Init(n), acts).value; exists p :: Enabled(s, Advance(p)) && Step(s, Advance(p)) != s
  {
    RunKeeps(Init(n), acts);
    RunCount(Init(n), acts);
    var s := Exec(Init(n), acts).value;
    var p := if s.table.Some? && s.table.value < n then s.table.value
             else if s.spin.Some? && s.spin.value < n then s.spin.value
             else if s.pid.Some? then s.pid.value else 0;
    assert Enabled(s, Advance(p));
    assert Step(s, Advance(p)).procs[p] != s.procs[p];
  }

  lemma {:induction false} RunCount(s: State, acts: seq<Action>)
    requires Exec(s, acts).Some?
    requires (s.spin.Some? ==> s.spin.value < |s.procs|) && (s.table.Some? ==> s.table.value < |s.procs|)
    ensures var t := Exec(s, acts).value;
            |t.procs| == |s.procs| && (t.spin.Some? ==> t.spin.value < |t.procs|)
              && (t.table.Some? ==> t.table.value < |t.procs|)
    decreases |acts|
  {
    if acts != [] { RunCount(Step(s, acts[0]), acts[1..]); }
  }

  /** A free lock is taken: a process that calls acquiresleep, undisturbed, comes out
      with the lock. */
  lemma FreeLockTaken(s: State, p: nat)
    requires p < |s.procs| && s.procs[p].Outside? && s.spin.None? && !s.locked
    ensures Exec(s, seq(4, _ => Advance(p))) == Some(s.(locked := true, pid := Some(p), procs := s.procs[p := Holds]))
  {
    Arrives(s, p, 2);
    var s2 := s.(spin := Some(p), procs := s.procs[p := Tests]);
    var s3 := Step(s2, Advance(p));
    var s4 := Step(s3, Advance(p));
    assert s4.procs == s.procs[p := Holds];
    ExecSteps(s2, p, 2);
    ExecSteps(s3, p, 1);
    ExecSteps(s4, p, 0);
  }

  /** A held lock is waited for: undisturbed, the process goes to sleep and leaves both
      spin locks free; kill sends it back to the door. */
  lemma HeldLockAwaited(s: State, p: nat)
    requires p < |s.procs| && s.procs[p].Outside? && s.spin.None? && s.table.None? && s.locked
    ensures var t := s.(procs := s.procs[p := Asleep]);
            && Exec(s, seq(6, _ => Advance(p))) == Some(t)
            && Enabled(t, Kill(p)) && Step(t, Kill(p)) == s.(procs := s.procs[p := Wants])
  {
    Arrives(s, p, 4);
    var s2 := s.(spin := Some(p), procs := s.procs[p := Tests]);
    var s3 := Step(s2, Advance(p));
    var s4 := Step(s3, Advance(p));
    var s5 := Step(s4, Advance(p));
    var s6 := Step(s5, Advance(p));
    assert s6.procs == s.procs[p := Asleep] && s6.procs[p := Wants] == s.procs[p := Wants];
    ExecSteps(s2, p, 4);
    ExecSteps(s3, p, 3);
    ExecSteps(s4, p, 2);
    ExecSteps(s5, p, 1);
    ExecSteps(s6, p, 0);
  }

  /** acquiresleep up to its test, and k steps more. */
  lemma Arrives(s: State, p: nat, k: nat)
    requires p < |s.procs| && s.procs[p].Outside? && s.spin.None?
    ensures Exec(s, seq(k + 2, _ => Advance(p))) ==
            Exec(s.(spin := Some(p), procs := s.procs[p := Tests]), seq(k, _ => Advance(p)))
  {
    var s1 := Step(s, Advance(p));
    assert Step(s1, Advance(p)).procs == s.procs[p := Tests];
    ExecSteps(s, p, k + 2);
    ExecSteps(s1, p, k + 1);
  }

  /** A release frees the lock and wakes every process asleep on it. */
  lemma ReleaseWakesAll(s: State, p: nat)
    requires p < |s.procs| && s.procs[p].Holds? && s.spin.None? && s.table.None?
    ensures Exec(s, seq(6, _ => Advance(p))).Some?
    ensures var t := Exec(s, seq(6, _ => Advance(p))).value;
            && !t.locked && t.pid.None? && t.spin.None? && t.table.None? && |t.procs| == |s.procs|
            && t.procs[p].Outside?
            && forall q :: 0 <= q < |s.procs| && q != p ==>
                 t.procs[q] == if s.procs[q].Asleep? then Wants else s.procs[q]
  {
    Announces(s, p, 3);
    WakesAll(s.(locked := false, pid := None, spin := Some(p), procs := s.procs[p := ToWake]), p);
  }

  /** releasesleep up to its call of wakeup, and k steps more. */
  lemma Announces(s: State, p: nat, k: nat)
    requires p < |s.procs| && s.procs[p].Holds? && s.spin.None?
    ensures Exec(s, seq(k + 3, _ => Advance(p))) ==
            Exec(s.(locked := false, pid := None, spin := Some(p), procs := s.procs[p := ToWake]),
                 seq(k, _ => Advance(p)))
  {
    var s1 := Step(s, Advance(p));
    var s2 := Step(s1, Advance(p));
    assert Step(s2, Advance(p)).procs == s.procs[p := ToWake];
    ExecSteps(s, p, k + 3);
    ExecSteps(s1, p, k + 2);
    ExecSteps(s2, p, k + 1);
  }

  lemma WakesAll(s: State, p: nat)
    requires p < |s.procs| && s.procs[p].ToWake? && s.table.None?
    ensures Exec(s, seq(3, _ => Advance(p))) == Some(s.(spin := None, procs := Woken(s.procs)[p := Outside]))
  {
    var s1 := Step(s, Advance(p));
    var s2 := Step(s1, Advance(p));
    var s3 := Step(s2, Advance(p));
    assert s3.procs == Woken(s.procs)[p := Outside];
    ExecSteps(s, p, 3);
    ExecSteps(s1, p, 2);
    ExecSteps(s2, p, 1);
    ExecSteps(s3, p, 0);
  }

  lemma ExecSteps(s: State, p: nat, k: nat)
    ensures k == 0 ==> Exec(s, seq(k, _ => Advance(p))) == Some(s)
    ensures k > 0 && Enabled(s, Advance(p)) ==>
              Exec(s, seq(k, _ => Advance(p))) == Exec(Step(s, Advance(p)), seq(k - 1, _ => Advance(p)))
  {
    if k > 0 { assert seq(k, _ => Advance(p))[1..] == seq(k - 1, _ => Advance(p)); }
  }
}

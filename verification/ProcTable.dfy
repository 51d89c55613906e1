/** The process table (proc.c): scheduling, fork, exit and wait as steps that the CPUs
    interleave. A CPU is in its scheduler or on the kernel stack of a process; swtch
    moves it from one to the other while it keeps ptable.lock. Each CPU acquires and
    releases ptable.lock in steps of their own, and the writes that fork makes without
    the lock are separate steps too. */
module ProcTable {
  import opened Options

  datatype PState = Unused | Embryo | Sleeping | Runnable | Running | Zombie

  /** What a process sleeps on: the address of a process, as wait does, or another. */
  datatype Chan = OnProc(p: nat) | Elsewhere(id: nat)

  /** child is the embryo that a process inside fork is building. */
  datatype Proc = Proc(state: PState, parent: Option<nat>, chan: Option<Chan>, stack: bool, child: Option<nat>)

  datatype Cpu =
    | Idle                  // scheduler, without ptable.lock
    | Scan                  // scheduler, with ptable.lock
    | Chosen(p: nat)        // scheduler, p marked RUNNING, at swtch
    | Free(p: nat)          // on p's stack, without ptable.lock
    | Locked(p: nat)        // on p's stack, with ptable.lock
    | Looking(p: nat, i: nat)   // in p's wait, with ptable.lock, at entry i of the scan
    | Leaving(p: nat)       // on p's stack, with ptable.lock, p marked not RUNNING, at swtch in sched

  predicate Carries(c: Cpu, p: nat) { !c.Idle? && !c.Scan? && c.p == p }

  predicate HasLock(c: Cpu) { !c.Idle? && !c.Free? }

  datatype State = State(procs: seq<Proc>, cpus: seq<Cpu>, lock: Option<nat>, init: nat)

  datatype Move =
    | Acquire | Release
    | Pick(p: nat) | SwitchIn | SwitchOut
    | Yield | Sleep(chan: Chan) | Exit
    | Wakeup(chan: Chan) | Kill(p: nat)
    | WaitScan | WaitNext | WaitSleep | Reap(p: nat)
    | Alloc(p: nat) | Stack | NoStack | NoCopy | Adopt | Launch

  datatype Action = Action(c: nat, move: Move)

  const NOBODY: Proc := Proc(Unused, None, None, false, None)

  /** Once userinit has run: init is runnable and every CPU enters its scheduler. */
  function Start(nproc: nat, ncpu: nat, init: nat): State {
    State(seq(nproc, i => if i == init then Proc(Runnable, None, None, true, None) else NOBODY), seq(ncpu, _ => Idle),
          None, init)
  }

  predicate Alive(p: Proc) { p.state.Sleeping? || p.state.Runnable? || p.state.Running? }

  predicate IsZombieChild(q: Proc, p: nat) { q.parent == Some(p) && q.state.Zombie? }

  ghost predicate NoZombieChild(procs: seq<Proc>, p: nat) {
    forall q :: 0 <= q < |procs| ==> !IsZombieChild(procs[q], p)
  }

  ghost predicate MayMove(s: State, c: Cpu, m: Move) {
    match m
    case Acquire => s.lock.None? && (c.Idle? || c.Free?)
    case Release => c.Scan? || c.Locked? || (c.Looking? && c.i == |s.procs|)
    case Pick(p) => c.Scan? && p < |s.procs| && s.procs[p].state.Runnable?
    case SwitchIn => c.Chosen?
    case SwitchOut => c.Leaving?
    case Yield => c.Locked?
    case Sleep(chan) => c.Locked? && chan != OnProc(c.p)
    case Exit => c.Locked? && c.p != s.init && c.p < |s.procs| && s.procs[c.p].child.None?
    case Wakeup(_) => c.Locked?
    case Kill(p) => c.Locked? && p < |s.procs|
    case WaitScan => c.Locked?
    case WaitNext => c.Looking? && c.i < |s.procs| && !IsZombieChild(s.procs[c.i], c.p)
    case WaitSleep => c.Looking? && c.i == |s.procs|
    case Reap(p) => c.Looking? && c.i == p < |s.procs| && IsZombieChild(s.procs[p], c.p)
    case Alloc(p) => c.Locked? && p < |s.procs| && s.procs[p].state.Unused? && c.p < |s.procs|
      && s.procs[c.p].child.None?
    case Stack => Building(s, c) && !s.procs[s.procs[c.p].child.value].stack
    case NoStack => Building(s, c) && !s.procs[s.procs[c.p].child.value].stack
    case NoCopy => Building(s, c) && s.procs[s.procs[c.p].child.value].stack
      && s.procs[s.procs[c.p].child.value].parent.None?
    case Adopt => Building(s, c) && s.procs[s.procs[c.p].child.value].stack
    case Launch => c.Locked? && HasChild(s, c) && s.procs[s.procs[c.p].child.value].parent.Some?
  }

  predicate HasChild(s: State, c: Cpu)
    requires c.Free? || c.Locked?
  {
    c.p < |s.procs| && s.procs[c.p].child.Some? && s.procs[c.p].child.value < |s.procs|
  }

  /** On the stack of a process inside fork, without the lock. */
  predicate Building(s: State, c: Cpu) { c.Free? && HasChild(s, c) }

  ghost predicate Enabled(s: State, a: Action) { a.c < |s.cpus| && MayMove(s, s.cpus[a.c], a.move) }

  function CpuAfter(c: Cpu, m: Move): Cpu {
    match m
    case Acquire => if c.Idle? then Scan else if c.Free? then Locked(c.p) else c
    case Release => if c.Locked? || c.Looking? then Free(c.p) else Idle
    case Pick(p) => Chosen(p)
    case SwitchIn => if c.Chosen? then Locked(c.p) else c
    case SwitchOut => Scan
    case Yield | Sleep(_) | Exit => if c.Locked? then Leaving(c.p) else c
    case WaitScan => if c.Locked? then Looking(c.p, 0) else c
    case WaitNext => if c.Looking? then Looking(c.p, c.i + 1) else c
    case WaitSleep => if c.Looking? then Leaving(c.p) else c
    case Reap(_) => if c.Looking? then Locked(c.p) else c
    case _ => c
  }

  /** wakeup1. */
  function WokenOne(p: Proc, chan: Chan): Proc {
    if p.state.Sleeping? && p.chan == Some(chan) then p.(state := Runnable) else p
  }

  /** exit: the parent is woken, the children go to init, which is woken if one of them
      is a zombie, and the process becomes one itself. */
  ghost function ExitedOne(procs: seq<Proc>, p: nat, init: nat, q: nat): Proc
    requires p < |procs| && q < |procs|
  {
    var r := if procs[p].parent.Some? then WokenOne(procs[q], OnProc(procs[p].parent.value)) else procs[q];
    var r := if !NoZombieChild(procs, p) then WokenOne(r, OnProc(init)) else r;
    var r := if r.parent == Some(p) then r.(parent := Some(init)) else r;
    if q == p then r.(state := Zombie) else r
  }

  /** What exit of p does to entry q, which it leaves as r: the children of p belong to
      init, p is a zombie, and another entry changes state just when it slept on the
      parent of p, or on init while p has a zombie child; then it is runnable. */
  ghost predicate ExitEffect(procs: seq<Proc>, p: nat, init: nat, q: nat, r: Proc)
    requires p < |procs| && q < |procs|
  {
    && r.parent == (if procs[q].parent == Some(p) then Some(init) else procs[q].parent)
    && r.(state := procs[q].state, parent := procs[q].parent) == procs[q]
    && (q == p ==> r.state.Zombie?)
    && (q != p ==>
          (r.state != procs[q].state <==>
             && procs[q].state.Sleeping? && procs[q].chan.Some? && procs[q].chan.value.OnProc?
             && (procs[p].parent == Some(procs[q].chan.value.p)
                 || (procs[q].chan.value.p == init && !NoZombieChild(procs, p)))))
    && (q != p && r.state != procs[q].state ==> r.state.Runnable?)
  }

  lemma ExitedAs(procs: seq<Proc>, p: nat, init: nat, q: nat)
    requires p < |procs| && q < |procs|
    ensures ExitEffect(procs, p, init, q, ExitedOne(procs, p, init, q))
  {
  }

  /** Process q after a move on a CPU in state c. */
  ghost function ProcAfter(s: State, c: Cpu, m: Move, q: nat): Proc
    requires q < |s.procs| && MayMove(s, c, m)
  {
    var r := s.procs[q];
    match m
    case Pick(p) => if q == p then r.(state := Running) else r
    case Yield => if q == c.p then r.(state := Runnable) else r
    case Sleep(chan) => if q == c.p then r.(state := Sleeping, chan := Some(chan)) else r
    case WaitSleep => if q == c.p then r.(state := Sleeping, chan := Some(OnProc(c.p))) else r
    case Exit => ExitedOne(s.procs, c.p, s.init, q)
    case Wakeup(chan) => WokenOne(r, chan)
    case Kill(p) => if q == p && r.state.Sleeping? then r.(state := Runnable) else r
    case Reap(p) => if q == p then r.(state := Unused, parent := None, stack := false) else r
    case Alloc(p) => (if q == p then r.(state := Embryo) else r).(child := if q == c.p then Some(p) else r.child)
    case Stack => if s.procs[c.p].child == Some(q) then r.(stack := true) else r
    case NoStack | NoCopy =>
      if s.procs[c.p].child == Some(q) then r.(stack := false, state := Unused) else if q == c.p then r.(child := None)
         else r
    case Adopt => if s.procs[c.p].child == Some(q) then r.(parent := Some(c.p)) else r
    case Launch => if s.procs[c.p].child == Some(q) then r.(state := Runnable) else if q == c.p then r.(child := None)
      else r
    case _ => r
  }

  ghost function Step(s: State, a: Action): State
    requires Enabled(s, a)
  {
    var c := s.cpus[a.c];
    State(seq(|s.procs|, q requires 0 <= q < |s.procs| => ProcAfter(s, c, a.move, q)),
          s.cpus[a.c := CpuAfter(c, a.move)],
          if a.move.Acquire? then Some(a.c) else if a.move.Release? then None else s.lock,
          s.init)
  }

  // -------------------------------------------------------------- invariants

  ghost predicate LockHeld(s: State) {
    forall c :: 0 <= c < |s.cpus| ==> (HasLock(s.cpus[c]) <==> s.lock == Some(c))
  }

  /** The state of the process a CPU carries. */
  predicate CarriedOk(procs: seq<Proc>, c: Cpu) {
    !c.Idle? && !c.Scan? ==>
      && c.p < |procs|
      && if c.Leaving? then procs[c.p].state.Runnable? || procs[c.p].state.Sleeping? || procs[c.p].state.Zombie?
         else procs[c.p].state.Running?
  }

  ghost predicate CarriedOnce(s: State) {
    && (forall c :: 0 <= c < |s.cpus| ==> CarriedOk(s.procs, s.cpus[c]))
    && (forall c, e, p :: 0 <= c < e < |s.cpus| && Carries(s.cpus[c], p) ==> !Carries(s.cpus[e], p))
  }

  /** A running process is on some CPU. */
  ghost predicate RunningCarried(s: State) {
    forall p :: 0 <= p < |s.procs| && s.procs[p].state.Running? ==>
             exists c :: 0 <= c < |s.cpus| && Carries(s.cpus[c], p)
  }

  /** What a process owns, by its state. */
  predicate Shaped(p: Proc) {
    match p.state
    case Unused => p.parent.None? && !p.stack && p.child.None?
    case Embryo => (p.parent.Some? ==> p.stack) && p.child.None?
    case Zombie => p.stack && p.child.None?
    case _ => p.stack
  }

  /** An embryo belongs to the one process whose fork is building it. */
  ghost predicate Forks(procs: seq<Proc>) {
    && (forall p :: 0 <= p < |procs| ==> Shaped(procs[p]))
    && (forall p :: 0 <= p < |procs| && procs[p].child.Some? ==>
          procs[p].child.value < |procs| && procs[procs[p].child.value].state.Embryo?)
    && (forall p, q :: 0 <= p < q < |procs| && procs[p].child.Some? ==> procs[q].child != procs[p].child)
    && (forall q, p :: 0 <= q < |procs| && procs[q].state.Embryo? && procs[q].parent == Some(p) ==>
                         p < |procs| && procs[p].child == Some(q))
  }

  predicate HasParent(procs: seq<Proc>, q: nat)
    requires q < |procs|
  {
    procs[q].parent.Some? && procs[q].parent.value < |procs| && Alive(procs[procs[q].parent.value])
  }

  /** Every process but init that has been started and not reaped has a living parent. */
  ghost predicate Parents(procs: seq<Proc>, init: nat) {
    && init < |procs| && Alive(procs[init])
    && (forall q :: 0 <= q < |procs| && q != init && (Alive(procs[q]) || procs[q].state.Zombie?) ==>
          HasParent(procs, q))
  }

  /** init has no parent and no process is its own. */
  ghost predicate NoSelfParent(procs: seq<Proc>, init: nat) {
    && init < |procs| && procs[init].parent.None? && !procs[init].state.Embryo?
    && (forall p :: 0 <= p < |procs| ==> procs[p].parent != Some(p))
  }

  /** The entries that wait's scan has passed are no zombie children. */
  ghost predicate ScanOk(procs: seq<Proc>, c: Cpu) {
    c.Looking? ==> c.i <= |procs| && forall q :: 0 <= q < c.i ==> !IsZombieChild(procs[q], c.p)
  }

  ghost predicate Scans(s: State) {
    forall c :: 0 <= c < |s.cpus| ==> ScanOk(s.procs, s.cpus[c])
  }

  /** A process asleep in wait has no zombie child. */
  ghost predicate Waits(procs: seq<Proc>) {
    forall p :: 0 <= p < |procs| && procs[p].state.Sleeping? && procs[p].chan == Some(OnProc(p)) ==>
             NoZombieChild(procs, p)
  }

  ghost predicate Inv(s: State) {
    LockHeld(s) && CarriedOnce(s) && RunningCarried(s) && Forks(s.procs) && Parents(s.procs, s.init)
      && NoSelfParent(s.procs, s.init) && Scans(s) && Waits(s.procs)
  }

  /** The move is that of a process which gives up the CPU. */
  predicate Departs(c: Cpu, m: Move) {
    (c.Locked? && (m.Yield? || m.Sleep? || m.Exit?)) || (c.Looking? && m.WaitSleep?)
  }

  lemma StepLock(s: State, a: Action)
    requires LockHeld(s) && Enabled(s, a)
    ensures LockHeld(Step(s, a))
  {
  }

  /** What a move does to a process it does not name. */
  lemma StateAfter(s: State, c: Cpu, m: Move, q: nat)
    requires Forks(s.procs) && CarriedOk(s.procs, c) && MayMove(s, c, m) && q < |s.procs|
    requires !(Departs(c, m) && c.p == q) && !(m.Pick? && m.p == q)
    ensures s.procs[q].state.Running? <==> ProcAfter(s, c, m, q).state.Running?
    ensures s.procs[q].state.Zombie? && !m.Reap? ==> ProcAfter(s, c, m, q).state.Zombie?
    ensures s.procs[q].state.Runnable? ==> ProcAfter(s, c, m, q).state.Runnable?
    ensures s.procs[q].state.Sleeping? ==>
              ProcAfter(s, c, m, q).state.Runnable? || ProcAfter(s, c, m, q).state.Sleeping?
  {
  }

  /** The process on another CPU is not one that the move takes away. */
  lemma OtherCarried(s: State, a: Action, e: nat)
    requires LockHeld(s) && CarriedOnce(s) && Forks(s.procs) && Enabled(s, a) && e < |s.cpus| && e != a.c
    ensures CarriedOk(Step(s, a).procs, s.cpus[e])
    ensures forall p :: Carries(s.cpus[e], p) ==> !Carries(CpuAfter(s.cpus[a.c], a.move), p)
  {
    hide Forks;
    hide ProcAfter;
    var c := s.cpus[a.c];
    assert CarriedOk(s.procs, s.cpus[e]) && CarriedOk(s.procs, c);
    if !s.cpus[e].Idle? && !s.cpus[e].Scan? {
      var q := s.cpus[e].p;
      assert Carries(s.cpus[e], q) && !Carries(c, q);
      if !(a.move.Pick? && a.move.p == q) {
        StateAfter(s, c, a.move, q);
      }
    }
  }

  lemma OwnCarried(s: State, a: Action)
    requires LockHeld(s) && CarriedOnce(s) && Forks(s.procs) && Enabled(s, a)
    ensures CarriedOk(Step(s, a).procs, CpuAfter(s.cpus[a.c], a.move))
  {
    hide Forks;
    var c := s.cpus[a.c];
    assert CarriedOk(s.procs, c);
    if !c.Idle? && !c.Scan? && !Departs(c, a.move) {
      StateAfter(s, c, a.move, c.p);
    }
  }

  lemma StepCarried(s: State, a: Action)
    requires LockHeld(s) && CarriedOnce(s) && Forks(s.procs) && Enabled(s, a)
    ensures CarriedOnce(Step(s, a))
  {
    hide Forks;
    hide ProcAfter;
    hide MayMove;
    hide LockHeld;
    hide CpuAfter;
    hide CarriedOk;
    hide Carries;
    var s' := Step(s, a);
    OwnCarried(s, a);
    forall e | 0 <= e < |s.cpus|
      ensures CarriedOk(s'.procs, s'.cpus[e])
    {
      if e != a.c {
        OtherCarried(s, a, e);
      }
    }
    forall c, e, p | 0 <= c < e < |s'.cpus| && Carries(s'.cpus[c], p)
      ensures !Carries(s'.cpus[e], p)
    {
      if e == a.c {
        OtherCarried(s, a, c);
      } else if c == a.c {
        OtherCarried(s, a, e);
      }
    }
  }

  lemma StepRunning(s: State, a: Action)
    requires LockHeld(s) && CarriedOnce(s) && RunningCarried(s) && Forks(s.procs) && Enabled(s, a)
    ensures RunningCarried(Step(s, a))
  {
    hide Forks;
    hide LockHeld;
    hide ProcAfter;
    var s', c := Step(s, a), s.cpus[a.c];
    assert CarriedOk(s.procs, c);
    forall p | 0 <= p < |s'.procs| && s'.procs[p].state.Running?
      ensures exists e :: 0 <= e < |s'.cpus| && Carries(s'.cpus[e], p)
    {
      StillCarried(s, a, p);
    }
  }

  lemma StillCarried(s: State, a: Action, p: nat)
    requires CarriedOnce(s) && RunningCarried(s) && Forks(s.procs) && Enabled(s, a) && p < |s.procs|
    requires ProcAfter(s, s.cpus[a.c], a.move, p).state.Running?
    ensures exists e :: 0 <= e < |s.cpus| && Carries(Step(s, a).cpus[e], p)
  {
    hide Forks;
    var s', c := Step(s, a), s.cpus[a.c];
    assert CarriedOk(s.procs, c);
    if a.move.Pick? && a.move.p == p {
      assert Carries(s'.cpus[a.c], p);
    } else {
      assert !(Departs(c, a.move) && c.p == p);
      StateAfter(s, c, a.move, p);
      var e :| 0 <= e < |s.cpus| && Carries(s.cpus[e], p);
      assert Carries(s'.cpus[e], p);
    }
  }

  // ------------------------------------------------------- fork, exit and wait

  lemma ShapedAfter(s: State, c: Cpu, m: Move, q: nat)
    requires Forks(s.procs) && CarriedOk(s.procs, c) && MayMove(s, c, m) && q < |s.procs|
    ensures Shaped(ProcAfter(s, c, m, q))
  {
    assert Shaped(s.procs[q]);
    if c.Free? || c.Locked? {
      assert Shaped(s.procs[c.p]);
    }
  }

  /** Who is building whom after a move. */
  lemma ChildAfter(s: State, c: Cpu, m: Move, p: nat)
    requires Forks(s.procs) && CarriedOk(s.procs, c) && MayMove(s, c, m) && p < |s.procs|
    ensures ProcAfter(s, c, m, p).child ==
              if (c.Free? || c.Locked?) && p == c.p && (m.NoStack? || m.NoCopy? || m.Launch?) then None
              else if (c.Free? || c.Locked?) && p == c.p && m.Alloc? then Some(m.p)
              else s.procs[p].child
  {
    assert Shaped(s.procs[p]);
  }

  lemma EmbryoAfter(s: State, c: Cpu, m: Move, q: nat)
    requires Forks(s.procs) && CarriedOk(s.procs, c) && MayMove(s, c, m) && q < |s.procs|
    ensures ProcAfter(s, c, m, q).state.Embryo? <==>
              (m.Alloc? && m.p == q) ||
              (s.procs[q].state.Embryo? && !((m.NoStack? || m.NoCopy? || m.Launch?) && s.procs[c.p].child == Some(q)))
    ensures s.procs[q].state.Embryo? && ProcAfter(s, c, m, q).parent != s.procs[q].parent ==>
              m.Adopt? && s.procs[c.p].child == Some(q) && ProcAfter(s, c, m, q).parent == Some(c.p)
  {
    assert Shaped(s.procs[q]);
  }

  lemma ChildIsEmbryo(s: State, c: Cpu, m: Move, p: nat)
    requires Forks(s.procs) && CarriedOk(s.procs, c) && MayMove(s, c, m) && p < |s.procs|
    ensures var child := ProcAfter(s, c, m, p).child;
            child.Some? ==> child.value < |s.procs| && ProcAfter(s, c, m, child.value).state.Embryo?
  {
    hide ProcAfter;
    hide Shaped;
    ChildAfter(s, c, m, p);
    var child := ProcAfter(s, c, m, p).child;
    if child.Some? {
      EmbryoAfter(s, c, m, child.value);
    }
  }

  lemma ChildrenDiffer(s: State, c: Cpu, m: Move, p: nat, q: nat)
    requires Forks(s.procs) && CarriedOk(s.procs, c) && MayMove(s, c, m) && p < |s.procs| && q < |s.procs| && p != q
    ensures ProcAfter(s, c, m, p).child.Some? ==> ProcAfter(s, c, m, q).child != ProcAfter(s, c, m, p).child
  {
    hide ProcAfter;
    hide Shaped;
    ChildAfter(s, c, m, p);
    ChildAfter(s, c, m, q);
  }

  lemma StepForks(s: State, a: Action)
    requires Forks(s.procs) && CarriedOnce(s) && Enabled(s, a)
    ensures Forks(Step(s, a).procs)
  {
    hide ProcAfter;
    hide Shaped;
    hide MayMove;
    hide CpuAfter;
    hide CarriedOk;
    hide Carries;
    var s', c, m := Step(s, a), s.cpus[a.c], a.move;
    assert CarriedOk(s.procs, c);
    forall p | 0 <= p < |s.procs|
      ensures Shaped(s'.procs[p])
    {
      ShapedAfter(s, c, m, p);
    }
    forall p | 0 <= p < |s'.procs| && s'.procs[p].child.Some?
      ensures s'.procs[p].child.value < |s'.procs| && s'.procs[s'.procs[p].child.value].state.Embryo?
    {
      ChildIsEmbryo(s, c, m, p);
    }
    forall p, q | 0 <= p < q < |s'.procs| && s'.procs[p].child.Some?
      ensures s'.procs[q].child != s'.procs[p].child
    {
      ChildrenDiffer(s, c, m, p, q);
    }
    forall q, p | 0 <= q < |s'.procs| && s'.procs[q].state.Embryo? && s'.procs[q].parent == Some(p)
      ensures p < |s'.procs| && s'.procs[p].child == Some(q)
    {
      BuilderAfter(s, c, m, q, p);
    }
  }

  lemma BuilderAfter(s: State, c: Cpu, m: Move, q: nat, p: nat)
    requires Forks(s.procs) && CarriedOk(s.procs, c) && MayMove(s, c, m) && q < |s.procs|
    requires ProcAfter(s, c, m, q).state.Embryo? && ProcAfter(s, c, m, q).parent == Some(p)
    ensures p < |s.procs| && ProcAfter(s, c, m, p).child == Some(q)
  {
    EmbryoAfter(s, c, m, q);
    assert Shaped(s.procs[q]);
    if p < |s.procs| {
      ChildAfter(s, c, m, p);
    }
  }

  lemma AliveAfter(s: State, c: Cpu, m: Move, r: nat)
    requires Forks(s.procs) && CarriedOk(s.procs, c) && MayMove(s, c, m) && r < |s.procs| && Alive(s.procs[r])
             && !(m.Exit? && r == c.p)
    ensures Alive(ProcAfter(s, c, m, r))
  {
  }

  lemma ParentAfterExit(s: State, c: Cpu, q: nat)
    requires MayMove(s, c, Exit) && q < |s.procs|
    ensures var was, r := s.procs[q], ExitedOne(s.procs, c.p, s.init, q);
            && r.parent == (if was.parent == Some(c.p) then Some(s.init) else was.parent)
            && (Alive(r) || r.state.Zombie? ==> Alive(was) || was.state.Zombie? || q == c.p)
  {
  }

  /** A started process keeps its parent, except that an exit passes it to init. */
  lemma ParentAfter(s: State, c: Cpu, m: Move, q: nat)
    requires Forks(s.procs) && CarriedOk(s.procs, c) && MayMove(s, c, m) && q < |s.procs|
    requires var r := ProcAfter(s, c, m, q); Alive(r) || r.state.Zombie?
    ensures var was, r := s.procs[q], ProcAfter(s, c, m, q);
            if was.state.Embryo? then m.Launch? && r.parent == Some(c.p)
            else (Alive(was) || was.state.Zombie?) && r.parent == if m.Exit? && was.parent == Some(c.p)
              then Some(s.init) else was.parent
  {
    hide ExitedOne;
    assert Shaped(s.procs[q]);
    if m.Exit? {
      ParentAfterExit(s, c, q);
    }
  }

  lemma StepParents(s: State, a: Action)
    requires Parents(s.procs, s.init) && Forks(s.procs) && CarriedOnce(s) && Enabled(s, a)
    ensures Parents(Step(s, a).procs, s.init)
  {
    hide ProcAfter;
    hide Forks;
    hide Alive;
    var s', c, m := Step(s, a), s.cpus[a.c], a.move;
    assert CarriedOk(s.procs, c);
    AliveAfter(s, c, m, s.init);
    forall q | 0 <= q < |s'.procs| && q != s.init && (Alive(s'.procs[q]) || s'.procs[q].state.Zombie?)
      ensures HasParent(s'.procs, q)
    {
      ParentAfter(s, c, m, q);
      var r := s'.procs[q].parent;
      if m.Launch? {
        RunningAlive(s.procs[c.p]);
      }
      AliveAfter(s, c, m, r.value);
    }
  }

  lemma RunningAlive(p: Proc)
    requires p.state.Running?
    ensures Alive(p)
  {
  }

  /** Whose child a process is after a move. */
  lemma KinAfter(s: State, c: Cpu, m: Move, p: nat)
    requires Forks(s.procs) && CarriedOk(s.procs, c) && MayMove(s, c, m) && p < |s.procs|
    ensures var was, r := s.procs[p].parent, ProcAfter(s, c, m, p).parent;
            || r == was || r.None?
            || (m.Exit? && was == Some(c.p) && r == Some(s.init))
            || (m.Adopt? && s.procs[p].state.Embryo? && r == Some(c.p) && s.procs[c.p].state.Running?)
  {
    hide ExitedOne;
    if m.Exit? {
      ParentAfterExit(s, c, p);
    }
  }

  lemma StepKin(s: State, a: Action)
    requires NoSelfParent(s.procs, s.init) && Parents(s.procs, s.init) && Forks(s.procs) && CarriedOnce(s)
             && Enabled(s, a)
    ensures NoSelfParent(Step(s, a).procs, s.init)
  {
    hide Forks;
    hide ProcAfter;
    var s', c, m := Step(s, a), s.cpus[a.c], a.move;
    assert CarriedOk(s.procs, c);
    KinAfter(s, c, m, s.init);
    EmbryoAfter(s, c, m, s.init);
    forall p | 0 <= p < |s'.procs|
      ensures s'.procs[p].parent != Some(p)
    {
      KinAfter(s, c, m, p);
      assert s.procs[p].parent != Some(p);
    }
  }

  /** Only exit makes zombies and it wakes the parent; only exit changes the parent of a
      zombie and it wakes init. */
  lemma ZombieAfterExit(s: State, c: Cpu, q: nat, p: nat)
    requires NoSelfParent(s.procs, s.init) && MayMove(s, c, Exit) && q < |s.procs| && p < |s.procs|
    requires var r := ExitedOne(s.procs, c.p, s.init, q); r.state.Zombie? && r.parent == Some(p)
    requires var r := ExitedOne(s.procs, c.p, s.init, p); r.state.Sleeping? && r.chan == Some(OnProc(p))
    ensures s.procs[q].state.Zombie? && s.procs[q].parent == Some(p)
    ensures s.procs[p].state.Sleeping? && s.procs[p].chan == Some(OnProc(p))
  {
  }

  lemma ZombieAfter(s: State, c: Cpu, m: Move, q: nat)
    requires Forks(s.procs) && CarriedOk(s.procs, c) && MayMove(s, c, m) && !m.Exit? && q < |s.procs|
    ensures ProcAfter(s, c, m, q).state.Zombie? ==>
              s.procs[q].state.Zombie? && ProcAfter(s, c, m, q).parent == s.procs[q].parent
    ensures ProcAfter(s, c, m, q).state.Sleeping? && !(Departs(c, m) && c.p == q) ==>
              s.procs[q].state.Sleeping? && ProcAfter(s, c, m, q).chan == s.procs[q].chan
    ensures m.Sleep? && c == Locked(q) ==> ProcAfter(s, c, m, q).chan == Some(m.chan)
  {
  }

  /** Only exit makes zombies, and it needs the lock that the scan holds. */
  lemma StepScans(s: State, a: Action)
    requires LockHeld(s) && CarriedOnce(s) && Forks(s.procs) && Scans(s) && Enabled(s, a)
    ensures Scans(Step(s, a))
  {
    hide Forks;
    hide ExitedOne;
    var s', c := Step(s, a), s.cpus[a.c];
    assert CarriedOk(s.procs, c);
    forall e | 0 <= e < |s'.cpus|
      ensures ScanOk(s'.procs, s'.cpus[e])
    {
      assert ScanOk(s.procs, s.cpus[e]);
      if s'.cpus[e].Looking? {
        assert HasLock(s.cpus[e]);
        forall q | 0 <= q < s'.cpus[e].i
          ensures !IsZombieChild(s'.procs[q], s'.cpus[e].p)
        {
          ZombieAfter(s, c, a.move, q);
        }
      }
    }
  }

  lemma StepWaits(s: State, a: Action)
    requires Waits(s.procs) && Scans(s) && NoSelfParent(s.procs, s.init) && Forks(s.procs) && CarriedOnce(s)
             && Enabled(s, a)
    ensures Waits(Step(s, a).procs)
  {
    hide Forks;
    hide NoSelfParent;
    hide ExitedOne;
    var s', c, m := Step(s, a), s.cpus[a.c], a.move;
    assert CarriedOk(s.procs, c) && ScanOk(s.procs, c);
    forall p | 0 <= p < |s'.procs| && s'.procs[p].state.Sleeping? && s'.procs[p].chan == Some(OnProc(p))
      ensures NoZombieChild(s'.procs, p)
    {
      forall q | 0 <= q < |s'.procs|
        ensures !IsZombieChild(s'.procs[q], p)
      {
        if IsZombieChild(s'.procs[q], p) {
          if m.Exit? {
            ZombieAfterExit(s, c, q, p);
          } else {
            ZombieAfter(s, c, m, q);
            ZombieAfter(s, c, m, p);
          }
          assert false;
        }
      }
    }
  }

  // ------------------------------------------------------------------- runs

  ghost function Exec(s: State, acts: seq<Action>): Option<State>
    decreases |acts|
  {
    if acts == [] then Some(s)
    else if Enabled(s, acts[0]) then Exec(Step(s, acts[0]), acts[1..])
    else None
  }

  lemma StepInv(s: State, a: Action)
    requires Inv(s) && Enabled(s, a)
    ensures Inv(Step(s, a))
  {
    hide Step;
    hide Enabled;
    hide LockHeld;
    hide CarriedOnce;
    hide RunningCarried;
    hide Forks;
    hide Parents;
    hide NoSelfParent;
    hide Scans;
    hide Waits;
    StepLock(s, a);
    StepCarried(s, a);
    StepRunning(s, a);
    StepForks(s, a);
    StepParents(s, a);
    StepKin(s, a);
    StepScans(s, a);
    StepWaits(s, a);
    StepSame(s, a);
  }

  lemma StepSame(s: State, a: Action)
    requires Enabled(s, a)
    ensures Step(s, a).init == s.init
  {
  }

  lemma {:induction false} RunKeeps(s: State, acts: seq<Action>)
    requires Inv(s) && Exec(s, acts).Some?
    ensures Inv(Exec(s, acts).value)
    decreases |acts|
  {
    hide Step;
    hide Enabled;
    hide Inv;
    if acts != [] {
      StepInv(s, acts[0]);
      RunKeeps(Step(s, acts[0]), acts[1..]);
    }
  }

  lemma Reachable(nproc: nat, ncpu: nat, init: nat, acts: seq<Action>)
    requires init < nproc && Exec(Start(nproc, ncpu, init), acts).Some?
    ensures Inv(Exec(Start(nproc, ncpu, init), acts).value)
  {
    hide Exec;
    RunKeeps(Start(nproc, ncpu, init), acts);
  }

  /** Across all interleavings a process is on at most one CPU, and a running process is
      on one; the stack a CPU is on has not been freed. */
  lemma OneCpuEach(nproc: nat, ncpu: nat, init: nat, acts: seq<Action>, c: nat, e: nat, p: nat)
    requires init < nproc && Exec(Start(nproc, ncpu, init), acts).Some?
    requires var s := Exec(Start(nproc, ncpu, init), acts).value;
             c < |s.cpus| && e < |s.cpus| && Carries(s.cpus[c], p) && Carries(s.cpus[e], p)
    ensures c == e
    ensures var s := Exec(Start(nproc, ncpu, init), acts).value;
            p < |s.procs| && s.procs[p].stack
              && (s.procs[p].state.Running? || (s.cpus[c].Leaving? && s.lock == Some(c)))
  {
    hide Exec;
    hide Parents;
    hide Waits;
    Reachable(nproc, ncpu, init, acts);
    var s := Exec(Start(nproc, ncpu, init), acts).value;
    assert CarriedOk(s.procs, s.cpus[c]);
    assert Shaped(s.procs[p]);
  }

  /** wait never frees the kernel stack of a process that is still on it. */
  lemma ReapedIsOffCpu(nproc: nat, ncpu: nat, init: nat, acts: seq<Action>, c: nat, q: nat, e: nat)
    requires init < nproc && Exec(Start(nproc, ncpu, init), acts).Some?
    requires var s := Exec(Start(nproc, ncpu, init), acts).value;
             Enabled(s, Action(c, Reap(q))) && e < |s.cpus|
    ensures !Carries(Exec(Start(nproc, ncpu, init), acts).value.cpus[e], q)
  {
    hide Exec;
    hide Parents;
    hide Waits;
    hide Forks;
    hide MayMove;
    Reachable(nproc, ncpu, init, acts);
    ZombieOffCpu(Exec(Start(nproc, ncpu, init), acts).value, c, q, e);
  }

  /** A zombie that is still on its stack has ptable.lock, and then nobody can reap it. */
  lemma ZombieOffCpu(s: State, c: nat, q: nat, e: nat)
    requires LockHeld(s) && CarriedOnce(s) && Enabled(s, Action(c, Reap(q))) && e < |s.cpus|
    ensures !Carries(s.cpus[e], q)
  {
    assert CarriedOk(s.procs, s.cpus[e]);
    assert CarriedOk(s.procs, s.cpus[c]);
  }

  /** Every started process but init has a parent that is neither unused, an embryo nor a
      zombie; and a parent asleep in wait has no zombie child. */
  lemma FamilyHolds(nproc: nat, ncpu: nat, init: nat, acts: seq<Action>, q: nat)
    requires init < nproc && Exec(Start(nproc, ncpu, init), acts).Some?
    requires q < |Exec(Start(nproc, ncpu, init), acts).value.procs|
    ensures var procs := Exec(Start(nproc, ncpu, init), acts).value.procs;
            && (q != init && (Alive(procs[q]) || procs[q].state.Zombie?) ==> HasParent(procs, q))
            && (procs[q].state.Sleeping? && procs[q].chan == Some(OnProc(q)) ==> NoZombieChild(procs, q))
  {
    hide Exec;
    Reachable(nproc, ncpu, init, acts);
    InitSame(Start(nproc, ncpu, init), acts);
  }

  lemma {:induction false} InitSame(s: State, acts: seq<Action>)
    requires Exec(s, acts).Some?
    ensures Exec(s, acts).value.init == s.init
    decreases |acts|
  {
    hide Step;
    hide Enabled;
    if acts != [] {
      StepSame(s, acts[0]);
      InitSame(Step(s, acts[0]), acts[1..]);
    }
  }

  // -------------------------------------------------- the loops over the table

  /** wait's scan, one entry a step, passes the entries that are no zombie children. */
  lemma {:induction false} ScanSteps(s: State, c: nat, p: nat, i: nat, k: nat)
    requires c < |s.cpus| && s.cpus[c] == Looking(p, i) && i + k <= |s.procs|
    requires forall q :: i <= q < i + k ==> !IsZombieChild(s.procs[q], p)
    ensures Exec(s, seq(k, _ => Action(c, WaitNext))) == Some(s.(cpus := s.cpus[c := Looking(p, i + k)]))
    decreases k
  {
    var acts := seq(k, _ => Action(c, WaitNext));
    if k == 0 {
      assert s.cpus[c := Looking(p, i)] == s.cpus;
    } else {
      var s' := Step(s, acts[0]);
      assert s'.procs == s.procs && s'.cpus == s.cpus[c := Looking(p, i + 1)];
      ScanSteps(s', c, p, i + 1, k - 1);
      assert acts[1..] == seq(k - 1, _ => Action(c, WaitNext));
      assert s'.cpus[c := Looking(p, i + k)] == s.cpus[c := Looking(p, i + k)];
    }
  }

  lemma {:induction false} ExecThen(s: State, acts: seq<Action>, more: seq<Action>)
    requires Exec(s, acts).Some?
    ensures Exec(s, acts + more) == Exec(Exec(s, acts).value, more)
    decreases |acts|
  {
    hide Step;
    hide Enabled;
    if acts == [] {
      assert acts + more == more;
    } else {
      ExecThen(Step(s, acts[0]), acts[1..], more);
      assert (acts + more)[1..] == acts[1..] + more;
    }
  }

  /** The steps of a scan end as the loop of ScanChildren does: with the first zombie
      child reaped, or past the last entry, where the process goes to sleep. */
  lemma ScanAsSteps(s: State, c: nat, p: nat, j: nat)
    requires c < |s.cpus| && s.cpus[c] == Looking(p, 0) && p < |s.procs| && j <= |s.procs|
    requires forall q :: 0 <= q < j ==> !IsZombieChild(s.procs[q], p)
    requires j < |s.procs| ==> IsZombieChild(s.procs[j], p)
    ensures var r := Exec(s, seq(j, _ => Action(c, WaitNext))
                          + [Action(c, if j < |s.procs| then Reap(j) else WaitSleep)]);
            && r.Some?
            && r.value.procs == if j < |s.procs|
               then s.procs[j := s.procs[j].(state := Unused, parent := None, stack := false)]
                                else s.procs[p := s.procs[p].(state := Sleeping, chan := Some(OnProc(p)))]
  {
    var last := Action(c, if j < |s.procs| then Reap(j) else WaitSleep);
    ScanSteps(s, c, p, 0, j);
    ExecThen(s, seq(j, _ => Action(c, WaitNext)), [last]);
    var s' := s.(cpus := s.cpus[c := Looking(p, j)]);
    assert Exec(s', [last]) == Exec(Step(s', last), []);
  }

  // ---------------------------------------------------------------- progress

  lemma {:induction false} RunCpus(s: State, acts: seq<Action>)
    requires Exec(s, acts).Some? && (s.lock.Some? ==> s.lock.value < |s.cpus|)
    ensures var t := Exec(s, acts).value; |t.cpus| == |s.cpus| && (t.lock.Some? ==> t.lock.value < |t.cpus|)
    decreases |acts|
  {
    if acts != [] { RunCpus(Step(s, acts[0]), acts[1..]); }
  }

  /** Some CPU can always take a step: ptable.lock is never left behind. */
  lemma NoDeadlock(nproc: nat, ncpu: nat, init: nat, acts: seq<Action>)
    requires init < nproc && ncpu > 0 && Exec(Start(nproc, ncpu, init), acts).Some?
    ensures exists a :: Enabled(Exec(Start(nproc, ncpu, init), acts).value, a)
  {
    hide Exec;
    Reachable(nproc, ncpu, init, acts);
    RunCpus(Start(nproc, ncpu, init), acts);
    HolderMoves(Exec(Start(nproc, ncpu, init), acts).value);
  }

  /** The holder of ptable.lock can go on; without one, any CPU can take it. */
  lemma HolderMoves(s: State)
    requires LockHeld(s) && Scans(s) && |s.cpus| > 0 && (s.lock.Some? ==> s.lock.value < |s.cpus|)
    ensures exists a :: Enabled(s, a)
  {
    var c := if s.lock.None? then 0 else s.lock.value;
    var cpu := s.cpus[c];
    assert HasLock(cpu) <==> s.lock == Some(c);
    assert ScanOk(s.procs, cpu);
    var m := if s.lock.None? then Acquire else if cpu.Chosen? then SwitchIn else if cpu.Leaving? then SwitchOut
             else if cpu.Looking? && cpu.i < |s.procs| then
               if IsZombieChild(s.procs[cpu.i], cpu.p) then Reap(cpu.i) else WaitNext
             else Release;
    assert Enabled(s, Action(c, m));
  }

  /** The moves of one CPU, one after the other. */
  function On(c: nat, moves: seq<Move>): seq<Action> {
    if moves == [] then [] else [Action(c, moves[0])] + On(c, moves[1..])
  }

  /** The first of them leaves the processes as ps and the CPU as cpu. */
  lemma Moves(s: State, c: nat, moves: seq<Move>, ps: seq<Proc>, cpu: Cpu)
    requires moves != [] && Enabled(s, Action(c, moves[0])) && cpu == CpuAfter(s.cpus[c], moves[0])
    requires |ps| == |s.procs| && forall q :: 0 <= q < |ps| ==> ps[q] == ProcAfter(s, s.cpus[c], moves[0], q)
    ensures var m := moves[0];
            Exec(s, On(c, moves)) ==
            Exec(State(ps, s.cpus[c := cpu], if m.Acquire? then Some(c) else if m.Release? then None else s.lock,
                       s.init), On(c, moves[1..]))
  {
    hide ProcAfter;
    hide CpuAfter;
    hide MayMove;
    assert On(c, moves)[1..] == On(c, moves[1..]);
    assert Step(s, Action(c, moves[0])).procs == ps;
  }

  lemma Ends(s: State, c: nat)
    ensures Exec(s, On(c, [])) == Some(s)
  {
  }

  /** An idle CPU takes any runnable process and runs it; nothing else changes. */
  lemma RunnableRuns(s: State, c: nat, p: nat)
    requires c < |s.cpus| && s.cpus[c].Idle? && s.lock.None? && p < |s.procs| && s.procs[p].state.Runnable?
    ensures Exec(s, On(c, [Acquire, Pick(p), SwitchIn, Release])) ==
            Some(s.(procs := s.procs[p := s.procs[p].(state := Running)], cpus := s.cpus[c := Free(p)]))
  {
    hide Exec;
    hide Step;
    hide On;
    var ps := s.procs[p := s.procs[p].(state := Running)];
    var s1 := State(s.procs, s.cpus[c := Scan], Some(c), s.init);
    var s2 := State(ps, s1.cpus[c := Chosen(p)], Some(c), s.init);
    var s3 := State(ps, s2.cpus[c := Locked(p)], Some(c), s.init);
    var moves := [Acquire, Pick(p), SwitchIn, Release];
    Moves(s, c, moves, s.procs, Scan);
    Moves(s1, c, moves[1..], ps, Chosen(p));
    Moves(s2, c, moves[1..][1..], ps, Locked(p));
    Moves(s3, c, moves[1..][1..][1..], ps, Free(p));
    assert moves[1..][1..][1..][1..] == [];
    assert s3.cpus[c := Free(p)] == s.cpus[c := Free(p)];
    Ends(State(ps, s.cpus[c := Free(p)], None, s.init), c);
  }

  /** fork, in full, when kalloc and copyuvm succeed: an unused entry becomes a runnable
      child with a kernel stack; nothing else changes. */
  lemma ForkLaunches(s: State, c: nat, p: nat, q: nat)
    requires c < |s.cpus| && s.cpus[c] == Free(p) && s.lock.None? && p < |s.procs| && q < |s.procs| && p != q
    requires s.procs[p].child.None? && s.procs[q].state.Unused? && !s.procs[q].stack
    ensures Exec(s, On(c, [Acquire, Alloc(q), Release, Stack, Adopt, Acquire, Launch, Release])) ==
            Some(s.(procs := s.procs[q := s.procs[q].(state := Runnable, parent := Some(p), stack := true)]))
  {
    hide Exec;
    hide Step;
    hide On;
    var ps := s.procs[p := s.procs[p].(child := Some(q))][q := s.procs[q].(state := Embryo)];
    var here := s.cpus[c := Locked(p)];
    assert here[c := Locked(p)] == here && here[c := Free(p)] == s.cpus;
    var moves := [Acquire, Alloc(q), Release, Stack, Adopt, Acquire, Launch, Release];
    Moves(s, c, moves, s.procs, Locked(p));
    Moves(State(s.procs, here, Some(c), s.init), c, moves[1..], ps, Locked(p));
    Moves(State(ps, here, Some(c), s.init), c, moves[1..][1..], ps, Free(p));
    assert moves[1..][1..][1..] == [Stack, Adopt, Acquire, Launch, Release];
    EmbryoLaunches(s, ps, c, p, q);
  }

  /** fork without the lock: the embryo gets a stack and a parent. */
  lemma EmbryoLaunches(s: State, ps: seq<Proc>, c: nat, p: nat, q: nat)
    requires c < |s.cpus| && s.cpus[c] == Free(p) && s.lock.None? && p < |s.procs| && q < |s.procs| && p != q
    requires s.procs[p].child.None? && !s.procs[q].stack
    requires ps == s.procs[p := s.procs[p].(child := Some(q))][q := s.procs[q].(state := Embryo)]
    ensures Exec(s.(procs := ps), On(c, [Stack, Adopt, Acquire, Launch, Release])) ==
            Some(s.(procs := s.procs[q := s.procs[q].(state := Runnable, parent := Some(p), stack := true)]))
  {
    hide Exec;
    hide Step;
    hide On;
    var ps1 := ps[q := ps[q].(stack := true)];
    var ps2 := ps1[q := ps1[q].(parent := Some(p))];
    assert s.cpus[c := Free(p)] == s.cpus;
    var moves := [Stack, Adopt, Acquire, Launch, Release];
    Moves(s.(procs := ps), c, moves, ps1, Free(p));
    Moves(s.(procs := ps1), c, moves[1..], ps2, Free(p));
    assert moves[1..][1..] == [Acquire, Launch, Release];
    Launched(s.(procs := ps2), c, p, q);
    assert ps2[q := ps2[q].(state := Runnable)][p := ps2[p].(child := None)] ==
           s.procs[q := s.procs[q].(state := Runnable, parent := Some(p), stack := true)];
  }

  /** The end of fork, under the lock. */
  lemma Launched(s: State, c: nat, p: nat, q: nat)
    requires c < |s.cpus| && s.cpus[c] == Free(p) && s.lock.None? && p < |s.procs| && q < |s.procs| && p != q
    requires s.procs[p].child == Some(q) && s.procs[q].parent.Some?
    ensures Exec(s, On(c, [Acquire, Launch, Release])) ==
            Some(s.(procs := s.procs[q := s.procs[q].(state := Runnable)][p := s.procs[p].(child := None)]))
  {
    hide Exec;
    hide Step;
    hide On;
    var ps := s.procs[q := s.procs[q].(state := Runnable)][p := s.procs[p].(child := None)];
    var here := s.cpus[c := Locked(p)];
    assert here[c := Locked(p)] == here && here[c := Free(p)] == s.cpus;
    var moves := [Acquire, Launch, Release];
    Moves(s, c, moves, s.procs, Locked(p));
    Moves(State(s.procs, here, Some(c), s.init), c, moves[1..], ps, Locked(p));
    Moves(State(ps, here, Some(c), s.init), c, moves[1..][1..], ps, Free(p));
    assert moves[1..][1..][1..] == [];
    Ends(s.(procs := ps), c);
  }

  /** kill makes the process runnable if it sleeps, and changes nothing else. */
  lemma KillWakes(s: State, c: nat, p: nat, q: nat)
    requires c < |s.cpus| && s.cpus[c] == Free(p) && s.lock.None? && q < |s.procs|
    ensures Exec(s, On(c, [Acquire, Kill(q), Release])) ==
            Some(if s.procs[q].state.Sleeping? then s.(procs := s.procs[q := s.procs[q].(state := Runnable)]) else s)
  {
    hide Exec;
    hide Step;
    hide On;
    var ps := if s.procs[q].state.Sleeping? then s.procs[q := s.procs[q].(state := Runnable)] else s.procs;
    var here := s.cpus[c := Locked(p)];
    assert here[c := Locked(p)] == here && here[c := Free(p)] == s.cpus;
    var moves := [Acquire, Kill(q), Release];
    Moves(s, c, moves, s.procs, Locked(p));
    Moves(State(s.procs, here, Some(c), s.init), c, moves[1..], ps, Locked(p));
    Moves(State(ps, here, Some(c), s.init), c, moves[1..][1..], ps, Free(p));
    assert moves[1..][1..][1..] == [];
    Ends(State(ps, s.cpus, None, s.init), c);
  }

  /** The loops that proc.c runs over ptable.proc with ptable.lock held. */
  class Table {
    var procs: seq<Proc>

    constructor (procs: seq<Proc>)
      ensures this.procs == procs
    {
      this.procs := procs;
    }

    method Wakeup1(chan: Chan)
      modifies this
      ensures |procs| == |old(procs)| && forall q :: 0 <= q < |procs| ==> procs[q] == WokenOne(old(procs)[q], chan)
      ensures forall q :: 0 <= q < |procs| ==>
                && (procs[q] != old(procs)[q] <==> old(procs)[q].state.Sleeping? && old(procs)[q].chan == Some(chan))
                && (procs[q] != old(procs)[q] ==> procs[q].state.Runnable?)
                && procs[q].(state := old(procs)[q].state) == old(procs)[q]
    {
      var i := 0;
      while i < |procs|
        invariant 0 <= i <= |procs| == |old(procs)|
        invariant forall q :: 0 <= q < |procs| ==>
                    procs[q] == if q < i then WokenOne(old(procs)[q], chan) else old(procs)[q]
      {
        if procs[i].state.Sleeping? && procs[i].chan == Some(chan) {
          procs := procs[i := procs[i].(state := Runnable)];
        }
        i := i + 1;
      }
    }

    /** exit, with the lock held, up to its call of sched. */
    method Exit(p: nat, init: nat)
      requires p < |procs| && init < |procs| && p != init
      modifies this
      ensures |procs| == |old(procs)| && forall q :: 0 <= q < |procs| ==> procs[q] == ExitedOne(old(procs), p, init, q)
      ensures forall q :: 0 <= q < |procs| ==> ExitEffect(old(procs), p, init, q, procs[q])
    {
      hide ExitEffect;
      if procs[p].parent.Some? {
        Wakeup1(OnProc(procs[p].parent.value));
      }
      ghost var first := procs;
      ghost var zombie := false;
      var i := 0;
      while i < |procs|
        invariant 0 <= i <= |procs| == |first| == |old(procs)|
        invariant zombie <==> exists q :: 0 <= q < i && IsZombieChild(first[q], p)
        invariant forall q :: 0 <= q < |procs| ==> procs[q] == Passed(first[q], p, init, q < i, zombie)
      {
        if procs[i].parent == Some(p) {
          procs := procs[i := procs[i].(parent := Some(init))];
          if procs[i].state.Zombie? {
            Wakeup1(OnProc(init));
            zombie := true;
          }
        }
        i := i + 1;
      }
      procs := procs[p := procs[p].(state := Zombie)];
      forall q | 0 <= q < |procs|
        ensures ExitEffect(old(procs), p, init, q, procs[q])
      {
        ExitedAs(old(procs), p, init, q);
      }
    }

    /** wait's scan: the first zombie child is reaped; without one, kids says whether
        there is any child to wait for. */
    method ScanChildren(p: nat) returns (found: Option<nat>, kids: bool)
      modifies this
      ensures found.None? ==> procs == old(procs) && NoZombieChild(procs, p)
      ensures found.None? ==> (kids <==> exists q :: 0 <= q < |procs| && procs[q].parent == Some(p))
      ensures found.Some? ==>
                && kids && found.value < |old(procs)| && old(procs)[found.value].parent == Some(p)
                   && old(procs)[found.value].state.Zombie?
                && (forall q :: 0 <= q < found.value ==> !IsZombieChild(old(procs)[q], p))
                && procs == old(procs)[found.value :=
                                         old(procs)[found.value].(state := Unused, parent := None, stack := false)]
    {
      kids := false;
      var i := 0;
      while i < |procs|
        invariant 0 <= i <= |procs| && procs == old(procs)
        invariant kids <==> exists q :: 0 <= q < i && procs[q].parent == Some(p)
        invariant forall q :: 0 <= q < i ==> !IsZombieChild(procs[q], p)
      {
        if procs[i].parent == Some(p) {
          kids := true;
          if procs[i].state.Zombie? {
            procs := procs[i := procs[i].(state := Unused, parent := None, stack := false)];
            return Some(i), true;
          }
        }
        i := i + 1;
      }
      return None, kids;
    }
  }

  /** A process during exit's loop over its children. */
  function Passed(r: Proc, p: nat, init: nat, seen: bool, zombie: bool): Proc {
    var r := if zombie then WokenOne(r, OnProc(init)) else r;
    if seen && r.parent == Some(p) then r.(parent := Some(init)) else r
  }
}

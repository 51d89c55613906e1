/** Readers, writers and closers of one pipe (pipe.c, proc.c), as steps that any
    number of processes interleave. Each acquire and release of a spin lock is a step
    of its own; one that would have to spin is not enabled.

    The file table keeps an end of the pipe open while a process is using it, so an
    end is closed, once, when no process is inside a call on it. */
module PipeProtocol {
  import opened Options
  import opened Blocks
  import opened Pipe

  /** pipewrite with the bytes still to send, piperead with the number still wanted
      and whether it has reached the copy loop, or pipeclose of an end. */
  datatype Task = Write(todo: seq<byte>) | Read(want: nat, copying: bool) | Close(writable: bool)

  datatype Phase =
    | Enter          // at acquire(p->lock)
    | Loop           // has p->lock, in the body
    | ToWake         // has p->lock, in wakeup at acquire(ptable.lock)
    | Wakes          // has both, at wakeup1
    | ToSleep        // has p->lock, in sleep at acquire(ptable.lock)
    | Handing        // has both, at release(p->lock)
    | Marking        // has ptable.lock, at p->state = SLEEPING
    | Asleep
    | Leaves         // has p->lock, at release(p->lock)

  datatype Pc = Outside | In(task: Task, phase: Phase)

  predicate HasSpin(pc: Pc) {
    pc.In? && (pc.phase.Loop? || pc.phase.ToWake? || pc.phase.Wakes? || pc.phase.ToSleep? || pc.phase.Handing?
               || pc.phase.Leaves?)
  }

  predicate HasTable(pc: Pc) { pc.In? && (pc.phase.Wakes? || pc.phase.Handing? || pc.phase.Marking?) }

  /** Inside the call, up to the last time it looks at the pipe. */
  predicate Reading(pc: Pc) { pc.In? && pc.task.Read? && !pc.phase.ToWake? && !pc.phase.Wakes? && !pc.phase.Leaves? }

  predicate Writing(pc: Pc) { pc.In? && pc.task.Write? && !pc.phase.Leaves? }

  /** The ring and its counters; the history of the bytes that pipewrite has put in and
      piperead has taken out; the open flags; and whether descriptors still refer to an end. */
  datatype State = State(
    buf: Buffer, accepted: seq<byte>, delivered: seq<byte>,
    readopen: bool, writeopen: bool, readEnd: bool, writeEnd: bool,
    spin: Option<nat>, table: Option<nat>, procs: seq<Pc>, killed: set<nat>)

  datatype Action = Call(p: nat, task: Task) | Advance(p: nat) | Kill(p: nat)

  /** pipealloc leaves whatever was in the page in the cells. */
  function Init(n: nat, junk: Cells): State {
    State(Buffer(junk, 0, 0), [], [], true, true, true, true, None, None, seq(n, _ => Outside), {})
  }

  predicate Full(s: State) { IsFull(s.buf.nread, s.buf.nwrite) }

  predicate Empty(s: State) { s.buf.nread == s.buf.nwrite }

  ghost predicate MayCall(s: State, t: Task) {
    match t
    case Write(_) => s.writeEnd
    case Read(_, copying) => s.readEnd && !copying
    case Close(true) => s.writeEnd && forall q :: 0 <= q < |s.procs| ==> !Writing(s.procs[q])
    case Close(false) => s.readEnd && forall q :: 0 <= q < |s.procs| ==> !Reading(s.procs[q])
  }

  ghost predicate Enabled(s: State, a: Action) {
    && a.p < |s.procs|
    && match a
       case Call(p, t) => s.procs[p].Outside? && p !in s.killed && MayCall(s, t)
       case Kill(p) => s.table.None?
       case Advance(p) =>
         && s.procs[p].In? && !s.procs[p].phase.Asleep?
         && (s.procs[p].phase.Enter? ==> s.spin.None?)
         && (s.procs[p].phase.ToWake? || s.procs[p].phase.ToSleep? ==> s.table.None?)
  }

  /** Whether the call wakes readers (&p->nread) or writers (&p->nwrite). */
  predicate WakesReaders(t: Task) { t.Write? || (t.Close? && t.writable) }

  /** wakeup1: processes asleep on the channel go back to acquiring p->lock. */
  function Woken(procs: seq<Pc>, readers: bool): (after: seq<Pc>)
    ensures |after| == |procs|
  {
    seq(|procs|, i requires 0 <= i < |procs| =>
      if procs[i].In? && procs[i].phase.Asleep? && (if readers then procs[i].task.Read? else procs[i].task.Write?)
         then In(procs[i].task, Enter) else procs[i])
  }

  /** pipewrite stores its next byte; piperead takes the oldest one. */
  predicate Sends(s: State, t: Task) { t.Write? && t.todo != [] && !Full(s) }

  predicate Takes(s: State, t: Task) { t.Read? && t.copying && t.want > 0 && !Empty(s) }

  /** The body of the call, with p->lock held: one byte, or one decision, at a time. */
  function BodyPc(s: State, t: Task, killed: bool): Pc {
    match t
    case Write(todo) =>
      if Sends(s, t) then In(Write(todo[1..]), Loop)
      else In(t, if todo != [] && (!s.readopen || killed) then Leaves else ToWake)
    case Read(n, copying) =>
      if !copying then (if Empty(s) && s.writeopen then In(t, if killed then Leaves else ToSleep)
                        else In(Read(n, true), Loop))
      else if Takes(s, t) then In(Read(n - 1, true), Loop) else In(t, ToWake)
    case Close(_) => In(t, ToWake)
  }

  function NextPc(s: State, pc: Pc, killed: bool): Pc
    requires pc.In?
  {
    match pc.phase
    case Enter => In(pc.task, Loop)
    case Loop => BodyPc(s, pc.task, killed)
    case ToWake => In(pc.task, Wakes)
    case Wakes => In(pc.task, if pc.task.Write? && pc.task.todo != [] then ToSleep else Leaves)
    case ToSleep => In(pc.task, Handing)
    case Handing => In(pc.task, Marking)
    case Marking => In(pc.task, Asleep)
    case Asleep => pc
    case Leaves => Outside
  }

  function Proceed(s: State, p: nat): State
    requires p < |s.procs| && s.procs[p].In?
  {
    var pc := s.procs[p];
    State(if !pc.phase.Loop? then s.buf
          else if Sends(s, pc.task) then s.buf.Put(pc.task.todo[0])
          else if Takes(s, pc.task) then s.buf.Drop() else s.buf,
          if pc.phase.Loop? && Sends(s, pc.task) then s.accepted + [pc.task.todo[0]] else s.accepted,
          if pc.phase.Loop? && Takes(s, pc.task) then s.delivered + [s.buf.Oldest()] else s.delivered,
          s.readopen && !(pc.phase.Loop? && pc.task == Close(false)),
          s.writeopen && !(pc.phase.Loop? && pc.task == Close(true)),
          s.readEnd,
          s.writeEnd,
          if pc.phase.Enter? then Some(p) else if pc.phase.Handing? || pc.phase.Leaves? then None else s.spin,
          if pc.phase.ToWake? || pc.phase.ToSleep? then Some(p)
          else if pc.phase.Wakes? || pc.phase.Marking? then None
          else s.table,
          (if pc.phase.Wakes? then Woken(s.procs, WakesReaders(pc.task)) else s.procs)
          [p := NextPc(s, pc, p in s.killed)],
          s.killed)
  }

  /** kill wakes a sleeping process. */
  function KilledPc(pc: Pc): Pc { if pc.In? && pc.phase.Asleep? && !pc.task.Close? then In(pc.task, Enter) else pc }

  ghost function Step(s: State, a: Action): State
    requires Enabled(s, a)
  {
    match a
    case Call(p, t) => s.(readEnd := s.readEnd && t != Close(false), writeEnd := s.writeEnd
                          && t != Close(true), procs := s.procs[p := In(t, Enter)])
    case Advance(p) => Proceed(s, p)
    case Kill(p) => s.(killed := s.killed + {p}, procs := s.procs[p := KilledPc(s.procs[p])])
  }

  // -------------------------------------------------------------- invariants

  ghost predicate SpinHeld(s: State) {
    forall p :: 0 <= p < |s.procs| ==> (HasSpin(s.procs[p]) <==> s.spin == Some(p))
  }

  ghost predicate TableHeld(s: State) {
    forall p :: 0 <= p < |s.procs| ==> (HasTable(s.procs[p]) <==> s.table == Some(p))
  }

  /** The ring holds, in order, the bytes accepted and not yet delivered. */
  ghost predicate Fifo(s: State) {
    Ring(s.buf.cells, s.buf.nread, s.buf.nwrite, s.accepted, s.delivered)
  }

  ghost predicate EndsOpen(s: State) {
    && (s.readEnd ==> s.readopen) && (s.writeEnd ==> s.writeopen)
    && (forall p :: 0 <= p < |s.procs| ==> EndOpen(s, s.procs[p]))
  }

  predicate EndOpen(s: State, pc: Pc) {
    && (Reading(pc) ==> s.readEnd) && (Writing(pc) ==> s.writeEnd)
    && (pc.In? && pc.task.Close? && (pc.phase.Enter? || pc.phase.Loop?) ==>
          !(if pc.task.writable then s.writeEnd else s.readEnd))
  }

  /** The holder of p->lock will wake the readers, or writers, before it lets go. */
  predicate WakeDue(s: State, readers: bool) {
    s.spin.Some? && s.spin.value < |s.procs| &&
    var pc := s.procs[s.spin.value];
    pc.In? && WakesReaders(pc.task) == readers &&
    (pc.phase.ToWake? || pc.phase.Wakes? || (pc.phase.Loop? && (pc.task.Write? || (pc.task.Read? && pc.task.copying))))
  }

  /** A process sleeps, or is bound to, only while it has to wait or its wakeup is
      on the way. */
  predicate Justified(s: State, pc: Pc) {
    pc.In? ==>
      match pc.phase
      case ToSleep | Handing => MustWait(s, pc.task)
      case Marking | Asleep => MustWait(s, pc.task) || (!pc.task.Close? && WakeDue(s, pc.task.Read?))
      case ToWake | Wakes => pc.task.Write? && pc.task.todo != [] ==> MustWait(s, pc.task)
      case _ => true
  }

  predicate MustWait(s: State, t: Task) {
    match t
    case Read(_, copying) => !copying && Empty(s) && s.writeopen
    case Write(todo) => todo != [] && Full(s) && s.readopen
    case Close(_) => false
  }

  ghost predicate SleepersJustified(s: State) {
    forall p :: 0 <= p < |s.procs| ==> Justified(s, s.procs[p])
  }

  /** Only the given processes write, and only the given ones are killed. */
  predicate Allowed(writers: set<nat>, victims: set<nat>, a: Action) {
    match a
    case Call(p, t) => t.Write? ==> p in writers
    case Kill(p) => p in victims
    case Advance(_) => true
  }

  ghost predicate Policy(s: State, writers: set<nat>, victims: set<nat>) {
    s.killed <= victims && forall p :: 0 <= p < |s.procs| && Writing(s.procs[p]) ==> p in writers
  }

  ghost predicate Inv(s: State) { SpinHeld(s) && TableHeld(s) && Fifo(s) && EndsOpen(s) && SleepersJustified(s) }

  lemma StepPolicy(s: State, a: Action, writers: set<nat>, victims: set<nat>)
    requires Policy(s, writers, victims) && Enabled(s, a) && Allowed(writers, victims, a)
    ensures Policy(Step(s, a), writers, victims)
  {
  }

  lemma StepSpin(s: State, a: Action)
    requires SpinHeld(s) && Enabled(s, a)
    ensures SpinHeld(Step(s, a))
  {
  }

  lemma StepTable(s: State, a: Action)
    requires TableHeld(s) && Enabled(s, a)
    ensures TableHeld(Step(s, a))
  {
  }

  lemma StepFifo(s: State, a: Action)
    requires Fifo(s) && Enabled(s, a)
    ensures Fifo(Step(s, a))
  {
    hide Ring;
    hide IsFull;
    if a.Advance? && s.procs[a.p].phase.Loop? {
      var t := s.procs[a.p].task;
      if Sends(s, t) {
        RingPut(s.buf.cells, s.buf.nread, s.buf.nwrite, s.accepted, s.delivered, t.todo[0]);
      } else if Takes(s, t) {
        RingGet(s.buf.cells, s.buf.nread, s.buf.nwrite, s.accepted, s.delivered);
      }
    }
  }

  lemma StepEnds(s: State, a: Action)
    requires EndsOpen(s) && Enabled(s, a)
    ensures EndsOpen(Step(s, a))
  {
    var s' := Step(s, a);
    assert EndOpen(s, s.procs[a.p]);
    forall q | 0 <= q < |s'.procs|
      ensures EndOpen(s', s'.procs[q])
    {
      assert EndOpen(s, s.procs[q]);
    }
  }

  lemma SelfJustified(s: State, a: Action)
    requires Inv(s) && Enabled(s, a)
    ensures Justified(Step(s, a), Step(s, a).procs[a.p])
  {
    assert Justified(s, s.procs[a.p]);
  }

  /** The step does not take a killed writer out of a full pipe. */
  predicate Spared(s: State, a: Action) {
    a.Advance? && a.p < |s.procs| && Writing(s.procs[a.p]) ==> a.p !in s.killed
  }

  lemma OtherJustified(s: State, a: Action, q: nat)
    requires Inv(s) && Enabled(s, a) && Spared(s, a) && q < |s.procs| && q != a.p
    ensures Justified(Step(s, a), Step(s, a).procs[q])
  {
    assert Justified(s, s.procs[a.p]);
    assert Justified(s, s.procs[q]);
  }

  lemma StepSleepers(s: State, a: Action)
    requires Inv(s) && Enabled(s, a) && Spared(s, a)
    ensures SleepersJustified(Step(s, a))
  {
    hide Justified;
    hide Inv;
    var s' := Step(s, a);
    forall q | 0 <= q < |s'.procs|
      ensures Justified(s', s'.procs[q])
    {
      if q == a.p {
        SelfJustified(s, a);
      } else {
        OtherJustified(s, a, q);
      }
    }
  }

  // ------------------------------------------------------------------- runs

  ghost function Exec(s: State, acts: seq<Action>): Option<State>
    decreases |acts|
  {
    if acts == [] then Some(s)
    else if Enabled(s, acts[0]) then Exec(Step(s, acts[0]), acts[1..])
    else None
  }

  ghost predicate AllAllowed(writers: set<nat>, victims: set<nat>, acts: seq<Action>) {
    forall i :: 0 <= i < |acts| ==> Allowed(writers, victims, acts[i])
  }

  lemma {:induction false} RunKeeps(s: State, acts: seq<Action>, writers: set<nat>, victims: set<nat>)
    requires Inv(s) && Policy(s, writers, victims) && writers !! victims && AllAllowed(writers, victims, acts)
             && Exec(s, acts).Some?
    ensures Inv(Exec(s, acts).value)
    decreases |acts|
  {
    hide Step;
    hide Enabled;
    hide Allowed;
    if acts != [] {
      StepPolicy(s, acts[0], writers, victims);
      StepSpin(s, acts[0]);
      StepTable(s, acts[0]);
      StepFifo(s, acts[0]);
      StepEnds(s, acts[0]);
      StepSleepers(s, acts[0]);
      RunKeeps(Step(s, acts[0]), acts[1..], writers, victims);
    }
  }

  predicate SleepingReader(pc: Pc) { pc.In? && pc.phase.Asleep? && pc.task.Read? }

  predicate SleepingWriter(pc: Pc) { pc.In? && pc.phase.Asleep? && pc.task.Write? }

  /** Once p->lock is free, a sleeping reader means an empty pipe whose write end is
      open, and a sleeping writer a full pipe whose read end is open. */
  ghost predicate NoneForgotten(s: State) {
    s.spin.None? ==> forall p :: 0 <= p < |s.procs| ==>
      (SleepingReader(s.procs[p]) ==> Empty(s) && s.writeopen) && (SleepingWriter(s.procs[p]) ==> Full(s) && s.readopen)
  }

  /** No wakeup is lost in any run in which no process that writes is killed. */
  lemma NoLostWakeup(n: nat, junk: Cells, acts: seq<Action>, writers: set<nat>, victims: set<nat>)
    requires writers !! victims && AllAllowed(writers, victims, acts) && Exec(Init(n, junk), acts).Some?
    ensures NoneForgotten(Exec(Init(n, junk), acts).value)
  {
    hide Exec;
    hide Step;
    InitInv(n, junk);
    RunKeeps(Init(n, junk), acts, writers, victims);
    var s := Exec(Init(n, junk), acts).value;
    forall p | 0 <= p < |s.procs| && s.spin.None?
      ensures (SleepingReader(s.procs[p]) ==> Empty(s) && s.writeopen)
              && (SleepingWriter(s.procs[p]) ==> Full(s) && s.readopen)
    {
      assert Justified(s, s.procs[p]);
    }
  }

  lemma {:induction false} RunFifo(s: State, acts: seq<Action>)
    requires Fifo(s) && Exec(s, acts).Some?
    ensures Fifo(Exec(s, acts).value)
    decreases |acts|
  {
    hide Step;
    hide Enabled;
    if acts != [] {
      StepFifo(s, acts[0]);
      RunFifo(Step(s, acts[0]), acts[1..]);
    }
  }

  /** For any number of readers and writers, killed or not, and through any wrap-around
      of the 32-bit counters, the bytes delivered are in order a prefix of the bytes
      accepted, and the counters differ by the bytes held, at most PIPESIZE. */
  lemma DeliversInOrder(n: nat, junk: Cells, acts: seq<Action>)
    requires Exec(Init(n, junk), acts).Some?
    ensures var s := Exec(Init(n, junk), acts).value;
            && s.delivered <= s.accepted
            && (s.buf.nwrite - s.buf.nread) % WRAP == |s.accepted| - |s.delivered| <= PIPESIZE
  {
    hide Exec;
    hide Step;
    InitInv(n, junk);
    RunFifo(Init(n, junk), acts);
    var s := Exec(Init(n, junk), acts).value;
    RingGap(s.buf.cells, s.buf.nread, s.buf.nwrite, s.accepted, s.delivered);
  }

  lemma InitInv(n: nat, junk: Cells)
    ensures Inv(Init(n, junk))
  {
  }

  // ---------------------------------------------------------------- progress

  /** No process can go on with its call. */
  ghost predicate Stuck(s: State) {
    forall p :: 0 <= p < |s.procs| ==> !Enabled(s, Advance(p))
  }

  lemma {:induction false} RunCount(s: State, acts: seq<Action>)
    requires Exec(s, acts).Some?
    requires (s.spin.Some? ==> s.spin.value < |s.procs|) && (s.table.Some? ==> s.table.value < |s.procs|)
    ensures var t := Exec(s, acts).value;
            |t.procs| == |s.procs| && (t.spin.Some? ==> t.spin.value < |t.procs|)
              && (t.table.Some? ==> t.table.value < |t.procs|)
    decreases |acts|
  {
    if acts != [] { RunCount(Step(s, acts[0]), acts[1..]); }
  }

  /** The holder of a spin lock can go on, unless it is another that it needs. */
  lemma HolderGoesOn(s: State)
    requires SpinHeld(s) && TableHeld(s)
    requires (s.spin.Some? ==> s.spin.value < |s.procs|) && (s.table.Some? ==> s.table.value < |s.procs|)
    ensures s.table.Some? ==> Enabled(s, Advance(s.table.value))
    ensures s.table.None? && s.spin.Some? ==> Enabled(s, Advance(s.spin.value))
  {
    if s.table.Some? {
      assert HasTable(s.procs[s.table.value]);
    } else if s.spin.Some? {
      assert HasSpin(s.procs[s.spin.value]);
    }
  }

  /** In a run in which no process that writes is killed, the calls under way stop only
      together: every one of them is a read of an empty pipe whose write end is open, or
      every one a write to a full pipe whose read end is open. */
  lemma StuckExactly(n: nat, junk: Cells, acts: seq<Action>, writers: set<nat>, victims: set<nat>)
    requires writers !! victims && AllAllowed(writers, victims, acts) && Exec(Init(n, junk), acts).Some?
    ensures var s := Exec(Init(n, junk), acts).value;
            Stuck(s) <==> forall p :: 0 <= p < |s.procs| && s.procs[p].In? ==>
              (SleepingReader(s.procs[p]) && Empty(s) && s.writeopen)
              || (SleepingWriter(s.procs[p]) && Full(s) && s.readopen)
    ensures var s := Exec(Init(n, junk), acts).value;
            Stuck(s) ==> forall p, q :: 0 <= p < |s.procs| && 0 <= q < |s.procs| ==>
              !(SleepingReader(s.procs[p]) && SleepingWriter(s.procs[q]))
  {
    hide Exec;
    hide Step;
    InitInv(n, junk);
    RunKeeps(Init(n, junk), acts, writers, victims);
    RunCount(Init(n, junk), acts);
    var s := Exec(Init(n, junk), acts).value;
    if Stuck(s) {
      HolderGoesOn(s);
      forall p | 0 <= p < |s.procs| && s.procs[p].In?
        ensures (SleepingReader(s.procs[p]) && Empty(s) && s.writeopen)
                || (SleepingWriter(s.procs[p]) && Full(s) && s.readopen)
      {
        assert !Enabled(s, Advance(p)) && Justified(s, s.procs[p]);
      }
    }
  }

  // ------------------------------------------------- calls that nobody disturbs

  /** k steps of process p. */
  function Steps(p: nat, k: nat): (acts: seq<Action>)
    ensures |acts| == k
  {
    seq(k, _ => Advance(p))
  }

  lemma Goes(s: State, p: nat, k: nat)
    requires Enabled(s, Advance(p))
    ensures Exec(s, Steps(p, k + 1)) == Exec(Proceed(s, p), Steps(p, k))
  {
    hide Enabled;
    hide Proceed;
    assert Steps(p, k + 1)[1..] == Steps(p, k);
  }

  lemma Stays(s: State, p: nat)
    ensures Exec(s, Steps(p, 0)) == Some(s)
  {
  }

  /** Process p at pc, with the pipe's lock. */
  function Inside(s: State, p: nat, pc: Pc): State
    requires p < |s.procs|
  {
    s.(spin := Some(p), procs := s.procs[p := pc])
  }

  lemma Acquires(s: State, p: nat, t: Task)
    requires p < |s.procs| && s.procs[p] == In(t, Enter) && s.spin.None?
    ensures Enabled(s, Advance(p)) && Proceed(s, p) == Inside(s, p, In(t, Loop))
  {
  }

  /** piperead finds bytes, or no writers, and begins to copy. */
  lemma BeginsCopy(s: State, p: nat, n: nat)
    requires p < |s.procs| && s.procs[p] == In(Read(n, false), Loop) && (!Empty(s) || !s.writeopen)
    ensures Enabled(s, Advance(p)) && Proceed(s, p) == s.(procs := s.procs[p := In(Read(n, true), Loop)])
  {
  }

  lemma EndsCopy(s: State, p: nat, n: nat)
    requires p < |s.procs| && s.procs[p] == In(Read(n, true), Loop) && (n == 0 || Empty(s))
    ensures Enabled(s, Advance(p)) && Proceed(s, p) == s.(procs := s.procs[p := In(Read(n, true), ToWake)])
  {
  }

  lemma ClosesEnd(s: State, p: nat, writable: bool)
    requires p < |s.procs| && s.procs[p] == In(Close(writable), Loop)
    ensures Enabled(s, Advance(p))
    ensures Proceed(s, p) == s.(readopen := s.readopen && writable, writeopen := s.writeopen && !writable,
                                procs := s.procs[p := In(Close(writable), ToWake)])
  {
  }

  /** The call and its acquire. */
  lemma Enters(s: State, p: nat, t: Task, k: nat)
    requires Enabled(s, Call(p, t)) && s.spin.None? && !t.Close?
    ensures Exec(s, [Call(p, t)] + Steps(p, k + 1)) == Exec(Inside(s, p, In(t, Loop)), Steps(p, k))
  {
    var s1 := Step(s, Call(p, t));
    assert ([Call(p, t)] + Steps(p, k + 1))[1..] == Steps(p, k + 1);
    Goes(s1, p, k);
    assert Proceed(s1, p).procs == s.procs[p := In(t, Loop)];
  }

  /** From the wakeup to the end of the call. */
  lemma WakesAndLeaves(s: State, p: nat, t: Task)
    requires p < |s.procs| && s.procs[p] == In(t, ToWake) && s.table.None? && s.spin == Some(p)
    requires !(t.Write? && t.todo != [])
    ensures Exec(s, Steps(p, 3)) == Some(s.(spin := None, procs := Woken(s.procs, WakesReaders(t))[p := Outside]))
  {
    hide Exec;
    hide Woken;
    var s1 := s.(table := Some(p), procs := s.procs[p := In(t, Wakes)]);
    var s2 := s.(procs := Woken(s1.procs, WakesReaders(t))[p := In(t, Leaves)]);
    var s3 := s.(spin := None, procs := s2.procs[p := Outside]);
    Goes(s, p, 2);
    Goes(s1, p, 1);
    Goes(s2, p, 0);
    Stays(s3, p);
    WokenOthers(s.procs, WakesReaders(t), p, In(t, Wakes), Outside);
    assert s3.procs == Woken(s1.procs, WakesReaders(t))[p := Outside];
  }

  lemma WokenOthers(procs: seq<Pc>, readers: bool, p: nat, pc: Pc, pc': Pc)
    requires p < |procs|
    ensures Woken(procs[p := pc], readers)[p := pc'] == Woken(procs, readers)[p := pc']
  {
  }

  /** piperead's copy loop takes n bytes, or all there are. */
  lemma {:induction false} TakesRun(s: State, p: nat, n: nat, k: nat, more: nat) returns (t: State)
    requires Fifo(s) && p < |s.procs| && s.procs[p] == In(Read(n, true), Loop)
    requires k <= n && k <= |s.accepted| - |s.delivered|
    ensures Exec(s, Steps(p, k + more)) == Exec(t, Steps(p, more)) && Fifo(t)
    ensures |s.delivered| + k <= |s.accepted|
    ensures t == s.(buf := t.buf, delivered := s.delivered + s.accepted[|s.delivered|..|s.delivered| + k],
                    procs := s.procs[p := In(Read(n - k, true), Loop)])
    decreases k
  {
    hide Exec;
    hide Fifo;
    hide Proceed;
    hide Enabled;
    hide Steps;
    FifoGap(s);
    if k == 0 {
      t := s;
      assert s.delivered + s.accepted[|s.delivered|..|s.delivered|] == s.delivered;
      assert s.procs[p := s.procs[p]] == s.procs;
    } else {
      TakesOldest(s, p, n);
      Goes(s, p, k - 1 + more);
      var s1 := Proceed(s, p);
      t := TakesRun(s1, p, n - 1, k - 1, more);
      NextBytes(s.delivered, s.accepted, k);
      assert s1.procs[p := In(Read(n - k, true), Loop)] == s.procs[p := In(Read(n - k, true), Loop)];
    }
  }

  lemma FifoGap(s: State)
    requires Fifo(s)
    ensures |s.delivered| <= |s.accepted| <= |s.delivered| + PIPESIZE
    ensures (Empty(s) <==> |s.accepted| == |s.delivered|) && (Full(s) <==> |s.accepted| == |s.delivered| + PIPESIZE)
  {
    RingGap(s.buf.cells, s.buf.nread, s.buf.nwrite, s.accepted, s.delivered);
  }

  lemma NextBytes(d: seq<byte>, a: seq<byte>, k: nat)
    requires 0 < k && |d| + k <= |a|
    ensures d + [a[|d|]] + a[|d| + 1..|d| + k] == d + a[|d|..|d| + k]
  {
    assert a[|d|..|d| + k] == [a[|d|]] + a[|d| + 1..|d| + k];
  }

  lemma OldestIs(s: State)
    requires Fifo(s) && !Empty(s)
    ensures |s.delivered| < |s.accepted| && s.buf.Oldest() == s.accepted[|s.delivered|]
  {
    FifoGap(s);
    RingGet(s.buf.cells, s.buf.nread, s.buf.nwrite, s.accepted, s.delivered);
    assert (s.delivered + [s.buf.Oldest()])[|s.delivered|] == s.accepted[|s.delivered|];
  }

  lemma TakesOldest(s: State, p: nat, n: nat)
    requires Fifo(s) && p < |s.procs| && s.procs[p] == In(Read(n, true), Loop) && n > 0 && !Empty(s)
    ensures |s.delivered| < |s.accepted| && Enabled(s, Advance(p)) && Fifo(Proceed(s, p))
    ensures Proceed(s, p) == s.(buf := s.buf.Drop(), delivered := s.delivered + [s.accepted[|s.delivered|]],
                                procs := s.procs[p := In(Read(n - 1, true), Loop)])
  {
    hide Fifo;
    FifoGap(s);
    StepFifo(s, Advance(p));
    OldestIs(s);
  }

  /** pipewrite's loop stores what there is room for. */
  lemma {:induction false} SendsRun(s: State, p: nat, todo: seq<byte>, k: nat, more: nat) returns (t: State)
    requires Fifo(s) && p < |s.procs| && s.procs[p] == In(Write(todo), Loop)
    requires k <= |todo| && |s.accepted| + k <= |s.delivered| + PIPESIZE
    ensures Exec(s, Steps(p, k + more)) == Exec(t, Steps(p, more)) && Fifo(t)
    ensures t == s.(buf := t.buf, accepted := s.accepted + todo[..k],
                    procs := s.procs[p := In(Write(todo[k..]), Loop)])
    decreases k
  {
    hide Exec;
    hide Fifo;
    hide Proceed;
    hide Enabled;
    hide Steps;
    FifoGap(s);
    if k == 0 {
      t := s;
      assert s.accepted + todo[..0] == s.accepted && todo[0..] == todo;
      assert s.procs[p := s.procs[p]] == s.procs;
    } else {
      SendsNext(s, p, todo);
      Goes(s, p, k - 1 + more);
      var s1 := Proceed(s, p);
      t := SendsRun(s1, p, todo[1..], k - 1, more);
      assert s.accepted + [todo[0]] + todo[1..][..k - 1] == s.accepted + todo[..k];
      assert todo[1..][k - 1..] == todo[k..];
      assert s1.procs[p := In(Write(todo[k..]), Loop)] == s.procs[p := In(Write(todo[k..]), Loop)];
    }
  }

  lemma SendsNext(s: State, p: nat, todo: seq<byte>)
    requires Fifo(s) && p < |s.procs| && s.procs[p] == In(Write(todo), Loop) && todo != [] && !Full(s)
    ensures Enabled(s, Advance(p)) && Fifo(Proceed(s, p))
    ensures Proceed(s, p) == s.(buf := s.buf.Put(todo[0]), accepted := s.accepted + [todo[0]],
                                procs := s.procs[p := In(Write(todo[1..]), Loop)])
  {
    hide Fifo;
    StepFifo(s, Advance(p));
  }

  /** From piperead's copy loop to its return. */
  lemma CopiesAndLeaves(s: State, p: nat, n: nat, k: nat) returns (t: State)
    requires Fifo(s) && p < |s.procs| && s.procs[p] == In(Read(n, true), Loop) && s.table.None? && s.spin == Some(p)
    requires k == if n < |s.accepted| - |s.delivered| then n else |s.accepted| - |s.delivered|
    ensures |s.delivered| + k <= |s.accepted| && Exec(s, Steps(p, k + 4)) == Some(t) && Fifo(t)
    ensures t == s.(buf := t.buf, delivered := s.delivered + s.accepted[|s.delivered|..|s.delivered| + k],
                    spin := None, procs := Woken(s.procs, false)[p := Outside])
  {
    hide Exec;
    hide Fifo;
    hide Woken;
    hide Steps;
    hide Proceed;
    hide Enabled;
    var s1 := TakesRun(s, p, n, k, 4);
    FifoGap(s1);
    var end := Read(n - k, true);
    EndsCopy(s1, p, n - k);
    Goes(s1, p, 3);
    var s2 := s1.(procs := s.procs[p := In(end, ToWake)]);
    assert s1.procs[p := In(end, ToWake)] == s2.procs;
    WakesAndLeaves(s2, p, end);
    WokenOthers(s.procs, false, p, In(end, ToWake), Outside);
    t := s2.(spin := None, procs := Woken(s.procs, false)[p := Outside]);
    SameFifo(s1, t);
  }

  /** piperead, undisturbed, of a pipe that has bytes or no writers: it delivers the n
      oldest bytes, or all there are, wakes the writers and returns. */
  lemma ReadReturns(s: State, p: nat, n: nat) returns (t: State)
    requires Fifo(s) && Enabled(s, Call(p, Read(n, false))) && s.spin.None? && s.table.None?
    requires !Empty(s) || !s.writeopen
    ensures var held := |s.accepted| - |s.delivered|;
            var k := if n < held then n else held;
            && 0 <= k <= held && Exec(s, [Call(p, Read(n, false))] + Steps(p, k + 6)) == Some(t) && Fifo(t)
            && t == s.(buf := t.buf, delivered := s.delivered + s.accepted[|s.delivered|..|s.delivered| + k],
                       procs := Woken(s.procs, false)[p := Outside])
  {
    hide Exec;
    hide Fifo;
    hide Woken;
    hide Steps;
    hide Proceed;
    hide Enabled;
    FifoGap(s);
    var held := |s.accepted| - |s.delivered|;
    var k := if n < held then n else held;
    CallFits(s, p, Read(n, false));
    Enters(s, p, Read(n, false), k + 5);
    var s1 := Inside(s, p, In(Read(n, false), Loop));
    BeginsCopy(s1, p, n);
    Goes(s1, p, k + 4);
    var s2 := Inside(s, p, In(Read(n, true), Loop));
    assert s1.procs[p := In(Read(n, true), Loop)] == s2.procs;
    SameFifo(s, s2);
    t := CopiesAndLeaves(s2, p, n, k);
    WokenOthers(s.procs, false, p, In(Read(n, true), Loop), Outside);
  }

  lemma SameFifo(s: State, t: State)
    requires Fifo(s) && t.buf == s.buf && t.accepted == s.accepted && t.delivered == s.delivered
    ensures Fifo(t)
  {
  }

  /** pipewrite, undisturbed, with the read end open: what there is room for is
      accepted and the readers are woken; it returns if that is all, and sleeps with the
      rest otherwise. */
  lemma WriteReturns(s: State, p: nat, todo: seq<byte>) returns (t: State)
    requires Fifo(s) && Enabled(s, Call(p, Write(todo))) && s.spin.None? && s.table.None? && s.readopen
    ensures var room := |s.delivered| + PIPESIZE - |s.accepted|;
            && room >= 0 && Fifo(t)
            && if |todo| <= room
               then && Exec(s, [Call(p, Write(todo))] + Steps(p, |todo| + 5)) == Some(t)
                    && t == s.(buf := t.buf, accepted := s.accepted + todo,
                               procs := Woken(s.procs, true)[p := Outside])
               else && Exec(s, [Call(p, Write(todo))] + Steps(p, room + 7)) == Some(t)
                    && t == s.(buf := t.buf, accepted := s.accepted + todo[..room],
                               procs := Woken(s.procs, true)[p := In(Write(todo[room..]), Asleep)])
  {
    hide Exec;
    hide Fifo;
    hide Woken;
    FifoGap(s);
    var room := |s.delivered| + PIPESIZE - |s.accepted|;
    var k, more := if |todo| <= room then |todo| else room, if |todo| <= room then 4 else 6;
    Enters(s, p, Write(todo), k + more);
    var s1 := Inside(s, p, In(Write(todo), Loop));
    SameFifo(s, s1);
    var s2 := SendsRun(s1, p, todo, k, more);
    FifoGap(s2);
    Goes(s2, p, more - 1);
    var rest := Write(todo[k..]);
    var s3 := s2.(procs := s.procs[p := In(rest, ToWake)]);
    assert Proceed(s2, p).procs == s3.procs;
    WokenOthers(s.procs, true, p, In(rest, ToWake), Outside);
    WokenOthers(s.procs, true, p, In(rest, ToWake), In(rest, Asleep));
    if |todo| <= room {
      WakesAndLeaves(s3, p, rest);
      t := s3.(spin := None, procs := Woken(s.procs, true)[p := Outside]);
      assert todo[..k] == todo;
    } else {
      WakesAndSleeps(s3, p, rest);
      t := s3.(spin := None, procs := Woken(s.procs, true)[p := In(rest, Asleep)]);
    }
    SameFifo(s2, t);
  }

  lemma WakesAndSleeps(s: State, p: nat, t: Task)
    requires p < |s.procs| && s.procs[p] == In(t, ToWake) && s.table.None? && s.spin == Some(p)
    requires t.Write? && t.todo != []
    ensures Exec(s, Steps(p, 5)) == Some(s.(spin := None, procs := Woken(s.procs, true)[p := In(t, Asleep)]))
  {
    hide Exec;
    hide Woken;
    var s1 := s.(table := Some(p), procs := s.procs[p := In(t, Wakes)]);
    var s2 := s.(procs := Woken(s1.procs, true)[p := In(t, ToSleep)]);
    var s3 := s.(table := Some(p), procs := s2.procs[p := In(t, Handing)]);
    var s4 := s.(spin := None, table := Some(p), procs := s3.procs[p := In(t, Marking)]);
    var s5 := s.(spin := None, procs := s4.procs[p := In(t, Asleep)]);
    Goes(s, p, 4);
    Goes(s1, p, 3);
    Goes(s2, p, 2);
    Goes(s3, p, 1);
    Goes(s4, p, 0);
    Stays(s5, p);
    WokenOthers(s.procs, true, p, In(t, Wakes), In(t, Asleep));
    assert s5.procs == Woken(s1.procs, true)[p := In(t, Asleep)];
  }

  /** pipeclose, undisturbed: the end is closed and the other side woken. */
  lemma CloseReturns(s: State, p: nat, writable: bool)
    requires Enabled(s, Call(p, Close(writable))) && s.spin.None? && s.table.None?
    ensures Exec(s, [Call(p, Close(writable))] + Steps(p, 5)) ==
            Some(s.(readopen := s.readopen && writable, writeopen := s.writeopen && !writable,
                    readEnd := s.readEnd && writable, writeEnd := s.writeEnd && !writable,
                    procs := Woken(s.procs, writable)[p := Outside]))
  {
    hide Exec;
    hide Woken;
    hide Steps;
    hide Proceed;
    var t := Close(writable);
    var s0 := s.(readEnd := s.readEnd && writable, writeEnd := s.writeEnd && !writable);
    var s1 := s0.(procs := s.procs[p := In(t, Enter)]);
    ExecCall(s, p, t, 5);
    Acquires(s1, p, t);
    Goes(s1, p, 4);
    var s2 := Inside(s0, p, In(t, Loop));
    assert s1.procs[p := In(t, Loop)] == s2.procs;
    ClosesEnd(s2, p, writable);
    Goes(s2, p, 3);
    var s3 := Inside(s0.(readopen := s.readopen && writable, writeopen := s.writeopen && !writable), p, In(t, ToWake));
    assert s2.procs[p := In(t, ToWake)] == s3.procs;
    WakesAndLeaves(s3, p, t);
    WokenOthers(s.procs, writable, p, In(t, ToWake), Outside);
  }

  lemma CallFits(s: State, p: nat, t: Task)
    requires Enabled(s, Call(p, t))
    ensures p < |s.procs|
  {
  }

  lemma ExecCall(s: State, p: nat, t: Task, k: nat)
    requires Enabled(s, Call(p, t))
    ensures Exec(s, [Call(p, t)] + Steps(p, k)) == Exec(Step(s, Call(p, t)), Steps(p, k))
  {
    hide Enabled;
    hide Step;
    assert ([Call(p, t)] + Steps(p, k))[1..] == Steps(p, k);
  }

  // ------------------------------------------------- a killed writer, exactly

  ghost predicate Reaches(s: State, t: State, writers: set<nat>, victims: set<nat>) {
    exists acts :: AllAllowed(writers, victims, acts) && Exec(s, acts) == Some(t)
  }

  lemma {:induction false} ExecOneMore(s: State, acts: seq<Action>, a: Action)
    requires Exec(s, acts).Some? && Enabled(Exec(s, acts).value, a)
    ensures Exec(s, acts + [a]) == Some(Step(Exec(s, acts).value, a))
    decreases |acts|
  {
    hide Step;
    hide Enabled;
    if acts == [] {
      assert acts + [a] == [a] && [a][1..] == [];
    } else {
      ExecOneMore(Step(s, acts[0]), acts[1..], a);
      assert (acts + [a])[1..] == acts[1..] + [a];
    }
  }

  lemma ReachesNothing(s: State, writers: set<nat>, victims: set<nat>)
    ensures Reaches(s, s, writers, victims)
  {
    assert AllAllowed(writers, victims, []) && Exec(s, []) == Some(s);
  }

  lemma ReachesOneMore(s: State, t: State, writers: set<nat>, victims: set<nat>, a: Action)
    requires Reaches(s, t, writers, victims) && Enabled(t, a) && Allowed(writers, victims, a)
    ensures Reaches(s, Step(t, a), writers, victims)
  {
    hide Step;
    hide Enabled;
    hide Allowed;
    var acts :| AllAllowed(writers, victims, acts) && Exec(s, acts) == Some(t);
    ExecOneMore(s, acts, a);
    assert AllAllowed(writers, victims, acts + [a]);
  }

  /** Reader q at the given phase, before anyone writes. */
  function ReaderAt(n: nat, junk: Cells, q: nat, ph: Phase, spin: Option<nat>, table: Option<nat>): State
    requires q < n
  {
    State(Buffer(junk, 0, 0), [], [], true, true, true, true, spin, table,
          seq(n, _ => Outside)[q := In(Read(1, false), ph)], {})
  }

  lemma ReaderSleeps(n: nat, junk: Cells, q: nat, writers: set<nat>, victims: set<nat>)
    requires q < n
    ensures Reaches(Init(n, junk), ReaderAt(n, junk, q, Asleep, None, None), writers, victims)
  {
    hide Reaches;
    var s := Init(n, junk);
    ReachesNothing(s, writers, victims);
    ReachesOneMore(s, s, writers, victims, Call(q, Read(1, false)));
    assert Step(s, Call(q, Read(1, false))) == ReaderAt(n, junk, q, Enter, None, None);
    ReaderStep(n, junk, q, Enter, None, None, Loop, Some(q), None);
    ReachesOneMore(s, ReaderAt(n, junk, q, Enter, None, None), writers, victims, Advance(q));
    ReaderStep(n, junk, q, Loop, Some(q), None, ToSleep, Some(q), None);
    ReachesOneMore(s, ReaderAt(n, junk, q, Loop, Some(q), None), writers, victims, Advance(q));
    ReaderStep(n, junk, q, ToSleep, Some(q), None, Handing, Some(q), Some(q));
    ReachesOneMore(s, ReaderAt(n, junk, q, ToSleep, Some(q), None), writers, victims, Advance(q));
    ReaderStep(n, junk, q, Handing, Some(q), Some(q), Marking, None, Some(q));
    ReachesOneMore(s, ReaderAt(n, junk, q, Handing, Some(q), Some(q)), writers, victims, Advance(q));
    ReaderStep(n, junk, q, Marking, None, Some(q), Asleep, None, None);
    ReachesOneMore(s, ReaderAt(n, junk, q, Marking, None, Some(q)), writers, victims, Advance(q));
  }

  /** One step of the reader of an empty pipe. */
  lemma ReaderStep(n: nat, junk: Cells, q: nat, ph: Phase, spin: Option<nat>, table: Option<nat>, ph': Phase,
                   spin': Option<nat>, table': Option<nat>)
    requires q < n && !ph.Asleep? && !ph.Wakes? && !ph.ToWake? && !ph.Leaves?
    requires (ph.Enter? ==> spin.None?) && (ph.ToSleep? ==> table.None?)
    requires ph' == match ph case Enter => Loop case Loop => ToSleep case ToSleep => Handing case Handing =>
               Marking case _ => Asleep
    requires spin' == if ph.Enter? then Some(q) else if ph.Handing? then None else spin
    requires table' == if ph.ToSleep? then Some(q) else if ph.Marking? then None else table
    ensures Enabled(ReaderAt(n, junk, q, ph, spin, table), Advance(q))
    ensures Step(ReaderAt(n, junk, q, ph, spin, table), Advance(q)) == ReaderAt(n, junk, q, ph', spin', table')
  {
    var s := ReaderAt(n, junk, q, ph, spin, table);
    assert Step(s, Advance(q)).procs == ReaderAt(n, junk, q, ph', spin', table').procs;
  }

  /** One byte more than the pipe holds. */
  function TooMuch(): seq<byte> { seq(PIPESIZE + 1, _ => 0) }

  /** The ring after k zero bytes. */
  function Sent(junk: Cells, k: nat): Buffer { if k == 0 then Buffer(junk, 0, 0) else Sent(junk, k - 1).Put(0) }

  lemma {:induction false} SentCount(junk: Cells, k: nat)
    requires k <= PIPESIZE
    ensures Sent(junk, k).nread == 0 && Sent(junk, k).nwrite == k
  {
    if k > 0 {
      SentCount(junk, k - 1);
    }
  }

  /** With reader q asleep, writer p has been killed and has sent k bytes. */
  function WriterAt(n: nat, junk: Cells, p: nat, q: nat, k: nat, pc: Pc, spin: Option<nat>): State
    requires p < n && q < n && k <= PIPESIZE
  {
    State(Sent(junk, k), TooMuch()[..k], [], true, true, true, true, spin, None,
          seq(n, _ => Outside)[q := In(Read(1, false), Asleep)][p := pc], {p})
  }

  lemma WriterEnters(n: nat, junk: Cells, p: nat, q: nat, writers: set<nat>, victims: set<nat>)
    requires p < n && q < n && p != q && p in writers && p in victims
    ensures Reaches(Init(n, junk), WriterAt(n, junk, p, q, 0, In(Write(TooMuch()), Loop), Some(p)), writers, victims)
  {
    hide Reaches;
    hide TooMuch;
    ReaderSleeps(n, junk, q, writers, victims);
    var s := ReaderAt(n, junk, q, Asleep, None, None);
    var bytes := TooMuch();
    ReachesOneMore(Init(n, junk), s, writers, victims, Call(p, Write(bytes)));
    var t := Step(s, Call(p, Write(bytes)));
    ReachesOneMore(Init(n, junk), t, writers, victims, Kill(p));
    var u := Step(t, Kill(p));
    ReachesOneMore(Init(n, junk), u, writers, victims, Advance(p));
    var w := WriterAt(n, junk, p, q, 0, In(Write(bytes), Loop), Some(p));
    assert Step(u, Advance(p)).procs == w.procs && Step(u, Advance(p)).killed == w.killed && w.accepted == [];
    assert Step(u, Advance(p)) == w;
  }

  lemma WriterSends(n: nat, junk: Cells, p: nat, q: nat, k: nat)
    requires p < n && q < n && p != q && k < PIPESIZE
    ensures var s := WriterAt(n, junk, p, q, k, In(Write(TooMuch()[k..]), Loop), Some(p));
            Enabled(s, Advance(p)) && Step(s, Advance(p)) ==
                WriterAt(n, junk, p, q, k + 1, In(Write(TooMuch()[k + 1..]), Loop), Some(p))
  {
    hide TooMuch;
    TooMuchSize();
    SentCount(junk, k);
    var bytes := TooMuch();
    var s := WriterAt(n, junk, p, q, k, In(Write(bytes[k..]), Loop), Some(p));
    var t := WriterAt(n, junk, p, q, k + 1, In(Write(bytes[k + 1..]), Loop), Some(p));
    assert bytes[k..][0] == bytes[k] == 0;
    assert bytes[k..][1..] == bytes[k + 1..] && bytes[..k] + [bytes[k..][0]] == bytes[..k + 1];
    assert Step(s, Advance(p)).procs == t.procs;
  }

  lemma TooMuchSize()
    ensures |TooMuch()| == PIPESIZE + 1 && forall k :: 0 <= k <= PIPESIZE ==> TooMuch()[k] == 0
  {
  }

  lemma {:induction false} WriterFills(n: nat, junk: Cells, p: nat, q: nat, k: nat, writers: set<nat>,
                                       victims: set<nat>)
    requires p < n && q < n && p != q && p in writers && p in victims && k <= PIPESIZE
    ensures |TooMuch()| == PIPESIZE + 1
    ensures Reaches(Init(n, junk), WriterAt(n, junk, p, q, k, In(Write(TooMuch()[k..]), Loop), Some(p)), writers,
                    victims)
  {
    hide Reaches;
    hide TooMuch;
    hide Step;
    hide Enabled;
    TooMuchSize();
    if k == 0 {
      WriterEnters(n, junk, p, q, writers, victims);
      assert TooMuch()[0..] == TooMuch();
    } else {
      WriterFills(n, junk, p, q, k - 1, writers, victims);
      WriterSends(n, junk, p, q, k - 1);
      ReachesOneMore(Init(n, junk), WriterAt(n, junk, p, q, k - 1, In(Write(TooMuch()[k - 1..]), Loop), Some(p)),
                     writers, victims, Advance(p));
    }
  }

  /** The killed writer leaves a full pipe and a reader asleep on it. */
  lemma KilledWriterForgets(n: nat, junk: Cells, p: nat, q: nat, writers: set<nat>, victims: set<nat>)
    requires p < n && q < n && p != q && p in writers && p in victims
    ensures exists t :: Reaches(Init(n, junk), t, writers, victims) && !NoneForgotten(t)
  {
    hide Reaches;
    hide TooMuch;
    WriterFills(n, junk, p, q, PIPESIZE, writers, victims);
    var rest := TooMuch()[PIPESIZE..];
    SentCount(junk, PIPESIZE);
    var s := WriterAt(n, junk, p, q, PIPESIZE, In(Write(rest), Loop), Some(p));
    ReachesOneMore(Init(n, junk), s, writers, victims, Advance(p));
    var t := Step(s, Advance(p));
    assert t.procs[p] == In(Write(rest), Leaves);
    ReachesOneMore(Init(n, junk), t, writers, victims, Advance(p));
    var u := Step(t, Advance(p));
    assert u.procs[q] == In(Read(1, false), Asleep) && SleepingReader(u.procs[q]);
  }

  /** No wakeup is ever lost if and only if no process that writes may be killed. */
  lemma SafeExactly(n: nat, junk: Cells, writers: set<nat>, victims: set<nat>)
    requires n >= 2 && forall p :: p in writers ==> p < n
    ensures (forall t :: Reaches(Init(n, junk), t, writers, victims) ==> NoneForgotten(t)) <==> writers !! victims
  {
    hide NoneForgotten;
    hide Exec;
    if writers !! victims {
      forall t | Reaches(Init(n, junk), t, writers, victims)
        ensures NoneForgotten(t)
      {
        var acts :| AllAllowed(writers, victims, acts) && Exec(Init(n, junk), acts) == Some(t);
        NoLostWakeup(n, junk, acts, writers, victims);
      }
    } else {
      var p :| p in writers && p in victims;
      KilledWriterForgets(n, junk, p, if p == 0 then 1 else 0, writers, victims);
    }
  }
}

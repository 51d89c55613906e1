/** The concurrent side of log.c: begin_op, log_write, end_op and commit as
    steps that any number of processes interleave.

    log_write tests for space before it takes log.lock, so its test and its
    append are separate steps. An action that log.lock or a sleep would hold back
    is not enabled. A run is a list of enabled actions from the initial state. */
module LogProtocol {
  import opened Options
  import opened CrashLog

  /** A process outside any FS system call, or inside one: the distinct blocks
      it has logged, the block it has tested and not yet appended, and the
      commit it will belong to. */
  datatype Proc = Outside | InOp(logged: set<nat>, pending: Option<nat>, gen: nat)

  /** An operation that has called end_op. */
  datatype Ended = Ended(blocks: set<nat>, gen: nat)

  datatype State = State(
    header: seq<nat>,          // lh.block[0..lh.n)
    outstanding: int,
    committing: bool,
    procs: seq<Proc>,
    ended: seq<Ended>,
    commits: seq<set<nat>>,    // the blocks of each transaction written so far
    panicked: bool)

  datatype Action =
    | Begin(p: nat)
    | Test(p: nat, b: nat)
    | Append(p: nat)
    | End(p: nat)
    | Commit       // commit() has written the transaction and set lh.n to 0
    | Release      // end_op clears log.committing

  function Init(n: nat): State {
    State([], 0, false, seq(n, _ => Outside), [], [], false)
  }

  /** lh.n + (outstanding + 1) * MAXOPBLOCKS > LOGSIZE makes begin_op sleep. */
  predicate MayBegin(s: State) {
    !s.committing && |s.header| + (s.outstanding + 1) * MAXOPBLOCKS <= LOGSIZE
  }

  /** Each operation logs at most k distinct blocks. The log has LOGSIZE blocks,
      one of them the header, as mkfs lays it out. */
  predicate Enabled(k: nat, s: State, a: Action) {
    && !s.panicked
    && match a
       case Begin(p) => p < |s.procs| && s.procs[p].Outside? && MayBegin(s)
       case Test(p, b) => p < |s.procs| && s.procs[p].InOp? && s.procs[p].pending.None?
         && |s.procs[p].logged + {b}| <= k
       case Append(p) => p < |s.procs| && s.procs[p].InOp? && s.procs[p].pending.Some?
       case End(p) => p < |s.procs| && s.procs[p].InOp? && s.procs[p].pending.None?
       case Commit => s.committing && s.header != []
       case Release => s.committing && s.header == []
  }

  function Step(k: nat, s: State, a: Action): State
    requires Enabled(k, s, a)
  {
    match a
    case Begin(p) =>
      s.(outstanding := s.outstanding + 1, procs := s.procs[p := InOp({}, None, |s.commits|)])
    case Test(p, b) =>
      if |s.header| >= LOGSIZE || |s.header| >= LOGSIZE - 1 || s.outstanding < 1
      then s.(panicked := true)
      else s.(procs := s.procs[p := s.procs[p].(pending := Some(b))])
    case Append(p) =>
      var b := s.procs[p].pending.value;
      s.(header := Absorbed(s.header, b),
         procs := s.procs[p := s.procs[p].(pending := None, logged := s.procs[p].logged + {b})])
    case End(p) =>
      var s' := s.(outstanding := s.outstanding - 1, procs := s.procs[p := Outside],
                   ended := s.ended + [Ended(s.procs[p].logged, s.procs[p].gen)]);
      if s.committing then s'.(panicked := true)
      else s'.(committing := s'.outstanding == 0)
    case Commit => s.(header := [], commits := s.commits + [Listed(s.header)])
    case Release => s.(committing := false)
  }

  /** The state after a list of actions, if each was enabled in its turn. */
  function Exec(k: nat, s: State, acts: seq<Action>): Option<State>
    decreases |acts|
  {
    if acts == [] then Some(s)
    else if Enabled(k, s, acts[0]) then Exec(k, Step(k, s, acts[0]), acts[1..])
    else None
  }

  // ------------------------------------------------------------ reservation

  function Reserve(k: nat, p: Proc): nat {
    if p.InOp? && |p.logged| <= k then k - |p.logged| else 0
  }

  function Reserved(k: nat, ps: seq<Proc>): nat {
    if ps == [] then 0 else Reserved(k, ps[..|ps|-1]) + Reserve(k, ps[|ps|-1])
  }

  function Active(ps: seq<Proc>): nat {
    if ps == [] then 0 else Active(ps[..|ps|-1]) + if ps[|ps|-1].InOp? then 1 else 0
  }

  lemma {:induction false} ReservedUpdate(k: nat, ps: seq<Proc>, i: nat, p: Proc)
    requires i < |ps|
    ensures Reserved(k, ps[i := p]) == Reserved(k, ps) - Reserve(k, ps[i]) + Reserve(k, p)
    ensures Active(ps[i := p]) == Active(ps) - (if ps[i].InOp? then 1 else 0) + (if p.InOp? then 1 else 0)
  {
    var n := |ps| - 1;
    var qs := ps[i := p];
    if i == n {
      assert qs[..n] == ps[..n];
    } else {
      assert qs[..n] == ps[..n][i := p];
      ReservedUpdate(k, ps[..n], i, p);
    }
  }

  lemma {:induction false} ReservedAtMost(k: nat, ps: seq<Proc>)
    ensures Reserved(k, ps) <= k * Active(ps)
  {
    if |ps| > 0 {
      ReservedAtMost(k, ps[..|ps|-1]);
    }
  }

  lemma {:induction false} NobodyActive(ps: seq<Proc>, i: nat)
    requires i < |ps| && Active(ps) == 0
    ensures ps[i].Outside?
  {
    if i < |ps| - 1 {
      NobodyActive(ps[..|ps|-1], i);
    }
  }

  ghost predicate Fits(k: nat, p: Proc, header: seq<nat>) {
    p.InOp? ==>
        |p.logged| <= k && (p.pending.Some? ==> |p.logged + {p.pending.value}| <= k) && p.logged <= Listed(header)
  }

  /** What every step keeps, for operations of at most k blocks: header entries
      plus what active operations may still log never exceed MAXOPBLOCKS + 2k. */
  ghost predicate Reservation(k: nat, s: State) {
    && s.outstanding == Active(s.procs)
    && (s.committing ==> s.outstanding == 0)
    && (!s.committing && s.outstanding == 0 ==> s.header == [])
    && |s.header| + Reserved(k, s.procs) <= MAXOPBLOCKS + 2 * k
    && (forall i :: 0 <= i < |s.procs| ==> Fits(k, s.procs[i], s.header))
  }

  lemma {:induction false} InitIdle(n: nat, k: nat)
    ensures Active(seq(n, _ => Outside)) == 0 && Reserved(k, seq(n, _ => Outside)) == 0
  {
    if n > 0 {
      assert seq(n, _ => Outside)[..n-1] == seq(n - 1, _ => Outside);
      InitIdle(n - 1, k);
    }
  }

  /** The arithmetic of admission: m operations will be active, n blocks are
      listed and the other operations may still log r. */
  lemma AdmissionBound(k: nat, n: nat, m: nat, r: nat)
    requires 1 <= m && k <= MAXOPBLOCKS && n + m * MAXOPBLOCKS <= LOGSIZE && r <= k * (m - 1) && (m == 1 ==> n == 0)
    ensures n + r + k <= MAXOPBLOCKS + 2 * k
  {
    if m == 2 { assert r <= k; }
    if m == 3 { assert r <= 2 * k; }
  }

  lemma BeginKeeps(k: nat, s: State, p: nat)
    requires Reservation(k, s) && Enabled(k, s, Begin(p)) && k <= MAXOPBLOCKS
    ensures Reservation(k, Step(k, s, Begin(p)))
  {
    var q := InOp({}, None, |s.commits|);
    ReservedUpdate(k, s.procs, p, q);
    ReservedAtMost(k, s.procs);
    AdmissionBound(k, |s.header|, s.outstanding + 1, Reserved(k, s.procs));
  }

  lemma AbsorbedLists(h: seq<nat>, b: nat)
    ensures Listed(Absorbed(h, b)) == Listed(h) + {b}
    ensures |Absorbed(h, b)| == |h| + if b in Listed(h) then 0 else 1
  {
  }

  /** The header grows only when the operation's own set of blocks does. */
  lemma LoggedMore(k: nat, logged: set<nat>, b: nat, h: seq<nat>)
    requires logged <= Listed(h) && |logged + {b}| <= k
    ensures |logged + {b}| == |logged| + if b in logged then 0 else 1
    ensures b in logged ==> b in Listed(h)
  {
    if b in logged {
      assert logged + {b} == logged;
    }
  }

  lemma AppendKeeps(k: nat, s: State, p: nat)
    requires Reservation(k, s) && Enabled(k, s, Append(p))
    ensures Reservation(k, Step(k, s, Append(p)))
  {
    hide Listed;
    hide Absorbed;
    var q := s.procs[p];
    var b := q.pending.value;
    ReservedUpdate(k, s.procs, p, q.(pending := None, logged := q.logged + {b}));
    assert Fits(k, q, s.header);
    if Active(s.procs) == 0 { NobodyActive(s.procs, p); }
    AbsorbedLists(s.header, b);
    LoggedMore(k, q.logged, b, s.header);
  }

  lemma EndKeeps(k: nat, s: State, p: nat)
    requires Reservation(k, s) && Enabled(k, s, End(p))
    ensures !s.committing && Reservation(k, Step(k, s, End(p)))
  {
    ReservedUpdate(k, s.procs, p, Outside);
    if Active(s.procs) == 0 { NobodyActive(s.procs, p); }
  }

  lemma CommitKeeps(k: nat, s: State)
    requires Reservation(k, s) && Enabled(k, s, Commit)
    ensures Reservation(k, Step(k, s, Commit))
  {
    forall i | 0 <= i < |s.procs|
      ensures s.procs[i].Outside?
    {
      NobodyActive(s.procs, i);
    }
  }

  lemma TestKeeps(k: nat, s: State, p: nat, b: nat)
    requires Reservation(k, s) && Enabled(k, s, Test(p, b)) && k < MAXOPBLOCKS
    ensures !Step(k, s, Test(p, b)).panicked && Reservation(k, Step(k, s, Test(p, b)))
  {
    ReservedUpdate(k, s.procs, p, s.procs[p].(pending := Some(b)));
    if Active(s.procs) == 0 { NobodyActive(s.procs, p); }
  }

  lemma StepKeepsReservation(k: nat, s: State, a: Action)
    requires Reservation(k, s) && Enabled(k, s, a) && k < MAXOPBLOCKS
    ensures Reservation(k, Step(k, s, a)) && !Step(k, s, a).panicked
  {
    match a
    case Begin(p) => BeginKeeps(k, s, p);
    case Test(p, b) => TestKeeps(k, s, p, b);
    case Append(p) => AppendKeeps(k, s, p);
    case End(p) => EndKeeps(k, s, p);
    case Commit => CommitKeeps(k, s);
    case Release =>
  }

  lemma {:induction false} RunKeepsReservation(k: nat, s: State, acts: seq<Action>)
    requires k < MAXOPBLOCKS && Reservation(k, s) && !s.panicked && Exec(k, s, acts).Some?
    ensures var t := Exec(k, s, acts).value; Reservation(k, t) && !t.panicked
    decreases |acts|
  {
    if acts != [] {
      StepKeepsReservation(k, s, acts[0]);
      RunKeepsReservation(k, Step(k, s, acts[0]), acts[1..]);
    }
  }

  /** For every interleaving of operations of at most k blocks, the header
      stays within MAXOPBLOCKS + 2k entries, so below log_write's limit. */
  lemma HeaderBound(k: nat, n: nat, acts: seq<Action>)
    requires k < MAXOPBLOCKS && Exec(k, Init(n), acts).Some?
    ensures |Exec(k, Init(n), acts).value.header| <= MAXOPBLOCKS + 2 * k < LOGSIZE - 1
  {
    InitIdle(n, k);
    RunKeepsReservation(k, Init(n), acts);
  }

  // ----------------------------------------------------------- exact condition

  ghost predicate PanicFree(k: nat) {
    forall n: nat, acts: seq<Action> :: Exec(k, Init(n), acts).Some? ==> !Exec(k, Init(n), acts).value.panicked
  }

  lemma {:induction false} ExecThen(k: nat, s: State, xs: seq<Action>, ys: seq<Action>)
    requires Exec(k, s, xs).Some?
    ensures Exec(k, s, xs + ys) == Exec(k, Exec(k, s, xs).value, ys)
    decreases |xs|
  {
    if xs == [] {
      assert xs + ys == ys;
    } else {
      assert (xs + ys)[1..] == xs[1..] + ys;
      ExecThen(k, Step(k, s, xs[0]), xs[1..], ys);
    }
  }

  lemma ExecTwo(k: nat, s: State, a: Action, b: Action)
    requires Enabled(k, s, a) && Enabled(k, Step(k, s, a), b)
    ensures Exec(k, s, [a, b]) == Some(Step(k, Step(k, s, a), b))
  {
    var t := Step(k, s, a);
    assert [a, b][1..] == [b];
    assert Exec(k, t, [b]) == Exec(k, Step(k, t, b), []);
  }

  /** The n blocks from lo on. */
  function Range(lo: nat, n: nat): (r: set<nat>)
    ensures |r| == n && forall x :: x in r <==> lo <= x < lo + n
  {
    if n == 0 then {} else Range(lo, n - 1) + {lo + n - 1}
  }

  /** Three operations have begun and, in turn, logged blocks 0..j-1, ten each. */
  function Filled(j: nat): State {
    State(seq(j, i requires 0 <= i => i), 3, false, [Filling(0, j), Filling(1, j), Filling(2, j)], [], [], false)
  }

  function Filling(p: nat, j: nat): Proc {
    InOp(Range(10 * p, if j < 10 * p then 0 else if j < 10 * p + 10 then j - 10 * p else 10), None, 0)
  }

  lemma TestFilled(k: nat, p: nat, j: nat)
    requires MAXOPBLOCKS <= k && p < 3 && 10 * p <= j < 10 * p + 10
    ensures Enabled(k, Filled(j), Test(p, j))
    ensures Step(k, Filled(j), Test(p, j)) ==
            if j < LOGSIZE - 1 then Filled(j).(procs := Filled(j).procs[p := Filling(p, j).(pending := Some(j))])
            else Filled(j).(panicked := true)
  {
    hide Range;
    assert Filling(p, j).logged + {j} == Filling(p, j + 1).logged;
  }

  lemma FillOne(k: nat, p: nat, j: nat)
    requires MAXOPBLOCKS <= k && p < 3 && 10 * p <= j < 10 * p + 10 && j < LOGSIZE - 1
    ensures Exec(k, Filled(j), [Test(p, j), Append(p)]) == Some(Filled(j + 1))
  {
    hide Range;
    var s := Filled(j);
    TestFilled(k, p, j);
    var t := Step(k, s, Test(p, j));
    assert Filling(p, j).logged + {j} == Filling(p, j + 1).logged;
    FillingOthers(p, j);
    var u := Step(k, t, Append(p));
    assert j !in s.header && u.header == s.header + [j] == Filled(j + 1).header;
    assert u.procs == Filled(j + 1).procs;
    assert u == Filled(j + 1);
    ExecTwo(k, s, Test(p, j), Append(p));
  }

  lemma FillingOthers(p: nat, j: nat)
    requires 10 * p <= j < 10 * p + 10
    ensures forall r: nat :: r != p ==> Filling(r, j) == Filling(r, j + 1)
  {
    hide Range;
  }

  function FillActs(j: nat): seq<Action> {
    if j == 0 then [] else FillActs(j - 1) + [Test((j - 1) / 10, j - 1), Append((j - 1) / 10)]
  }

  lemma {:induction false} FillAll(k: nat, j: nat)
    requires MAXOPBLOCKS <= k && j < LOGSIZE
    ensures Exec(k, Filled(0), FillActs(j)) == Some(Filled(j))
  {
    hide Range;
    if j > 0 {
      FillAll(k, j - 1);
      FillOne(k, (j - 1) / 10, j - 1);
      ExecThen(k, Filled(0), FillActs(j - 1), [Test((j - 1) / 10, j - 1), Append((j - 1) / 10)]);
    }
  }

  function Begins(): seq<Action> { [Begin(0), Begin(1)] + [Begin(2)] }

  lemma AllBegin(k: nat)
    ensures Exec(k, Init(3), Begins()) == Some(Filled(0))
  {
    var s := Init(3);
    var s1 := Step(k, s, Begin(0));
    var s2 := Step(k, s1, Begin(1));
    assert Step(k, s2, Begin(2)).procs == Filled(0).procs;
    assert Step(k, s2, Begin(2)) == Filled(0);
    ExecTwo(k, s, Begin(0), Begin(1));
    ExecThen(k, s, [Begin(0), Begin(1)], [Begin(2)]);
    assert Exec(k, s, Begins()) == Exec(k, Filled(0), []);
  }

  lemma LastPanics(k: nat, j: nat)
    requires MAXOPBLOCKS <= k && LOGSIZE - 1 <= j < LOGSIZE
    ensures var acts := Begins() + FillActs(j) + [Test(2, j)];
            Exec(k, Init(3), acts).Some? && Exec(k, Init(3), acts).value.panicked
  {
    hide Range;
    AllBegin(k);
    FillAll(k, j);
    ExecThen(k, Init(3), Begins(), FillActs(j));
    ExecThen(k, Init(3), Begins() + FillActs(j), [Test(2, j)]);
    TestFilled(k, 2, j);
    assert Exec(k, Filled(j), [Test(2, j)]) == Exec(k, Filled(j).(panicked := true), []);
  }

  /** begin_op reserves LOGSIZE blocks but log_write refuses the last of them:
      three operations of MAXOPBLOCKS blocks each, as begin_op allows, panic. */
  lemma FullBudgetPanics(k: nat)
    requires MAXOPBLOCKS <= k
    ensures exists acts :: Exec(k, Init(3), acts).Some? && Exec(k, Init(3), acts).value.panicked
  {
    LastPanics(k, LOGSIZE - 1);
  }

  /** "too big a transaction" (and log_write's and end_op's other panics) is
      unreachable exactly when operations log fewer than MAXOPBLOCKS blocks. */
  lemma PanicFreeExactly(k: nat)
    ensures PanicFree(k) <==> k < MAXOPBLOCKS
  {
    if k < MAXOPBLOCKS {
      forall n: nat, acts: seq<Action> | Exec(k, Init(n), acts).Some?
        ensures !Exec(k, Init(n), acts).value.panicked
      {
        InitIdle(n, k);
        RunKeepsReservation(k, Init(n), acts);
      }
    } else {
      FullBudgetPanics(k);
    }
  }

  // ------------------------------------------- operations and transactions

  /** end_op starts a commit only when no operation is left. */
  ghost predicate Quiescent(s: State) {
    && s.outstanding == Active(s.procs)
    && (s.committing ==> s.outstanding == 0)
  }

  ghost predicate ActiveLogged(ps: seq<Proc>, b: nat) {
    exists p :: 0 <= p < |ps| && ps[p].InOp? && b in ps[p].logged
  }

  ghost predicate EndedLogged(es: seq<Ended>, g: nat, b: nat) {
    exists i :: 0 <= i < |es| && es[i].gen == g && b in es[i].blocks
  }

  /** Where the blocks of each operation are: an active operation belongs to the
      transaction being collected, an ended one to that or to one commit. */
  ghost predicate Whole(s: State) {
    && (forall p :: 0 <= p < |s.procs| && s.procs[p].InOp? ==>
                      s.procs[p].gen == |s.commits| && s.procs[p].logged <= Listed(s.header))
    && (forall i :: 0 <= i < |s.ended| ==>
                      && s.ended[i].gen <= |s.commits|
                      && s.ended[i].blocks <= if s.ended[i].gen < |s.commits| then s.commits[s.ended[i].gen]
                         else Listed(s.header))
  }

  /** A transaction holds blocks of its own operations and nothing else. */
  ghost predicate Owned(s: State) {
    && (forall b :: b in s.header ==> ActiveLogged(s.procs, b) || EndedLogged(s.ended, |s.commits|, b))
    && (forall g, b :: 0 <= g < |s.commits| && b in s.commits[g] ==> EndedLogged(s.ended, g, b))
  }

  ghost predicate History(s: State) {
    Quiescent(s) && Whole(s) && Owned(s)
  }

  lemma StepKeepsQuiescent(k: nat, s: State, a: Action)
    requires Quiescent(s) && Enabled(k, s, a)
    ensures Quiescent(Step(k, s, a))
    ensures a.Append? || a.End? || a.Test? ==> !s.committing
    ensures a.Commit? ==> forall p :: 0 <= p < |s.procs| ==> s.procs[p].Outside?
  {
    var s' := Step(k, s, a);
    if a.Commit? {
      forall p | 0 <= p < |s.procs|
        ensures s.procs[p].Outside?
      {
        NobodyActive(s.procs, p);
      }
    } else if !a.Release? {
      ReservedUpdate(k, s.procs, a.p, s'.procs[a.p]);
      if s.procs[a.p].InOp? && Active(s.procs) == 0 { NobodyActive(s.procs, a.p); }
      assert s'.procs == s.procs[a.p := s'.procs[a.p]];
    }
  }

  lemma HeaderAfter(k: nat, s: State, a: Action)
    requires Enabled(k, s, a)
    ensures !a.Commit? ==> Listed(s.header) <= Listed(Step(k, s, a).header)
    ensures a.Append? ==> s.procs[a.p].pending.value in Listed(Step(k, s, a).header)
  {
  }

  lemma ActiveWhole(k: nat, s: State, a: Action, p: nat)
    requires Quiescent(s) && Whole(s) && Enabled(k, s, a)
    requires var s' := Step(k, s, a); p < |s'.procs| && s'.procs[p].InOp?
    ensures var s' := Step(k, s, a); s'.procs[p].gen == |s'.commits| && s'.procs[p].logged <= Listed(s'.header)
  {
    hide Listed;
    StepKeepsQuiescent(k, s, a);
    HeaderAfter(k, s, a);
  }

  lemma EndedWhole(k: nat, s: State, a: Action, i: nat)
    requires Quiescent(s) && Whole(s) && Enabled(k, s, a)
    requires i < |Step(k, s, a).ended|
    ensures var s' := Step(k, s, a);
            && s'.ended[i].gen <= |s'.commits|
            && s'.ended[i].blocks <= if s'.ended[i].gen < |s'.commits| then s'.commits[s'.ended[i].gen]
               else Listed(s'.header)
  {
    hide Listed;
    StepKeepsQuiescent(k, s, a);
    HeaderAfter(k, s, a);
  }

  lemma StepKeepsWhole(k: nat, s: State, a: Action)
    requires Quiescent(s) && Whole(s) && Enabled(k, s, a)
    ensures Whole(Step(k, s, a))
  {
    hide Step;
    hide Enabled;
    hide Listed;
    var s' := Step(k, s, a);
    forall p | 0 <= p < |s'.procs| && s'.procs[p].InOp?
      ensures s'.procs[p].gen == |s'.commits| && s'.procs[p].logged <= Listed(s'.header)
    {
      ActiveWhole(k, s, a, p);
    }
    forall i | 0 <= i < |s'.ended|
      ensures s'.ended[i].gen <= |s'.commits|
      ensures s'.ended[i].blocks <= if s'.ended[i].gen < |s'.commits| then s'.commits[s'.ended[i].gen]
              else Listed(s'.header)
    {
      EndedWhole(k, s, a, i);
    }
  }

  lemma OwnersKept(s: State, s': State, g: nat, b: nat)
    requires forall i :: 0 <= i < |s.ended| ==> i < |s'.ended| && s'.ended[i] == s.ended[i]
    ensures EndedLogged(s.ended, g, b) ==> EndedLogged(s'.ended, g, b)
  {
    if EndedLogged(s.ended, g, b) {
      var i :| 0 <= i < |s.ended| && s.ended[i].gen == g && b in s.ended[i].blocks;
      assert s'.ended[i].gen == g;
    }
  }

  lemma HeaderOwned(k: nat, s: State, a: Action, b: nat)
    requires History(s) && Enabled(k, s, a) && b in Step(k, s, a).header
    ensures var s' := Step(k, s, a); ActiveLogged(s'.procs, b) || EndedLogged(s'.ended, |s'.commits|, b)
  {
    var s' := Step(k, s, a);
    OwnersKept(s, s', |s.commits|, b);
    if a.Append? && b == s.procs[a.p].pending.value {
      assert b in s'.procs[a.p].logged;
    } else if ActiveLogged(s.procs, b) {
      var p :| 0 <= p < |s.procs| && s.procs[p].InOp? && b in s.procs[p].logged;
      if a.End? && a.p == p {
        assert s'.ended[|s.ended|] == Ended(s.procs[p].logged, |s.commits|);
      } else {
        assert s'.procs[p].InOp? && b in s'.procs[p].logged;
      }
    }
  }

  lemma StepKeepsHistory(k: nat, s: State, a: Action)
    requires History(s) && Enabled(k, s, a)
    ensures History(Step(k, s, a))
  {
    StepKeepsQuiescent(k, s, a);
    StepKeepsWhole(k, s, a);
    var s' := Step(k, s, a);
    forall b | b in s'.header
      ensures ActiveLogged(s'.procs, b) || EndedLogged(s'.ended, |s'.commits|, b)
    {
      HeaderOwned(k, s, a, b);
    }
    forall g, b | 0 <= g < |s'.commits| && b in s'.commits[g]
      ensures EndedLogged(s'.ended, g, b)
    {
      OwnersKept(s, s', g, b);
      if a.Commit? && g == |s.commits| {
        assert b in s.header;
      }
    }
  }

  /** For every interleaving: no operation runs during a commit, the blocks of
      one operation all go to one commit, and a commit holds only blocks of
      operations that had ended. */
  lemma {:induction false} RunKeepsHistory(k: nat, s: State, acts: seq<Action>)
    requires History(s) && Exec(k, s, acts).Some?
    ensures History(Exec(k, s, acts).value)
    decreases |acts|
  {
    if acts != [] {
      StepKeepsHistory(k, s, acts[0]);
      RunKeepsHistory(k, Step(k, s, acts[0]), acts[1..]);
    }
  }

  lemma OperationsNeverSplit(k: nat, n: nat, acts: seq<Action>)
    requires Exec(k, Init(n), acts).Some?
    ensures var s := Exec(k, Init(n), acts).value;
            && (s.committing ==> s.outstanding == 0)
            && (forall i :: 0 <= i < |s.ended| && s.ended[i].gen < |s.commits| ==>
                  s.ended[i].blocks <= s.commits[s.ended[i].gen])
            && (forall g, b :: 0 <= g < |s.commits| && b in s.commits[g] ==> EndedLogged(s.ended, g, b))
  {
    InitIdle(n, k);
    RunKeepsHistory(k, Init(n), acts);
  }

  // ---------------------------------------------------------------- progress

  lemma {:induction false} SomeActive(ps: seq<Proc>) returns (p: nat)
    requires Active(ps) > 0
    ensures p < |ps| && ps[p].InOp?
  {
    p := |ps| - 1;
    if !ps[p].InOp? { p := SomeActive(ps[..p]); }
  }

  /** A process outside stays outside. */
  ghost predicate StayOutside(s: State, t: State) {
    |t.procs| == |s.procs| && forall q :: 0 <= q < |s.procs| && s.procs[q].Outside? ==> t.procs[q].Outside?
  }

  /** The operation of p ends, with the block it has tested, if any. */
  lemma EndsOne(k: nat, s: State, p: nat) returns (acts: seq<Action>)
    requires k < MAXOPBLOCKS && Reservation(k, s) && !s.panicked && p < |s.procs| && s.procs[p].InOp?
    ensures Exec(k, s, acts).Some?
    ensures var t := Exec(k, s, acts).value;
            Reservation(k, t) && !t.panicked && Active(t.procs) == Active(s.procs) - 1 && StayOutside(s, t)
  {
    hide Reservation;
    var mid := s;
    if s.procs[p].pending.Some? {
      StepKeepsReservation(k, s, Append(p));
      mid := Step(k, s, Append(p));
      ReservedUpdate(k, s.procs, p, mid.procs[p]);
      ExecTwo(k, s, Append(p), End(p));
    } else {
      assert Exec(k, s, [End(p)]) == Exec(k, Step(k, s, End(p)), []);
    }
    acts := if s.procs[p].pending.Some? then [Append(p), End(p)] else [End(p)];
    StepKeepsReservation(k, mid, End(p));
    ReservedUpdate(k, mid.procs, p, Outside);
  }

  /** All operations under way end. */
  lemma {:induction false} EndsAll(k: nat, s: State) returns (acts: seq<Action>)
    requires k < MAXOPBLOCKS && Reservation(k, s) && !s.panicked
    ensures Exec(k, s, acts).Some?
    ensures var t := Exec(k, s, acts).value;
            Reservation(k, t) && !t.panicked && Active(t.procs) == 0 && StayOutside(s, t)
    decreases Active(s.procs)
  {
    hide Reservation;
    hide Step;
    if Active(s.procs) == 0 {
      acts := [];
    } else {
      var p := SomeActive(s.procs);
      var first := EndsOne(k, s, p);
      var rest := EndsAll(k, Exec(k, s, first).value);
      ExecThen(k, s, first, rest);
      acts := first + rest;
    }
  }

  /** The transaction is written, if there is one. */
  lemma Commits(k: nat, s: State) returns (acts: seq<Action>)
    requires k < MAXOPBLOCKS && Reservation(k, s) && !s.panicked && Active(s.procs) == 0
    ensures Exec(k, s, acts).Some?
    ensures var t := Exec(k, s, acts).value; MayBegin(t) && t.procs == s.procs
  {
    acts := if !s.committing then [] else if s.header == [] then [Release] else [Commit, Release];
    if s.committing {
      if s.header == [] {
        assert Exec(k, s, [Release]) == Exec(k, Step(k, s, Release), []);
      } else {
        ExecTwo(k, s, Commit, Release);
      }
    }
  }

  ghost predicate AdmitsAfter(k: nat, s: State, more: seq<Action>, p: nat) {
    Exec(k, s, more).Some? && Enabled(k, Exec(k, s, more).value, Begin(p))
  }

  /** begin_op is never shut out for good: from every reachable state some run admits a
      process that waits in it. */
  lemma NeverShutOut(k: nat, n: nat, acts: seq<Action>, p: nat)
    requires k < MAXOPBLOCKS && Exec(k, Init(n), acts).Some?
    requires p < |Exec(k, Init(n), acts).value.procs| && Exec(k, Init(n), acts).value.procs[p].Outside?
    ensures exists more :: AdmitsAfter(k, Exec(k, Init(n), acts).value, more, p)
  {
    hide Reservation;
    hide Step;
    InitReserved(k, n);
    RunKeepsReservation(k, Init(n), acts);
    var s := Exec(k, Init(n), acts).value;
    var first := EndsAll(k, s);
    var t := Exec(k, s, first).value;
    var rest := Commits(k, t);
    ExecThen(k, s, first, rest);
    RunKeepsReservation(k, t, rest);
    assert AdmitsAfter(k, s, first + rest, p);
  }

  lemma InitReserved(k: nat, n: nat)
    ensures Reservation(k, Init(n))
  {
    InitIdle(n, k);
  }
}

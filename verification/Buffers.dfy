/** The buffers of the cache (bio.c) as values: what ties them to the disk, who uses
    them, and how many are left. */
module Buffers {
  import opened Options
  import opened Blocks
  import opened CrashLog

  const NBUF: nat := 30
  const ROOTDEV: nat := 1

  /** struct buf; holder is the process whose pid the held sleep lock records. */
  datatype Buf = Buf(dev: nat, blockno: nat, valid: bool, dirty: bool, refcnt: nat, holder: Option<nat>, data: Block) {
    predicate Is(d: nat, b: nat) { dev == d && blockno == b }
    /** bget may recycle it. */
    predicate Free() { refcnt == 0 && !dirty }
  }

  /** Who accounts for a buffer's references: processes waiting for its lock,
      processes between the two halves of brelse, and the holder. A buffer is
      edited when its holder has changed data and not yet logged or written it. */
  datatype Use = Use(waiting: nat, leaving: nat, edited: bool)

  predicate Counted(b: Buf, u: Use) {
    && b.refcnt == u.waiting + u.leaving + (if b.holder.Some? then 1 else 0)
    && (u.edited ==> b.holder.Some? && b.valid)
  }

  /** What a buffer holds, against the last contents logged or written. */
  predicate Synced(b: Buf, u: Use, contents: Disk) {
    && (b.valid ==> b.dev == ROOTDEV && b.blockno < |contents|)
    && (b.dirty ==> b.valid)
    && (b.valid && !u.edited ==> b.data == contents[b.blockno])
  }

  /** Device 0, which every buffer names at first, is never read. */
  ghost predicate Unique(buf: seq<Buf>) {
    forall i, j :: 0 <= i < j < |buf| && buf[i].dev != 0 ==> !buf[j].Is(buf[i].dev, buf[i].blockno)
  }

  ghost predicate Pinned(buf: seq<Buf>, b: nat) {
    exists i :: 0 <= i < |buf| && buf[i].dirty && buf[i].blockno == b
  }

  ghost predicate Cached(buf: seq<Buf>, dev: nat, b: nat) {
    exists i :: 0 <= i < |buf| && buf[i].Is(dev, b)
  }

  ghost predicate AnyFree(buf: seq<Buf>) {
    exists i :: 0 <= i < |buf| && buf[i].Free()
  }

  /** How many buffers are dirty or referenced. */
  function InUse(buf: seq<Buf>): nat {
    if buf == [] then 0 else InUse(buf[1..]) + if buf[0].Free() then 0 else 1
  }

  /** How many clean buffers are referenced. */
  function Readers(buf: seq<Buf>): nat {
    if buf == [] then 0 else Readers(buf[1..]) + if buf[0].refcnt > 0 && !buf[0].dirty then 1 else 0
  }

  /** bread took buffer b for the block, and b' is what it then was. */
  predicate Taken(b: Buf, b': Buf, blockno: nat) {
    && b'.Is(ROOTDEV, blockno) && b'.refcnt == b.refcnt + 1 && b.holder.None? && b'.dirty == b.dirty
    && (b.Is(ROOTDEV, blockno) || b.Free())
  }

  /** Some process has or awaits the buffer of block b. */
  ghost predicate Referenced(buf: seq<Buf>, b: nat) {
    exists i :: 0 <= i < |buf| && buf[i].Is(ROOTDEV, b) && buf[i].refcnt > 0
  }

  /** bread of block b, which is not pinned, does not run out of buffers. */
  ghost predicate Obtainable(buf: seq<Buf>, b: nat) {
    InUse(buf) < |buf| || Referenced(buf, b)
  }

  ghost predicate Unlocked(buf: seq<Buf>, b: nat) {
    forall i :: 0 <= i < |buf| && buf[i].Is(ROOTDEV, b) ==> buf[i].holder.None?
  }

  /** A process other than pid has locked block b. */
  ghost predicate LockedByOther(buf: seq<Buf>, pid: nat, b: nat) {
    exists i :: 0 <= i < |buf| && buf[i].Is(ROOTDEV, b) && buf[i].holder.Some? && buf[i].holder != Some(pid)
  }

  lemma OtherLocks(buf: seq<Buf>, pid: nat, own: set<nat>, b: nat)
    requires !Unlocked(buf, b) && HasOnly(buf, pid, own)
    requires forall i :: i in own && i < |buf| ==> !buf[i].Is(ROOTDEV, b)
    ensures LockedByOther(buf, pid, b)
  {
    var i :| 0 <= i < |buf| && buf[i].Is(ROOTDEV, b) && buf[i].holder.Some?;
    assert buf[i].holder != Some(pid);
  }

  /** Every process has and awaits the buffers that it had and awaited, and no
      buffer has become dirty. */
  ghost predicate SameHolders(buf: seq<Buf>, buf': seq<Buf>) {
    && |buf'| == |buf|
    && forall i :: 0 <= i < |buf| ==>
         && buf'[i].refcnt == buf[i].refcnt && buf'[i].holder == buf[i].holder && (buf'[i].dirty ==> buf[i].dirty)
         && (buf[i].refcnt > 0 ==> buf'[i].Is(buf[i].dev, buf[i].blockno))
         && (buf[i].holder.Some? ==> buf'[i] == buf[i])
  }

  /** The outcome of a call: it is done, it met the panic "no buffers", or it still
      waits for a lock when the schedule ends. */
  datatype Outcome<T> = Done(value: T) | NoBuffers | Locked

  /** A step of another process, on its way through bread and brelse. */
  datatype Step =
    | Get(blockno: nat) | Take(i: nat, pid: nat) | Fill(i: nat, pid: nat) | Unlock(i: nat, pid: nat) | Drop(i: nat)

  /** What the other processes do in each of the turns they get. */
  type Schedule = seq<seq<Step>>

  /** Where a process stands: before acquiresleep or between the halves of brelse,
      with its reference counted, or elsewhere. */
  datatype Place = Elsewhere | Awaiting(i: nat) | Dropping(i: nat)

  predicate Standing(use: seq<Use>, me: Place) {
    match me
    case Elsewhere => true
    case Awaiting(i) => i < |use| && use[i].waiting > 0
    case Dropping(i) => i < |use| && use[i].leaving > 0
  }

  /** A buffer that process pid holds stays as it is but for its count, and others
      do not come to be its own. */
  predicate OwnKept(b: Buf, u: Use, b': Buf, u': Use, pid: nat) {
    && (b'.holder == Some(pid) <==> b.holder == Some(pid))
    && (b.holder == Some(pid) ==> b' == b.(refcnt := b'.refcnt) && u'.edited == u.edited)
  }

  /** Process pid, which stands at `me`, has not been disturbed. */
  ghost predicate Undisturbed(buf: seq<Buf>, use: seq<Use>, buf': seq<Buf>, use': seq<Use>, pid: nat, me: Place) {
    && |buf| == |use| == |buf'| == |use'|
    && (forall i :: 0 <= i < |buf| ==> OwnKept(buf[i], use[i], buf'[i], use'[i], pid))
    && Standing(use', me)
    && (me.Awaiting? && me.i < |buf| ==> buf'[me.i].Is(buf[me.i].dev, buf[me.i].blockno))
  }

  /** Some process has come to await block b in buffer i, recycled if the block was not
      cached. */
  predicate Got(buf: seq<Buf>, use: seq<Use>, buf': seq<Buf>, use': seq<Use>, b: nat, i: nat)
    requires |buf| == |use| == |buf'|
  {
    && i < |buf| && (buf[i].Is(ROOTDEV, b) || buf[i].Free())
    && buf'[i].Is(ROOTDEV, b) && buf'[i].refcnt == buf[i].refcnt + 1 && buf' == buf[i := buf'[i]]
    && use' == use[i := use[i].(waiting := use[i].waiting + 1)]
  }

  /** A process other than pid, which stands at `me`, can take step s. */
  ghost predicate CanStep(buf: seq<Buf>, use: seq<Use>, s: Step, pid: nat, me: Place)
    requires |buf| == |use|
  {
    match s
    case Get(b) => Cached(buf, ROOTDEV, b) || AnyFree(buf)
    case Take(i, q) =>
      i < |buf| && q != pid && buf[i].holder.None? && use[i].waiting > if me == Awaiting(i) then 1 else 0
    case Fill(i, q) => i < |buf| && q != pid && buf[i].holder == Some(q) && !use[i].edited
    case Unlock(i, q) => i < |buf| && q != pid && buf[i].holder == Some(q) && buf[i].valid && !use[i].edited
    case Drop(i) => i < |buf| && use[i].leaving > if me == Dropping(i) then 1 else 0
  }

  /** What the step does, on a disk of n blocks. */
  ghost predicate Stepped(buf: seq<Buf>, use: seq<Use>, buf': seq<Buf>, use': seq<Use>, s: Step, pid: nat, me: Place,
                          n: nat)
    requires |buf| == |use| == |buf'|
  {
    if !CanStep(buf, use, s, pid, me) then buf' == buf && use' == use
    else
      match s
      case Get(b) => exists i :: Got(buf, use, buf', use', b, i)
      case Take(i, q) =>
        buf' == buf[i := buf[i].(holder := Some(q))] && use' == use[i := use[i].(waiting := use[i].waiting - 1)]
      case Fill(i, q) =>
        && buf' == buf[i := buf[i].(valid := buf'[i].valid, data := buf'[i].data)] && use' == use
        && (buf'[i].valid <==> buf[i].valid || (buf[i].dev == ROOTDEV && buf[i].blockno < n))
      case Unlock(i, q) =>
        buf' == buf[i := buf[i].(holder := None)] && use' == use[i := use[i].(leaving := use[i].leaving + 1)]
      case Drop(i) =>
        && buf[i].refcnt > 0 && buf' == buf[i := buf[i].(refcnt := buf[i].refcnt - 1)]
        && use' == use[i := use[i].(leaving := use[i].leaving - 1)]
  }

  /** The buffers and their use, before the first step of a turn and after each. */
  datatype View = View(buf: seq<Buf>, use: seq<Use>)

  /** The other processes take the steps of a turn, one after the other. */
  ghost predicate Ran(via: seq<View>, steps: seq<Step>, pid: nat, me: Place, n: nat) {
    && |via| == |steps| + 1
    && (forall k :: 0 <= k < |via| ==> |via[k].buf| == |via[k].use| == NBUF)
    && forall k :: 0 <= k < |steps| ==>
         Stepped(via[k].buf, via[k].use, via[k + 1].buf, via[k + 1].use, steps[k], pid, me, n)
  }

  lemma RanOneMore(via: seq<View>, steps: seq<Step>, pid: nat, me: Place, n: nat, s: Step, v: View)
    requires Ran(via, steps, pid, me, n) && |v.buf| == |v.use| == NBUF
    requires Stepped(via[|steps|].buf, via[|steps|].use, v.buf, v.use, s, pid, me, n)
    ensures Ran(via + [v], steps + [s], pid, me, n)
  {
    hide Stepped;
  }

  lemma UndisturbedStart(buf: seq<Buf>, use: seq<Use>, pid: nat, me: Place)
    requires |buf| == |use| && Standing(use, me)
    ensures Undisturbed(buf, use, buf, use, pid, me)
  {
  }

  lemma UndisturbedTrans(buf0: seq<Buf>, use0: seq<Use>, buf1: seq<Buf>, use1: seq<Use>, buf2: seq<Buf>,
                         use2: seq<Use>, pid: nat, me: Place)
    requires Undisturbed(buf0, use0, buf1, use1, pid, me) && Undisturbed(buf1, use1, buf2, use2, pid, me)
    ensures Undisturbed(buf0, use0, buf2, use2, pid, me)
  {
    forall i | 0 <= i < |buf0|
      ensures OwnKept(buf0[i], use0[i], buf2[i], use2[i], pid)
    {
      assert OwnKept(buf0[i], use0[i], buf1[i], use1[i], pid) && OwnKept(buf1[i], use1[i], buf2[i], use2[i], pid);
    }
  }

  /** Process pid holds no buffer but those of `own`. */
  ghost predicate HasOnly(buf: seq<Buf>, pid: nat, own: set<nat>) {
    forall i :: 0 <= i < |buf| && buf[i].holder == Some(pid) ==> i in own
  }

  /** A block whose last contents are not on disk is pinned in the cache. */
  ghost predicate NoLostUpdate(pins: set<nat>, disk: Disk, contents: Disk) {
    && |contents| == |disk|
    && forall b :: 0 <= b < |disk| ==> disk[b] == contents[b] || b in pins
  }

  /** i stands on the ring behind every other buffer that could be recycled. */
  ghost predicate LeastRecent(buf: seq<Buf>, ring: seq<nat>, i: nat) {
    exists k :: 0 < k < |ring| && ring[k] == i && forall j :: k < j < |ring| && ring[j] < |buf| ==> !buf[ring[j]].Free()
  }

  ghost predicate PinSet(buf: seq<Buf>, pins: set<nat>) {
    && (forall i :: 0 <= i < |buf| && buf[i].dirty ==> buf[i].blockno in pins)
    && (forall b :: b in pins ==> Pinned(buf, b))
  }

  /** Cache, pins and disk together present the one map `contents`. */
  ghost predicate Coherent(buf: seq<Buf>, use: seq<Use>, disk: Disk, contents: Disk, pins: set<nat>) {
    && |buf| == |use|
    && (forall i :: 0 <= i < |buf| ==> Counted(buf[i], use[i]) && Synced(buf[i], use[i], contents))
    && Unique(buf)
    && NoLostUpdate(pins, disk, contents)
    && PinSet(buf, pins)
  }

  lemma PinnedKept(buf: seq<Buf>, buf': seq<Buf>)
    requires |buf| == |buf'|
    requires forall i :: 0 <= i < |buf| && buf[i].dirty ==> buf'[i].dirty && buf'[i].blockno == buf[i].blockno
    ensures forall x :: Pinned(buf, x) ==> Pinned(buf', x)
  {
    forall x | Pinned(buf, x)
      ensures Pinned(buf', x)
    {
      var i :| 0 <= i < |buf| && buf[i].dirty && buf[i].blockno == x;
      assert buf'[i].dirty;
    }
  }

  /** A scan of the ring sees every buffer. */
  lemma RingCovers(ring: seq<nat>, n: nat, i: nat) returns (j: nat)
    requires |ring| == n + 1 && ring[0] == n && i < n
    requires forall b :: 0 <= b <= n ==> b in ring
    ensures 0 < j < |ring| && ring[j] == i
  {
    assert i in ring;
    j :| 0 <= j < |ring| && ring[j] == i;
  }

  /** Replacing one buffer in place, with its block and its pin kept. */
  lemma Replaced(buf: seq<Buf>, use: seq<Use>, disk: Disk, contents: Disk, pins: set<nat>, i: nat, b: Buf, u: Use)
    requires Coherent(buf, use, disk, contents, pins) && i < |buf|
    requires b.dev == buf[i].dev && b.blockno == buf[i].blockno && b.dirty == buf[i].dirty
    requires Counted(b, u) && Synced(b, u, contents)
    ensures Coherent(buf[i := b], use[i := u], disk, contents, pins)
  {
    PinnedKept(buf, buf[i := b]);
  }

  /** Recycling a free buffer loses no update and duplicates no block. */
  lemma Recycled(buf: seq<Buf>, use: seq<Use>, disk: Disk, contents: Disk, pins: set<nat>, i: nat, b: Buf, u: Use)
    requires Coherent(buf, use, disk, contents, pins) && i < |buf|
    requires buf[i].Free() && !Cached(buf, b.dev, b.blockno)
    requires !b.valid && !b.dirty && Counted(b, u)
    ensures Coherent(buf[i := b], use[i := u], disk, contents, pins)
  {
    PinnedKept(buf, buf[i := b]);
    forall j | 0 <= j < |buf|
      ensures !buf[j].Is(b.dev, b.blockno)
    {
    }
  }

  /** A logged buffer becomes the pinned, current copy of its block. */
  lemma Logged(buf: seq<Buf>, use: seq<Use>, disk: Disk, contents: Disk, pins: set<nat>, i: nat)
    requires Coherent(buf, use, disk, contents, pins) && i < |buf| && buf[i].valid
    ensures var b := buf[i].(dirty := true);
            Coherent(buf[i := b], use[i := use[i].(edited := false)], disk, contents[b.blockno := b.data],
                     pins + {b.blockno})
  {
    var buf' := buf[i := buf[i].(dirty := true)];
    PinnedKept(buf, buf');
    assert buf'[i].dirty;
    forall j | 0 <= j < |buf| && j != i
      ensures Synced(buf'[j], use[j], contents[buf[i].blockno := buf[i].data])
    {
      assert buf[j].valid ==> buf[j].blockno != buf[i].blockno;
    }
  }

  /** A written buffer agrees with the disk and needs no pin. */
  lemma Written(buf: seq<Buf>, use: seq<Use>, disk: Disk, contents: Disk, pins: set<nat>, i: nat)
    requires Coherent(buf, use, disk, contents, pins) && i < |buf| && buf[i].valid
    ensures var b := buf[i].(dirty := false);
            Coherent(buf[i := b], use[i := use[i].(edited := false)], disk[b.blockno := b.data],
                     contents[b.blockno := b.data], pins - {b.blockno})
  {
    var b := buf[i].(dirty := false);
    var buf' := buf[i := b];
    Unpinned(buf, use, disk, contents, pins, i);
    forall j | 0 <= j < |buf| && j != i
      ensures Synced(buf'[j], use[j], contents[b.blockno := b.data])
    {
      assert buf[j].valid ==> buf[j].blockno != b.blockno;
    }
  }

  /** Writing a buffer removes its block, and no other, from the pins. */
  lemma Unpinned(buf: seq<Buf>, use: seq<Use>, disk: Disk, contents: Disk, pins: set<nat>, i: nat)
    requires Coherent(buf, use, disk, contents, pins) && i < |buf| && buf[i].valid
    ensures PinSet(buf[i := buf[i].(dirty := false)], pins - {buf[i].blockno})
  {
    var buf' := buf[i := buf[i].(dirty := false)];
    forall k | 0 <= k < |buf| && buf'[k].dirty
      ensures buf[k].blockno != buf[i].blockno
    {
      assert buf[k].dev == ROOTDEV;
    }
    forall b | b in pins && b != buf[i].blockno
      ensures Pinned(buf', b)
    {
      var k :| 0 <= k < |buf| && buf[k].dirty && buf[k].blockno == b;
      assert buf'[k].dirty;
    }
  }

  // ---------------------------------------------------------- counting buffers

  lemma {:induction false} InUseFewer(buf: seq<Buf>, buf': seq<Buf>)
    requires |buf| == |buf'| && forall i :: 0 <= i < |buf| ==> buf[i].Free() ==> buf'[i].Free()
    ensures InUse(buf') <= InUse(buf) <= |buf|
  {
    if buf != [] {
      forall i | 0 <= i < |buf[1..]|
        ensures buf[1..][i].Free() ==> buf'[1..][i].Free()
      {
        assert buf[i + 1].Free() ==> buf'[i + 1].Free();
      }
      InUseFewer(buf[1..], buf'[1..]);
    }
  }

  lemma {:induction false} InUseOne(buf: seq<Buf>, i: nat, b: Buf)
    requires i < |buf|
    ensures InUse(buf[i := b]) == InUse(buf) - (if buf[i].Free() then 0 else 1) + (if b.Free() then 0 else 1)
  {
    if i == 0 {
      assert buf[i := b][1..] == buf[1..];
    } else {
      InUseOne(buf[1..], i - 1, b);
      assert buf[i := b][1..] == buf[1..][i - 1 := b];
    }
  }

  /** bget has a buffer to recycle exactly when not all are dirty or referenced. */
  lemma {:induction false} FreeExactly(buf: seq<Buf>)
    ensures AnyFree(buf) <==> InUse(buf) < |buf|
    ensures InUse(buf) <= |buf|
  {
    if buf != [] {
      FreeExactly(buf[1..]);
      if AnyFree(buf[1..]) {
        var i :| 0 <= i < |buf[1..]| && buf[1..][i].Free();
        assert buf[i + 1].Free();
      }
      if AnyFree(buf) && !buf[0].Free() {
        var i :| 0 <= i < |buf| && buf[i].Free();
        assert buf[1..][i - 1].Free();
      }
    }
  }

  /** The buffers in use are those that hold a pinned block and those that readers
      of other blocks have or await. */
  lemma {:induction false} PinsAndReaders(buf: seq<Buf>, pins: set<nat>)
    requires Unique(buf) && PinSet(buf, pins) && forall i :: 0 <= i < |buf| && buf[i].dirty ==> buf[i].dev == ROOTDEV
    ensures InUse(buf) == |pins| + Readers(buf)
  {
    if buf == [] {
      assert pins == {};
    } else {
      var rest, left := buf[1..], if buf[0].dirty then pins - {buf[0].blockno} else pins;
      PinnedRest(buf, pins);
      assert forall i, j :: 0 <= i < j < |rest| ==> rest[i] == buf[i + 1] && rest[j] == buf[j + 1];
      PinsAndReaders(rest, left);
    }
  }

  lemma PinnedRest(buf: seq<Buf>, pins: set<nat>)
    requires buf != [] && Unique(buf) && PinSet(buf, pins) && forall i :: 0 <= i < |buf| && buf[i].dirty ==>
               buf[i].dev == ROOTDEV
    ensures PinSet(buf[1..], if buf[0].dirty then pins - {buf[0].blockno} else pins)
    ensures forall i :: 0 <= i < |buf[1..]| && buf[1..][i].dirty ==> buf[1..][i].dev == ROOTDEV
    ensures Unique(buf[1..])
  {
    var rest, left := buf[1..], if buf[0].dirty then pins - {buf[0].blockno} else pins;
    forall i | 0 <= i < |rest| && rest[i].dirty
      ensures rest[i].blockno in left && rest[i].dev == ROOTDEV
    {
      assert buf[i + 1].dirty;
    }
    forall b | b in left
      ensures Pinned(rest, b)
    {
      var i :| 0 <= i < |buf| && buf[i].dirty && buf[i].blockno == b;
      assert rest[i - 1].dirty;
    }
  }

  /** Buffers i and j have been taken for two blocks; no other differs. */
  ghost predicate TookBoth(buf0: seq<Buf>, buf: seq<Buf>, i: nat, j: nat, first: nat, second: nat) {
    && |buf0| == |buf| && i < |buf| && j < |buf| && i != j
    && (forall k :: 0 <= k < |buf| && k != i && k != j ==> buf[k] == buf0[k])
    && Taken(buf0[i], buf[i], first) && Taken(buf0[j], buf[j], second)
  }

  ghost predicate Took(buf0: seq<Buf>, buf: seq<Buf>, i: nat, blockno: nat) {
    && |buf0| == |buf| && i < |buf| && Taken(buf0[i], buf[i], blockno)
    && (forall k :: 0 <= k < |buf| && k != i ==> buf[k] == buf0[k])
  }

  lemma OneReleased(buf0: seq<Buf>, buf1: seq<Buf>, buf: seq<Buf>, i: nat, blockno: nat)
    requires Took(buf0, buf1, i, blockno) && |buf| == |buf1|
    requires forall k :: 0 <= k < |buf| && k != i ==> buf[k] == buf1[k]
    requires buf[i].holder.None? && buf[i].refcnt == buf1[i].refcnt - 1 && buf[i].Is(buf1[i].dev, buf1[i].blockno)
    requires buf[i].dirty ==> buf1[i].dirty
    ensures SameHolders(buf0, buf)
  {
  }

  lemma HasMore(buf0: seq<Buf>, use0: seq<Use>, buf: seq<Buf>, use: seq<Use>, pid: nat, own: set<nat>, i: nat)
    requires |buf0| == |use0| == |buf| == |use| && HasOnly(buf0, pid, own)
    requires forall j :: 0 <= j < |buf| && j != i ==> OwnKept(buf0[j], use0[j], buf[j], use[j], pid)
    ensures HasOnly(buf, pid, own + {i})
  {
    forall j | 0 <= j < |buf| && buf[j].holder == Some(pid) && j != i
      ensures j in own
    {
      assert OwnKept(buf0[j], use0[j], buf[j], use[j], pid);
    }
  }

  lemma HasLess(buf0: seq<Buf>, use0: seq<Use>, buf: seq<Buf>, use: seq<Use>, pid: nat, own: set<nat>, i: nat)
    requires |buf0| == |use0| == |buf| == |use| && HasOnly(buf0, pid, own) && i < |buf| && buf[i].holder != Some(pid)
    requires forall j :: 0 <= j < |buf| && j != i ==> OwnKept(buf0[j], use0[j], buf[j], use[j], pid)
    ensures HasOnly(buf, pid, own - {i})
  {
    HasMore(buf0, use0, buf, use, pid, own, i);
  }

  lemma FirstTaken(buf0: seq<Buf>, buf: seq<Buf>, i: nat, first: nat, second: nat)
    requires i < |buf0| == |buf| && buf == buf0[i := buf[i]] && Taken(buf0[i], buf[i], first) && first != second
    ensures Unlocked(buf0, second) ==> Unlocked(buf, second)
    ensures InUse(buf) <= InUse(buf0) + 1
  {
    InUseOne(buf0, i, buf[i]);
  }

  lemma SecondTaken(buf0: seq<Buf>, buf1: seq<Buf>, buf: seq<Buf>, i: nat, j: nat, first: nat, second: nat)
    requires i < |buf0| == |buf1| == |buf| && j < |buf| && i != j
    requires buf1 == buf0[i := buf1[i]] && Taken(buf0[i], buf1[i], first)
    requires buf == buf1[j := buf[j]] && Taken(buf1[j], buf[j], second)
    ensures TookBoth(buf0, buf, i, j, first, second)
  {
  }

  lemma BothReleased(buf0: seq<Buf>, buf1: seq<Buf>, buf: seq<Buf>, i: nat, j: nat, dst: nat, src: nat)
    requires TookBoth(buf0, buf1, i, j, dst, src) && |buf| == |buf1|
    requires forall k :: 0 <= k < |buf| && k != i && k != j ==> buf[k] == buf1[k]
    requires buf[i] == buf1[i].(data := buf1[j].data, dirty := false, holder := None, refcnt := buf1[i].refcnt - 1)
    requires buf[j] == buf1[j].(holder := None, refcnt := buf1[j].refcnt - 1)
    ensures SameHolders(buf0, buf)
  {
  }

  lemma BothEither(buf0: seq<Buf>, buf: seq<Buf>, i: nat, j: nat, first: nat, second: nat, pid: nat)
    ensures TookBoth(buf0, buf, i, j, first, second) ==> TookBoth(buf0, buf, j, i, second, first)
    ensures HasOnly(buf, pid, {i, j}) ==> HasOnly(buf, pid, {j, i})
  {
    assert {i, j} == {j, i};
  }

  /** Who takes buffers and gives them back leaves as many to recycle, locks no other
      and leaves every reference: what was obtainable stays so. */
  lemma StillObtainable(buf: seq<Buf>, buf': seq<Buf>, b: nat)
    requires SameHolders(buf, buf')
    ensures InUse(buf') <= InUse(buf)
    ensures Unlocked(buf, b) ==> Unlocked(buf', b)
    ensures Referenced(buf, b) <==> Referenced(buf', b)
    ensures Obtainable(buf, b) ==> Obtainable(buf', b)
  {
    InUseFewer(buf, buf');
    if Referenced(buf, b) {
      var i :| 0 <= i < |buf| && buf[i].Is(ROOTDEV, b) && buf[i].refcnt > 0;
      assert buf'[i].Is(ROOTDEV, b);
    }
    if Referenced(buf', b) {
      var i :| 0 <= i < |buf'| && buf'[i].Is(ROOTDEV, b) && buf'[i].refcnt > 0;
      assert buf[i].refcnt > 0;
    }
  }

  lemma {:induction false} ReadersStay(buf: seq<Buf>, buf': seq<Buf>)
    requires SameHolders(buf, buf')
    ensures Readers(buf) <= Readers(buf')
  {
    if buf != [] {
      assert buf[0].refcnt == buf'[0].refcnt && (buf'[0].dirty ==> buf[0].dirty);
      assert SameHolders(buf[1..], buf'[1..]) by {
        forall i | 0 <= i < |buf[1..]|
          ensures buf[1..][i] == buf[i + 1] && buf'[1..][i] == buf'[i + 1]
        {
        }
      }
      ReadersStay(buf[1..], buf'[1..]);
    }
  }

  /** While the same blocks are pinned, nothing more becomes obtainable either. */
  lemma NoMoreObtainable(buf: seq<Buf>, use: seq<Use>, disk: Disk, contents: Disk, buf': seq<Buf>, use': seq<Use>,
                         disk': Disk, contents': Disk, pins: set<nat>, b: nat)
    requires Coherent(buf, use, disk, contents, pins) && Coherent(buf', use', disk', contents', pins)
    requires SameHolders(buf, buf')
    ensures Obtainable(buf, b) <==> Obtainable(buf', b)
  {
    hide Obtainable;
    hide Referenced;
    hide SameHolders;
    StillObtainable(buf, buf', b);
    ReadersStay(buf, buf');
    CoherentCount(buf, use, disk, contents, pins);
    CoherentCount(buf', use', disk', contents', pins);
    SameRoom(buf, buf', b);
  }

  lemma SameRoom(buf: seq<Buf>, buf': seq<Buf>, b: nat)
    requires InUse(buf) == InUse(buf') && SameHolders(buf, buf') && (Referenced(buf, b) <==> Referenced(buf', b))
    ensures Obtainable(buf, b) <==> Obtainable(buf', b)
  {
  }

  lemma CoherentCount(buf: seq<Buf>, use: seq<Use>, disk: Disk, contents: Disk, pins: set<nat>)
    requires Coherent(buf, use, disk, contents, pins)
    ensures InUse(buf) == |pins| + Readers(buf)
  {
    PinsAndReaders(buf, pins);
  }

  /** bget of a block that is not pinned finds a buffer exactly when one can be
      recycled or somebody references the block. */
  lemma GetsBuffer(buf: seq<Buf>, use: seq<Use>, disk: Disk, contents: Disk, pins: set<nat>, b: nat)
    requires Coherent(buf, use, disk, contents, pins)
    ensures b !in pins ==> (Cached(buf, ROOTDEV, b) || AnyFree(buf) <==> Obtainable(buf, b))
  {
    FreeExactly(buf);
    if b !in pins && Cached(buf, ROOTDEV, b) && !AnyFree(buf) {
      var i :| 0 <= i < |buf| && buf[i].Is(ROOTDEV, b);
      assert !buf[i].Free() && !buf[i].dirty;
      assert buf[i].refcnt > 0;
    }
  }

  lemma StandingNow(buf: seq<Buf>, use: seq<Use>, buf': seq<Buf>, use': seq<Use>, pid: nat, me: Place)
    requires Undisturbed(buf, use, buf', use', pid, me)
    ensures Standing(use', me)
  {
  }

  lemma OwnsKept(buf: seq<Buf>, use: seq<Use>, buf': seq<Buf>, use': seq<Use>, pid: nat, me: Place)
    requires Undisturbed(buf, use, buf', use', pid, me)
    ensures |buf| == |use| == |buf'| == |use'|
    ensures forall i :: 0 <= i < |buf| ==> OwnKept(buf[i], use[i], buf'[i], use'[i], pid)
    ensures me.Awaiting? && me.i < |buf| ==> buf'[me.i].Is(buf[me.i].dev, buf[me.i].blockno)
  {
  }

  /** One buffer has changed, and not to the disadvantage of process pid. */
  lemma OneChanged(buf: seq<Buf>, use: seq<Use>, i: nat, b: Buf, u: Use, pid: nat, me: Place)
    requires |buf| == |use| && i < |buf| && Standing(use, me) && OwnKept(buf[i], use[i], b, u, pid)
    requires me == Awaiting(i) ==> b.Is(buf[i].dev, buf[i].blockno) && u.waiting > 0
    requires me == Dropping(i) ==> u.leaving > 0
    ensures Undisturbed(buf, use, buf[i := b], use[i := u], pid, me)
  {
  }

  lemma KeptTrans(buf0: seq<Buf>, use0: seq<Use>, buf1: seq<Buf>, use1: seq<Use>, buf2: seq<Buf>, use2: seq<Use>,
                  pid: nat, x: nat)
    requires |buf0| == |use0| == |buf1| == |use1| == |buf2| == |use2|
    requires forall j :: 0 <= j < |buf0| && j != x ==> OwnKept(buf0[j], use0[j], buf1[j], use1[j], pid)
    requires forall j :: 0 <= j < |buf0| && j != x ==> OwnKept(buf1[j], use1[j], buf2[j], use2[j], pid)
    ensures forall j :: 0 <= j < |buf0| && j != x ==> OwnKept(buf0[j], use0[j], buf2[j], use2[j], pid)
  {
    forall j | 0 <= j < |buf0| && j != x
      ensures OwnKept(buf0[j], use0[j], buf2[j], use2[j], pid)
    {
      assert OwnKept(buf0[j], use0[j], buf1[j], use1[j], pid) && OwnKept(buf1[j], use1[j], buf2[j], use2[j], pid);
    }
  }

  lemma OwnFacts(b: Buf, u: Use, b': Buf, u': Use, pid: nat)
    requires OwnKept(b, u, b', u', pid) && b.holder == Some(pid)
    ensures b' == b.(refcnt := b'.refcnt) && u'.edited == u.edited
  {
  }

  lemma NotOwn(b: Buf, u: Use, b': Buf, u': Use, pid: nat)
    requires OwnKept(b, u, b', u', pid) && b'.holder != Some(pid)
    ensures b.holder != Some(pid)
  {
  }

  lemma TakenThenRead(b0: Buf, b: Buf, b': Buf, blockno: nat)
    requires b' == b.(valid := b'.valid, data := b'.data)
    ensures Taken(b0, b, blockno) ==> Taken(b0, b', blockno)
  {
  }

  /** Who holds or awaits a buffer has counted a reference to it. */
  lemma References(buf: seq<Buf>, use: seq<Use>, disk: Disk, contents: Disk, pins: set<nat>)
    requires Coherent(buf, use, disk, contents, pins)
    ensures |buf| == |use|
    ensures forall i :: 0 <= i < |buf| && (buf[i].holder.Some? || use[i].waiting > 0 || use[i].leaving > 0) ==>
              buf[i].refcnt > 0
  {
  }

  /** The buffer that bget finds is the only one that could be locked. */
  lemma OneBuffer(buf: seq<Buf>, use: seq<Use>, disk: Disk, contents: Disk, pins: set<nat>, b: nat)
    requires Coherent(buf, use, disk, contents, pins)
    ensures forall i, j :: 0 <= i < |buf| && 0 <= j < |buf| && buf[i].Is(ROOTDEV, b) && buf[j].Is(ROOTDEV, b) ==> i == j
  {
  }

  lemma HoldersStart(buf: seq<Buf>)
    ensures SameHolders(buf, buf)
  {
  }

  lemma HoldersTrans(buf0: seq<Buf>, buf1: seq<Buf>, buf2: seq<Buf>)
    requires SameHolders(buf0, buf1) && SameHolders(buf1, buf2)
    ensures SameHolders(buf0, buf2)
  {
  }

  lemma {:induction false} NoneInUse(buf: seq<Buf>)
    requires forall i :: 0 <= i < |buf| ==> buf[i].Free()
    ensures InUse(buf) == 0
  {
    if buf != [] {
      NoneInUse(buf[1..]);
    }
  }

  lemma Unheld(buf: seq<Buf>, use: seq<Use>, disk: Disk, contents: Disk, pins: set<nat>)
    requires Coherent(buf, use, disk, contents, pins)
    ensures |use| == |buf|
    ensures forall i :: 0 <= i < |buf| && buf[i].holder.None? ==> !use[i].edited
  {
  }

  lemma PinnedIsCached(buf: seq<Buf>, use: seq<Use>, disk: Disk, contents: Disk, pins: set<nat>, b: nat)
    requires Coherent(buf, use, disk, contents, pins)
    ensures b in pins ==> Cached(buf, ROOTDEV, b)
  {
    if b in pins {
      var k :| 0 <= k < |buf| && buf[k].dirty && buf[k].blockno == b;
      assert buf[k].Is(ROOTDEV, b);
    }
  }

  /** A block whose only buffer is not valid is current on disk. */
  lemma NotElsewhere(buf: seq<Buf>, use: seq<Use>, disk: Disk, contents: Disk, pins: set<nat>, i: nat)
    requires Coherent(buf, use, disk, contents, pins) && i < |buf|
    requires !buf[i].valid && buf[i].dev == ROOTDEV && buf[i].blockno < |disk|
    ensures disk[buf[i].blockno] == contents[buf[i].blockno]
  {
    forall j | 0 <= j < |buf| && buf[j].dirty
      ensures buf[j].blockno != buf[i].blockno
    {
      assert buf[j].dev == ROOTDEV;
    }
    assert !Pinned(buf, buf[i].blockno);
  }
}

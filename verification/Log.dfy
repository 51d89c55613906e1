/** The logging layer (log.c) as code over the buffer cache: log_write, commit
    and recovery, each proved to leave on disk exactly the images that CrashLog
    reasons about, whatever other processes read meanwhile. If they take no steps, a
    commit meets the panic "no buffers" exactly when all buffers are pinned or
    referenced and a block of the log that it needs is not among them. */
module Log {
  import opened Blocks
  import opened CrashLog
  import opened Buffers
  import opened BufferCache

  ghost predicate NoRepeats(h: seq<nat>) {
    forall i, j :: 0 <= i < j < |h| ==> h[i] != h[j]
  }

  /** The other processes take no turn, and have locked no block that a commit of h,
      or a recovery, reads and writes. */
  ghost predicate Quiet(sched: Schedule, buf: seq<Buf>, a: Area, h: seq<nat>) {
    sched == [] && (forall b :: a.Contains(b) ==> Unlocked(buf, b)) && forall b :: b in h ==> Unlocked(buf, b)
  }

  /** bread finds a buffer for each of the log's blocks lo..hi-1. */
  ghost predicate Room(buf: seq<Buf>, lo: nat, hi: nat) {
    forall b :: lo <= b < hi ==> Obtainable(buf, b)
  }

  /** Why a call did not end: no buffer can be recycled, or another process has locked
      a block of the log or of the transaction. */
  ghost predicate StoppedBy(r: Outcome<()>, buf: seq<Buf>, pid: nat, a: Area, h: seq<nat>) {
    && (r.NoBuffers? ==> !AnyFree(buf))
    && (r.Locked? ==> exists b :: (a.Contains(b) || b in h) && LockedByOther(buf, pid, b))
  }

  lemma StoppedAt(r: Outcome<()>, buf: seq<Buf>, pid: nat, a: Area, h: seq<nat>, x: nat, y: nat)
    requires (a.Contains(x) || x in h) && (a.Contains(y) || y in h)
    requires r.NoBuffers? ==> !AnyFree(buf)
    requires r.Locked? ==> LockedByOther(buf, pid, x) || LockedByOther(buf, pid, y)
    ensures StoppedBy(r, buf, pid, a, h)
  {
    hide AnyFree;
    hide LockedByOther;
  }

  lemma StoppedWider(r: Outcome<()>, buf: seq<Buf>, pid: nat, a: Area, h: seq<nat>)
    requires StoppedBy(r, buf, pid, a, [])
    ensures StoppedBy(r, buf, pid, a, h)
  {
    hide AnyFree;
    hide LockedByOther;
  }

  lemma NotStopped(buf: seq<Buf>, pid: nat, a: Area, h: seq<nat>)
    ensures StoppedBy(Done(()), buf, pid, a, h)
  {
  }

  lemma QuietStays(sched: Schedule, buf: seq<Buf>, buf': seq<Buf>, a: Area, h: seq<nat>)
    requires Quiet(sched, buf, a, h) && SameHolders(buf, buf')
    ensures Quiet(sched, buf', a, h)
  {
    hide Unlocked;
    hide SameHolders;
    forall b: nat
      ensures Unlocked(buf, b) ==> Unlocked(buf', b)
    {
      StillObtainable(buf, buf', b);
    }
  }

  lemma RoomStays(buf: seq<Buf>, buf': seq<Buf>, lo: nat, hi: nat)
    requires Room(buf, lo, hi) && SameHolders(buf, buf')
    ensures Room(buf', lo, hi)
  {
    hide Obtainable;
    hide SameHolders;
    forall b | lo <= b < hi
      ensures Obtainable(buf', b)
    {
      StillObtainable(buf, buf', b);
    }
  }

  /** Nothing keeps install_trans, or recovery, from its end. */
  ghost predicate Smooth(sched: Schedule, buf: seq<Buf>, a: Area, h: seq<nat>, pinned: bool) {
    Quiet(sched, buf, a, h) && if pinned then Room(buf, a.start, a.start + 1 + |h|) else InUse(buf) + 2 <= |buf|
  }

  lemma SmoothStays(sched: Schedule, buf: seq<Buf>, buf': seq<Buf>, a: Area, h: seq<nat>, pinned: bool)
    requires Smooth(sched, buf, a, h, pinned) && SameHolders(buf, buf')
    ensures Smooth(sched, buf', a, h, pinned)
  {
    hide Quiet;
    hide Room;
    QuietStays(sched, buf, buf', a, h);
    if pinned {
      RoomStays(buf, buf', a.start, a.start + 1 + |h|);
    } else {
      StillObtainable(buf, buf', 0);
    }
  }

  /** In a commit the block to be copied is pinned and its log block is not. */
  lemma InstallPins(a: Area, d: Disk, h: seq<nat>, k: nat, pinned: bool)
    requires Entries(a, d, h) && k < |h| && (pinned ==> NoRepeats(h))
    ensures |h| < a.size
    ensures pinned ==> h[k] in Listed(h[k..]) && Listed(h[k+1..]) == Listed(h[k..]) - {h[k]}
    ensures pinned ==> a.start + 1 + k !in Listed(h[k..])
  {
    if pinned {
      ListedStep(h, k);
      ListedApart(a, d, h, k, a.start + 1 + k);
    }
  }

  lemma NothingAsked(buf: seq<Buf>, lo: nat)
    ensures Room(buf, lo, lo)
  {
  }

  lemma RoomNext(buf: seq<Buf>, lo: nat, k: nat)
    ensures Room(buf, lo, lo + k + 1) <==> Room(buf, lo, lo + k) && Obtainable(buf, lo + k)
  {
    hide Obtainable;
  }

  lemma NoRoom(buf: seq<Buf>, lo: nat, hi: nat, b: nat)
    requires lo <= b < hi && !Obtainable(buf, b)
    ensures !Room(buf, lo, hi)
  {
    hide Obtainable;
  }

  lemma SmoothAt(sched: Schedule, buf: seq<Buf>, a: Area, h: seq<nat>, pinned: bool, k: nat)
    requires Smooth(sched, buf, a, h, pinned) && k < |h| < a.size
    ensures sched == [] && Unlocked(buf, a.start + 1 + k) && Unlocked(buf, h[k])
    ensures if pinned then Obtainable(buf, a.start + 1 + k) else InUse(buf) + 2 <= |buf|
  {
    hide Unlocked;
    hide Obtainable;
    assert a.Contains(a.start + 1 + k) && h[k] in h;
  }

  lemma SmoothHead(sched: Schedule, buf: seq<Buf>, a: Area, h: seq<nat>, pinned: bool)
    requires Smooth(sched, buf, a, h, pinned) && 1 <= a.size
    ensures sched == [] && Unlocked(buf, a.start) && Obtainable(buf, a.start)
  {
    hide Unlocked;
    assert a.Contains(a.start);
  }

  lemma {:induction false} DistinctListed(h: seq<nat>)
    requires NoRepeats(h)
    ensures |Listed(h)| == |h|
  {
    if |h| > 0 {
      var k := |h| - 1;
      DistinctListed(h[..k]);
      assert h == h[..k] + [h[k]];
      assert Listed(h) == Listed(h[..k]) + {h[k]};
    }
  }

  /** A cache that nobody has used yet. */
  lemma NewSmooth(buf: seq<Buf>, a: Area, h: seq<nat>, pid: nat)
    requires |buf| >= 2 && forall i :: 0 <= i < |buf| ==> buf[i].Free() && buf[i].holder.None?
    ensures Smooth([], buf, a, h, false) && HasOnly(buf, pid, {})
  {
    NoneInUse(buf);
  }

  lemma AllFree(buf0: seq<Buf>, buf: seq<Buf>)
    requires forall i :: 0 <= i < |buf0| ==> buf0[i].Free()
    requires SameHolders(buf0, buf)
    ensures forall i :: 0 <= i < |buf| ==> buf[i].Free()
  {
  }

  lemma NoneListed()
    ensures Listed([]) == {}
  {
  }

  lemma ListedStep(h: seq<nat>, k: nat)
    requires NoRepeats(h) && k < |h|
    ensures h[k] in Listed(h[k..]) && Listed(h[k+1..]) == Listed(h[k..]) - {h[k]}
  {
    assert h[k..] == [h[k]] + h[k+1..];
  }

  lemma InstallZero(a: Area, d: Disk, h: seq<nat>)
    requires Entries(a, d, h)
    ensures Installed(a, d, h, 0) == d
  {
  }

  lemma InstallNext(a: Area, d: Disk, h: seq<nat>, k: nat)
    requires Entries(a, d, h) && k < |h|
    ensures var images := InstallImages(a, d, h);
            |images| == |h| && images[..k+1] == images[..k] + [Installed(a, d, h, k + 1)]
  {
  }

  lemma InstallEnds(a: Area, d: Disk, h: seq<nat>)
    requires Entries(a, d, h)
    ensures var images := InstallImages(a, d, h); |images| == |h| && images[..0] == [] && images[..|h|] == images
    ensures h[0..] == h && h[|h|..] == []
  {
  }

  lemma InstallStep(a: Area, d: Disk, h: seq<nat>, k: nat)
    requires Entries(a, d, h) && k < |h|
    ensures var e := Installed(a, d, h, k);
            && |e| == |d| && a.start + 1 + k < |e| && h[k] < |e| && h[k] != a.start + 1 + k
            && Installed(a, d, h, k + 1) == e[h[k] := e[a.start + 1 + k]]
  {
  }

  lemma WriteLogZero(a: Area, d: Disk, h: seq<nat>, c: Disk)
    requires Entries(a, d, h) && |c| == |d|
    ensures LogWritten(a, d, h, c, 0) == d
  {
  }

  lemma WriteLogNext(a: Area, d: Disk, h: seq<nat>, c: Disk, k: nat)
    requires Entries(a, d, h) && |c| == |d| && k < |h|
    ensures var images := WriteLogImages(a, d, h, c);
            |images| == |h| && images[..k+1] == images[..k] + [LogWritten(a, d, h, c, k + 1)]
  {
  }

  lemma WriteLogEnds(a: Area, d: Disk, h: seq<nat>, c: Disk)
    requires Entries(a, d, h) && |c| == |d|
    ensures var images := WriteLogImages(a, d, h, c); |images| == |h| && images[..0] == [] && images[..|h|] == images
  {
  }

  /** The images of a commit are those up to the commit point, then the rest. */
  lemma CommitPrefix(a: Area, d: Disk, h: seq<nat>, c: Disk, k: nat)
    requires Entries(a, d, h) && |c| == |d| && k <= |h| + 1 && Entries(a, Committed(a, d, h, c), h)
    ensures var m := Committed(a, d, h, c);
            var first := WriteLogImages(a, d, h, c) + [m];
            var last := InstallImages(a, m, h) + [Cleared(a, Installed(a, m, h, |h|))];
            && |first| == |last| == |h| + 1 && |CommitImages(a, d, h, c)| == 2 * |h| + 2
            && CommitImages(a, d, h, c)[..k] == first[..k]
            && CommitImages(a, d, h, c)[..|h| + 1 + k] == first + last[..k]
  {
    hide Committed;
    hide Installed;
    hide LogWritten;
    hide Cleared;
    var m := Committed(a, d, h, c);
    var w, i, e := WriteLogImages(a, d, h, c), InstallImages(a, m, h), Cleared(a, Installed(a, m, h, |h|));
    assert CommitImages(a, d, h, c) == (w + [m]) + (i + [e]);
  }

  lemma WriteLogStep(a: Area, d: Disk, h: seq<nat>, c: Disk, k: nat)
    requires Entries(a, d, h) && |c| == |d| && k < |h|
    ensures var e := LogWritten(a, d, h, c, k);
            && |e| == |d| && a.start + 1 + k < |e| && h[k] < |e| && h[k] != a.start + 1 + k
            && LogWritten(a, d, h, c, k + 1) == e[a.start + 1 + k := c[h[k]]]
    ensures Entries(a, c, h) && LogWritten(a, c, h, c, k)[h[k]] == c[h[k]]
  {
  }

  class Log {
    const bc: Cache
    const a: Area
    var n: nat              // lh.n
    var block: seq<nat>     // lh.block
    var outstanding: nat
    var committing: bool

    ghost predicate Shape()
      reads this, bc
    {
      && |block| == LOGSIZE && n <= LOGSIZE && a.size <= LOGSIZE
      && |bc.contents| == |bc.disk|
      && Entries(a, bc.disk, block[..n])
    }

    /** Between commits: the on-disk log is empty, and the header lists each
        pinned block once and nothing else. */
    ghost predicate Valid()
      reads this, bc, bc.lru
    {
      && bc.Valid() && Shape() && Clean(a, bc.disk)
      && NoRepeats(block[..n]) && bc.pins == Listed(block[..n])
    }

    /** initlog: set the log up and recover from what the disk image holds. */
    constructor (image: Disk, area: Area, pid: nat)
      requires WfHeader(area, image) && area.size <= LOGSIZE
      ensures Valid() && a == area && n == 0 && outstanding == 0 && !committing
      ensures forall i :: 0 <= i < |bc.buf| ==> bc.buf[i].Free()
      ensures fresh(bc) && fresh(bc.lru)
      ensures bc.disk == bc.contents == Recovered(area, image)
      ensures bc.trace == RecoverImages(area, image)
    {
      hide Cache.Valid;
      hide Smooth;
      hide HasOnly;
      hide SameHolders;
      hide Valid;
      hide Recovered;
      hide RecoverImages;
      bc := new Cache(image);
      a := area;
      n := 0;
      block := seq(LOGSIZE, _ => 0);
      outstanding := 0;
      committing := false;
      new;
      ghost var buf := bc.buf;
      NewSmooth(buf, area, HeaderOf(image[area.start]), pid);
      RecoverFromLog(pid);
      AllFree(buf, bc.buf);
    }

    /** One turn of the loop in begin_op: false means the caller sleeps. */
    method BeginOp() returns (entered: bool)
      modifies this`outstanding
      ensures entered <==> !committing && n + (old(outstanding) + 1) * MAXOPBLOCKS <= LOGSIZE
      ensures outstanding == (if entered then old(outstanding) + 1 else old(outstanding)) && (old(Valid()) ==> Valid())
    {
      if committing { return false; }
      if n + (outstanding + 1) * MAXOPBLOCKS > LOGSIZE { return false; }
      outstanding := outstanding + 1;
      return true;
    }

    /** log_write's loop: absorb b if the header lists it, else append it. */
    method Absorb(b: nat)
      requires |block| == LOGSIZE && n < LOGSIZE
      modifies this`n, this`block
      ensures |block| == LOGSIZE && n <= LOGSIZE
      ensures block[..n] == Absorbed(old(block[..n]), b)
    {
      ghost var h := block[..n];
      var k := 0;
      while k < n && block[k] != b
        invariant k <= n && forall j :: 0 <= j < k ==> h[j] != b
      {
        k := k + 1;
      }
      assert k < n ==> b == h[k];
      block := block[k := b];
      if k == n { n := n + 1; }
    }

    /** log_write. False is one of its panics. */
    method LogWrite(i: nat, pid: nat) returns (ok: bool)
      requires Valid() && bc.Holds(pid, i)
      requires bc.buf[i].blockno < 0x1_0000_0000 && !a.Contains(bc.buf[i].blockno)
      modifies this`n, this`block, bc`buf, bc`use, bc`contents, bc`pins
      ensures Valid()
      ensures ok <==> old(n) < LOGSIZE && old(n) + 1 < a.size && outstanding >= 1
      ensures ok ==>
                var b := old(bc.buf[i].blockno);
                && block[..n] == Absorbed(old(block[..n]), b)
                && b < |old(bc.contents)| && bc.contents == old(bc.contents)[b := old(bc.buf[i].data)]
                && bc.Holds(pid, i) && !bc.use[i].edited
                && bc.buf == old(bc.buf)[i := old(bc.buf)[i].(dirty := true)]
      ensures !ok ==> block == old(block) && n == old(n) && bc.contents == old(bc.contents) && bc.buf == old(bc.buf)
    {
      if n >= LOGSIZE || n + 1 >= a.size { return false; }
      if outstanding < 1 { return false; }
      var b := bc.buf[i].blockno;
      bc.HeldBlockInRange(i, pid);
      Absorb(b);
      bc.Pin(i, pid);
      return true;
    }

    /** read_head: the disk's header becomes the in-memory one. */
    method ReadHead(pid: nat)
      requires bc.Valid() && HasOnly(bc.buf, pid, {}) && bc.pins == {} && WfHeader(a, bc.disk)
      requires Unlocked(bc.buf, a.start) && Obtainable(bc.buf, a.start) && |block| == LOGSIZE && a.size <= LOGSIZE
      modifies this`n, this`block, bc`buf, bc`use, bc.lru
      ensures bc.Valid() && SameHolders(old(bc.buf), bc.buf) && Shape()
      ensures block[..n] == HeaderOf(bc.disk[a.start])
      ensures n == Word(bc.disk[a.start], 0) && forall j :: 0 <= j < n ==> block[j] == Word(bc.disk[a.start], 1 + j)
    {
      hide SameHolders;
      hide HasOnly;
      hide Unlocked;
      hide Obtainable;
      hide Cache.Valid;
      hide Word;
      bc.ValidView();
      var head := bc.ReadBlock(a.start, pid);
      var data := head.value;
      n := Word(data, 0);
      var i := 0;
      while i < n
        invariant i <= n == Word(data, 0) <= LOGSIZE && |block| == LOGSIZE
        invariant forall j :: 0 <= j < i ==> block[j] == Word(data, 1 + j)
        modifies this`block
      {
        block := block[i := Word(data, 1 + i)];
        i := i + 1;
      }
      assert block[..n] == HeaderOf(data);
    }

    /** write_head: the in-memory header goes to disk. */
    method WriteHead(pid: nat, sched: Schedule) returns (r: Outcome<()>, rest: Schedule)
      requires bc.Valid() && HasOnly(bc.buf, pid, {}) && Shape() && a.start !in bc.pins
      modifies bc, bc.lru
      ensures bc.Valid() && Shape() && bc.pins == old(bc.pins) && (r.Done? ==> HasOnly(bc.buf, pid, {}))
      ensures StoppedBy(r, bc.buf, pid, a, [])
      ensures !r.Done? ==> bc.disk == old(bc.disk) && bc.contents == old(bc.contents) && bc.trace == old(bc.trace)
      ensures r.Done? ==>
                && bc.disk == old(bc.disk)[a.start := PutHeader(old(bc.disk)[a.start], block[..n])]
                && bc.contents == old(bc.contents)[a.start := bc.disk[a.start]]
                && bc.trace == old(bc.trace) + [bc.disk]
                && Word(bc.disk[a.start], 0) == n && forall i :: 0 <= i < n ==>
                     Word(bc.disk[a.start], 1 + i) == block[i]
      ensures sched == [] && Unlocked(old(bc.buf), a.start) ==>
                && rest == [] && !r.Locked? && (r.Done? ==> SameHolders(old(bc.buf), bc.buf))
                && (r.Done? <==> Obtainable(old(bc.buf), a.start))
    {
      hide SameHolders;
      hide HasOnly;
      hide Unlocked;
      hide Obtainable;
      hide Took;
      hide StoppedBy;
      hide LockedByOther;
      hide Cached;
      hide AnyFree;
      hide Cache.Valid;
      hide Word;
      hide SetWord;
      bc.ValidView();
      var x;
      x, rest := bc.HoldBlock(a.start, pid, sched);
      if !x.Done? {
        r := if x.NoBuffers? then NoBuffers else Locked;
        StoppedAt(r, bc.buf, pid, a, [], a.start, a.start);
        return;
      }
      ghost var h := block[..n];
      var data := SetWord(bc.buf[x.value].data, 0, n);
      ghost var data0 := data;
      var i := 0;
      while i < n
        invariant i <= n && data == PutEntries(data0, h, i)
        modifies {}
      {
        data := SetWord(data, i + 1, block[i]);
        i := i + 1;
      }
      rest := bc.PutBack(old(bc.buf), x.value, a.start, data, pid, rest);
      NotStopped(bc.buf, pid, a, []);
      HeaderWords(old(bc.disk)[a.start], h, 0);
      forall i | 0 <= i < n
        ensures Word(bc.disk[a.start], 1 + i) == block[i]
      {
        HeaderWords(old(bc.disk)[a.start], h, 1 + i);
      }
      return Done(()), rest;
    }

    /** One turn of install_trans's loop. In a commit the blocks still to be copied
        are the pinned ones; in recovery nothing is pinned. */
    method InstallOne(tail: nat, pid: nat, ghost pinned: bool, sched: Schedule, ghost d: Disk, ghost c: Disk)
      returns (r: Outcome<()>, rest: Schedule)
      requires |block| == LOGSIZE && n <= LOGSIZE && |c| == |d| && Entries(a, d, block[..n]) && tail < n
      requires bc.Valid() && HasOnly(bc.buf, pid, {}) && (pinned ==> NoRepeats(block[..n]))
      requires bc.pins == if pinned then Listed(block[..n][tail..]) else {}
      requires bc.disk == Installed(a, d, block[..n], tail) && bc.contents == Installed(a, c, block[..n], tail)
      modifies bc, bc.lru
      ensures bc.Valid() && (r.Done? ==> HasOnly(bc.buf, pid, {}))
      ensures var k := if r.Done? then tail + 1 else tail;
              && bc.pins == (if pinned then Listed(block[..n][k..]) else {})
              && bc.disk == Installed(a, d, block[..n], k) && bc.contents == Installed(a, c, block[..n], k)
      ensures StoppedBy(r, bc.buf, pid, a, block[..n])
      ensures bc.trace == old(bc.trace) + if r.Done? then [bc.disk] else []
      ensures Smooth(sched, old(bc.buf), a, block[..n], pinned) ==>
                r.Done? && rest == [] && SameHolders(old(bc.buf), bc.buf)
    {
      hide SameHolders;
      hide HasOnly;
      hide Unlocked;
      hide Obtainable;
      hide StoppedBy;
      hide LockedByOther;
      hide Cached;
      hide AnyFree;
      hide Smooth;
      hide Cache.Valid;
      hide Installed;
      hide Entries;
      hide Listed;
      hide NoRepeats;
      bc.ValidView();
      ghost var h := block[..n];
      EntriesTransfer(a, d, c, h);
      InstallStep(a, d, h, tail);
      InstallStep(a, c, h, tail);
      InstallPins(a, d, h, tail, pinned);
      if Smooth(sched, bc.buf, a, h, pinned) {
        SmoothAt(sched, bc.buf, a, h, pinned, tail);
      }
      assert h[tail] == block[tail];
      r, rest := bc.CopyBlock(a.start + 1 + tail, block[tail], false, pid, sched);
      StoppedAt(r, bc.buf, pid, a, h, a.start + 1 + tail, h[tail]);
    }

    /** install_trans: copy every logged block home. k is how many it copies. */
    method InstallTrans(pid: nat, ghost pinned: bool, sched: Schedule)
      returns (r: Outcome<()>, rest: Schedule, ghost k: nat)
      requires bc.Valid() && HasOnly(bc.buf, pid, {}) && Shape() && (pinned ==> NoRepeats(block[..n]))
      requires bc.pins == if pinned then Listed(block[..n]) else {}
      modifies bc, bc.lru
      ensures bc.Valid() && Shape() && k <= n && (r.Done? <==> k == n)
      ensures r.Done? ==> HasOnly(bc.buf, pid, {}) && bc.pins == {}
      ensures StoppedBy(r, bc.buf, pid, a, block[..n])
      ensures bc.disk == Installed(a, old(bc.disk), block[..n], k)
      ensures bc.contents == Installed(a, old(bc.contents), block[..n], k)
      ensures bc.trace == old(bc.trace) + InstallImages(a, old(bc.disk), block[..n])[..k]
      ensures Smooth(sched, old(bc.buf), a, block[..n], pinned) ==>
                r.Done? && rest == [] && SameHolders(old(bc.buf), bc.buf)
    {
      hide Cache.Valid;
      hide HasOnly;
      hide SameHolders;
      hide Smooth;
      hide StoppedBy;
      hide Installed;
      hide InstallImages;
      hide NoRepeats;
      hide Listed;
      ghost var h, d, c := block[..n], bc.disk, bc.contents;
      InstallZero(a, d, h);
      InstallZero(a, c, h);
      HoldersStart(bc.buf);
      InstallEnds(a, d, h);
      ghost var images, smooth := InstallImages(a, d, h), Smooth(sched, bc.buf, a, h, pinned);
      if smooth { SmoothNow(sched, bc.buf, a, h, pinned); }
      var tail := 0;
      rest := sched;
      while tail < n
        invariant tail <= n && bc.Valid() && HasOnly(bc.buf, pid, {})
        invariant bc.pins == if pinned then Listed(h[tail..]) else {}
        invariant bc.disk == Installed(a, d, h, tail) && bc.contents == Installed(a, c, h, tail)
        invariant bc.trace == old(bc.trace) + images[..tail]
        invariant smooth ==> rest == sched == [] && SameHolders(old(bc.buf), bc.buf)
        modifies bc, bc.lru
      {
        ghost var buf := bc.buf;
        if smooth { SmoothStays(sched, old(bc.buf), buf, a, h, pinned); }
        InstallNext(a, d, h, tail);
        r, rest := InstallOne(tail, pid, pinned, rest, d, c);
        if !r.Done? { return r, rest, tail; }
        if smooth { HoldersTrans(old(bc.buf), buf, bc.buf); }
        tail := tail + 1;
      }
      NoneListed();
      NotStopped(bc.buf, pid, a, h);
      return Done(()), rest, n;
    }

    /** One turn of write_log's loop. */
    method WriteLogOne(tail: nat, pid: nat, sched: Schedule, ghost d: Disk, ghost c: Disk)
      returns (r: Outcome<()>, rest: Schedule)
      requires |block| == LOGSIZE && n <= LOGSIZE && |c| == |d| && Entries(a, d, block[..n]) && tail < n
      requires bc.Valid() && HasOnly(bc.buf, pid, {}) && bc.pins == Listed(block[..n])
      requires bc.disk == LogWritten(a, d, block[..n], c, tail) && bc.contents == LogWritten(a, c, block[..n], c, tail)
      modifies bc, bc.lru
      ensures bc.Valid() && bc.pins == old(bc.pins) && (r.Done? ==> HasOnly(bc.buf, pid, {}))
      ensures var k := if r.Done? then tail + 1 else tail;
              bc.disk == LogWritten(a, d, block[..n], c, k) && bc.contents == LogWritten(a, c, block[..n], c, k)
      ensures StoppedBy(r, bc.buf, pid, a, block[..n])
      ensures bc.trace == old(bc.trace) + if r.Done? then [bc.disk] else []
      ensures Quiet(sched, old(bc.buf), a, block[..n]) ==>
                && rest == [] && !r.Locked? && (r.Done? ==> SameHolders(old(bc.buf), bc.buf))
                && (r.Done? <==> Obtainable(old(bc.buf), a.start + 1 + tail))
    {
      hide SameHolders;
      hide HasOnly;
      hide Unlocked;
      hide Obtainable;
      hide StoppedBy;
      hide LockedByOther;
      hide Cached;
      hide AnyFree;
      hide Quiet;
      hide Cache.Valid;
      hide LogWritten;
      hide Entries;
      hide Listed;
      ghost var h := block[..n];
      WriteLogStep(a, d, h, c, tail);
      WriteLogStep(a, c, h, c, tail);
      WriteLogPins(a, d, h, tail);
      if Quiet(sched, bc.buf, a, h) {
        QuietAt(sched, bc.buf, a, h, tail);
      }
      assert h[tail] == block[tail];
      r, rest := bc.CopyBlock(a.start + 1 + tail, block[tail], true, pid, sched);
      StoppedAt(r, bc.buf, pid, a, h, a.start + 1 + tail, h[tail]);
    }

    /** The same, seen from the state buf0 in which write_log began. */
    method WriteLogTurn(tail: nat, pid: nat, sched: Schedule, ghost d: Disk, ghost c: Disk, ghost buf0: seq<Buf>,
                        ghost use0: seq<Use>, ghost quiet: bool)
      returns (r: Outcome<()>, rest: Schedule)
      requires |block| == LOGSIZE && n <= LOGSIZE && |c| == |d| && Entries(a, d, block[..n]) && tail < n
      requires bc.Valid() && HasOnly(bc.buf, pid, {}) && bc.pins == Listed(block[..n])
      requires bc.disk == LogWritten(a, d, block[..n], c, tail) && bc.contents == LogWritten(a, c, block[..n], c, tail)
      requires Coherent(buf0, use0, d, c, bc.pins)
      requires quiet ==> Quiet(sched, buf0, a, block[..n]) && SameHolders(buf0, bc.buf)
      requires quiet ==> Room(buf0, a.start + 1, a.start + 1 + tail)
      modifies bc, bc.lru
      ensures bc.Valid() && bc.pins == old(bc.pins) && (r.Done? ==> HasOnly(bc.buf, pid, {}))
      ensures var k := if r.Done? then tail + 1 else tail;
              bc.disk == LogWritten(a, d, block[..n], c, k) && bc.contents == LogWritten(a, c, block[..n], c, k)
      ensures StoppedBy(r, bc.buf, pid, a, block[..n])
      ensures bc.trace == old(bc.trace) + if r.Done? then [bc.disk] else []
      ensures quiet ==>
                && rest == [] && !r.Locked? && (r.Done? ==> SameHolders(buf0, bc.buf))
                && if r.Done? then Room(buf0, a.start + 1, a.start + 1 + tail + 1)
                   else !Room(buf0, a.start + 1, a.start + 1 + n)
    {
      hide SameHolders;
      hide HasOnly;
      hide Obtainable;
      hide Quiet;
      hide StoppedBy;
      hide Room;
      hide Cache.Valid;
      hide Coherent;
      hide LogWritten;
      hide Entries;
      hide Listed;
      bc.IsCoherent();
      ghost var buf := bc.buf;
      if quiet {
        QuietStays(sched, buf0, buf, a, block[..n]);
        NoMoreObtainable(buf0, use0, d, c, buf, bc.use, bc.disk, bc.contents, bc.pins, a.start + 1 + tail);
        RoomNext(buf0, a.start + 1, tail);
      }
      r, rest := WriteLogOne(tail, pid, sched, d, c);
      if quiet {
        if r.Done? {
          HoldersTrans(buf0, buf, bc.buf);
        } else {
          NoRoom(buf0, a.start + 1, a.start + 1 + n, a.start + 1 + tail);
        }
      }
    }

    /** write_log: copy every logged block from the cache to the log. k is how many
        it copies. */
    method WriteLog(pid: nat, sched: Schedule) returns (r: Outcome<()>, rest: Schedule, ghost k: nat)
      requires bc.Valid() && HasOnly(bc.buf, pid, {}) && Shape() && bc.pins == Listed(block[..n])
      modifies bc, bc.lru
      ensures bc.Valid() && Shape() && bc.pins == old(bc.pins) && k <= n && (r.Done? <==> k == n)
      ensures r.Done? ==> HasOnly(bc.buf, pid, {})
      ensures StoppedBy(r, bc.buf, pid, a, block[..n])
      ensures bc.disk == LogWritten(a, old(bc.disk), block[..n], old(bc.contents), k)
      ensures bc.contents == LogWritten(a, old(bc.contents), block[..n], old(bc.contents), k)
      ensures bc.trace == old(bc.trace) + WriteLogImages(a, old(bc.disk), block[..n], old(bc.contents))[..k]
      ensures Quiet(sched, old(bc.buf), a, block[..n]) ==>
                && rest == [] && !r.Locked? && (r.Done? ==> SameHolders(old(bc.buf), bc.buf))
                && (r.Done? <==> Room(old(bc.buf), a.start + 1, a.start + 1 + n))
    {
      hide HasOnly;
      hide SameHolders;
      hide Unlocked;
      hide Obtainable;
      hide Quiet;
      hide StoppedBy;
      hide Cache.Valid;
      hide Coherent;
      hide LogWritten;
      hide WriteLogImages;
      hide Listed;
      hide Room;
      hide Entries;
      bc.IsCoherent();
      ghost var h, d, c := block[..n], bc.disk, bc.contents;
      ghost var buf0, use0 := bc.buf, bc.use;
      NothingAsked(buf0, a.start + 1);
      EntriesTransfer(a, d, c, h);
      WriteLogZero(a, d, h, c);
      WriteLogZero(a, c, h, c);
      WriteLogEnds(a, d, h, c);
      HoldersStart(bc.buf);
      ghost var images, quiet := WriteLogImages(a, d, h, c), Quiet(sched, bc.buf, a, h);
      if quiet { QuietNow(sched, bc.buf, a, h); }
      var tail := 0;
      rest := sched;
      while tail < n
        invariant tail <= n && bc.Valid() && HasOnly(bc.buf, pid, {}) && bc.pins == Listed(h)
        invariant bc.disk == LogWritten(a, d, h, c, tail) && bc.contents == LogWritten(a, c, h, c, tail)
        invariant bc.trace == old(bc.trace) + images[..tail]
        invariant quiet ==>
                    rest == sched == [] && SameHolders(buf0, bc.buf) && Room(buf0, a.start + 1, a.start + 1 + tail)
        modifies bc, bc.lru
      {
        WriteLogNext(a, d, h, c, tail);
        r, rest := WriteLogTurn(tail, pid, rest, d, c, buf0, use0, quiet);
        if !r.Done? {
          EntriesTransfer(a, d, bc.disk, h);
          return r, rest, tail;
        }
        tail := tail + 1;
      }
      EntriesTransfer(a, d, bc.disk, h);
      NotStopped(bc.buf, pid, a, h);
      return Done(()), rest, n;
    }

    /** The end of commit and of recovery: n = 0, and write_head. */
    method ClearHead(pid: nat, sched: Schedule) returns (r: Outcome<()>, rest: Schedule)
      requires bc.Valid() && HasOnly(bc.buf, pid, {}) && Shape() && bc.pins == {}
      modifies this`n, bc, bc.lru
      ensures bc.Valid() && a.Fits(old(bc.disk))
      ensures StoppedBy(r, bc.buf, pid, a, [])
      ensures !r.Done? ==> bc.disk == old(bc.disk) && bc.contents == old(bc.contents) && bc.trace == old(bc.trace)
      ensures r.Done? ==>
                && Valid() && HasOnly(bc.buf, pid, {}) && n == 0
                && bc.disk == bc.contents == Cleared(a, old(bc.disk)) && bc.trace == old(bc.trace) + [bc.disk]
      ensures sched == [] && Unlocked(old(bc.buf), a.start) && Obtainable(old(bc.buf), a.start) ==>
                r.Done? && rest == [] && SameHolders(old(bc.buf), bc.buf)
    {
      hide SameHolders;
      hide HasOnly;
      hide Unlocked;
      hide StoppedBy;
      hide Obtainable;
      hide Cache.Valid;
      bc.ValidView();
      ClearedIsClean(a, bc.disk);
      n := 0;
      assert block[..n] == [];
      assert bc.disk == bc.contents;
      r, rest := WriteHead(pid, sched);
    }

    /** What commit does after the commit point, and recovery after read_head. k counts
        the block writes. */
    method Finish(pid: nat, ghost pinned: bool, sched: Schedule) returns (r: Outcome<()>, rest: Schedule, ghost k: nat)
      requires bc.Valid() && HasOnly(bc.buf, pid, {}) && Shape() && (pinned ==> NoRepeats(block[..n]))
      requires bc.pins == if pinned then Listed(block[..n]) else {}
      modifies this`n, bc, bc.lru
      ensures bc.Valid() && k <= old(n) + 1 && (r.Done? <==> k == old(n) + 1)
      ensures StoppedBy(r, bc.buf, pid, a, old(block[..n]))
      ensures |InstallImages(a, old(bc.disk), old(block[..n]))| == old(n)
      ensures bc.trace == old(bc.trace) + (InstallImages(a, old(bc.disk), old(block[..n]))
                                           + [Cleared(a, Installed(a, old(bc.disk), old(block[..n]), old(n)))])[..k]
      ensures r.Done? ==>
                && Valid() && HasOnly(bc.buf, pid, {}) && n == 0 && bc.contents == bc.disk
                && bc.disk == Cleared(a, Installed(a, old(bc.disk), old(block[..n]), old(n)))
                && SameHome(a, bc.contents, Installed(a, old(bc.contents), old(block[..n]), old(n)))
      ensures Smooth(sched, old(bc.buf), a, old(block[..n]), pinned) ==>
                r.Done? && rest == [] && SameHolders(old(bc.buf), bc.buf)
    {
      hide Cache.Valid;
      hide HasOnly;
      hide SameHolders;
      hide Smooth;
      hide StoppedBy;
      hide Unlocked;
      hide Obtainable;
      hide Valid;
      hide InstallImages;
      hide Installed;
      hide Listed;
      hide NoRepeats;
      ghost var h, d, smooth := block[..n], bc.disk, Smooth(sched, bc.buf, a, block[..n], pinned);
      InstallEnds(a, d, h);
      r, rest, k := InstallTrans(pid, pinned, sched);
      ghost var images, last := InstallImages(a, d, h), Cleared(a, Installed(a, d, h, |h|));
      assert (images + [last])[..k] == images[..k];
      if !r.Done? { return; }
      ghost var buf := bc.buf;
      if smooth {
        SmoothStays(sched, old(bc.buf), buf, a, h, pinned);
        SmoothHead(sched, buf, a, h, pinned);
      }
      bc.ValidView();
      r, rest := ClearHead(pid, rest);
      StoppedWider(r, bc.buf, pid, a, h);
      if smooth { HoldersTrans(old(bc.buf), buf, bc.buf); }
      if r.Done? {
        k := k + 1;
        assert (images + [last])[..k] == images + [last];
      }
    }

    /** recover_from_log: finish a committed transaction and clear the log. No other
        process runs yet. */
    method RecoverFromLog(pid: nat)
      requires bc.Valid() && HasOnly(bc.buf, pid, {}) && bc.pins == {} && WfHeader(a, bc.disk)
      requires Smooth([], bc.buf, a, HeaderOf(bc.disk[a.start]), false) && |block| == LOGSIZE && a.size <= LOGSIZE
      modifies this`n, this`block, bc, bc.lru
      ensures Valid() && SameHolders(old(bc.buf), bc.buf) && n == 0
      ensures bc.disk == bc.contents == Recovered(a, old(bc.disk))
      ensures bc.trace == old(bc.trace) + RecoverImages(a, old(bc.disk))
    {
      hide Cache.Valid;
      hide HasOnly;
      hide SameHolders;
      hide Smooth;
      hide Unlocked;
      hide Obtainable;
      hide Valid;
      hide Installed;
      ghost var h := HeaderOf(bc.disk[a.start]);
      SmoothHead([], bc.buf, a, h, false);
      ReadHead(pid);
      ghost var buf := bc.buf;
      SmoothStays([], old(bc.buf), buf, a, h, false);
      NoneHeld(old(bc.buf), buf, pid);
      var r, rest, k := Finish(pid, false, []);
      HoldersTrans(old(bc.buf), buf, bc.buf);
    }

    /** commit up to and including the header write that is the commit point. k counts
        the block writes. */
    method CommitPoint(pid: nat, sched: Schedule) returns (r: Outcome<()>, rest: Schedule, ghost k: nat)
      requires bc.Valid() && HasOnly(bc.buf, pid, {}) && Shape() && bc.pins == Listed(block[..n])
      modifies bc, bc.lru
      ensures bc.Valid() && Shape() && bc.pins == old(bc.pins) && k <= n + 1 && (r.Done? <==> k == n + 1)
      ensures StoppedBy(r, bc.buf, pid, a, block[..n])
      ensures |WriteLogImages(a, old(bc.disk), block[..n], old(bc.contents))| == n
      ensures bc.trace == old(bc.trace) + (WriteLogImages(a, old(bc.disk), block[..n], old(bc.contents))
                                           + [Committed(a, old(bc.disk), block[..n], old(bc.contents))])[..k]
      ensures r.Done? ==>
                && HasOnly(bc.buf, pid, {})
                && bc.disk == Committed(a, old(bc.disk), block[..n], old(bc.contents))
                && bc.contents == LogWritten(a, old(bc.contents), block[..n], old(bc.contents),
                                             n)[a.start := bc.disk[a.start]]
      ensures Quiet(sched, old(bc.buf), a, block[..n]) ==>
                && rest == [] && !r.Locked? && (r.Done? ==> SameHolders(old(bc.buf), bc.buf))
                && (r.Done? <==> Room(old(bc.buf), a.start, a.start + 1 + n))
    {
      hide HasOnly;
      hide SameHolders;
      hide Unlocked;
      hide Obtainable;
      hide Quiet;
      hide StoppedBy;
      hide Cache.Valid;
      hide Coherent;
      hide PutHeader;
      hide LogWritten;
      hide WriteLogImages;
      bc.IsCoherent();
      ghost var h, d, c := block[..n], bc.disk, bc.contents;
      ghost var buf0, use0, quiet := bc.buf, bc.use, Quiet(sched, bc.buf, a, h);
      WriteLogEnds(a, d, h, c);
      r, rest, k := WriteLog(pid, sched);
      ghost var images, last := WriteLogImages(a, d, h, c), Committed(a, d, h, c);
      assert (images + [last])[..k] == images[..k];
      if quiet { QuietNow(sched, buf0, a, h); }
      if !r.Done? { return; }
      ghost var buf := bc.buf;
      ListedApart(a, d, h, 0, a.start);
      assert h[0..] == h;
      if quiet {
        bc.IsCoherent();
        QuietStays(sched, buf0, buf, a, h);
        QuietHead(sched, buf, a, h);
        NoMoreObtainable(buf0, use0, d, c, buf, bc.use, bc.disk, bc.contents, bc.pins, a.start);
      }
      r, rest := WriteHead(pid, rest);
      StoppedWider(r, bc.buf, pid, a, h);
      if r.Done? {
        k := k + 1;
        assert (images + [last])[..k] == images + [last];
        if quiet { HoldersTrans(buf0, buf, bc.buf); }
      }
    }

    /** commit of a header that lists some block. k counts the block writes. */
    method CommitSome(pid: nat, sched: Schedule) returns (r: Outcome<()>, ghost k: nat)
      requires bc.Valid() && HasOnly(bc.buf, pid, {}) && Shape() && NoRepeats(block[..n])
               && bc.pins == Listed(block[..n])
      modifies this`n, bc, bc.lru
      ensures bc.Valid() && Entries(a, old(bc.disk), old(block[..n])) && |old(bc.contents)| == |old(bc.disk)|
      ensures k <= |CommitImages(a, old(bc.disk), old(block[..n]), old(bc.contents))| == 2 * old(n) + 2
      ensures bc.trace == old(bc.trace) + CommitImages(a, old(bc.disk), old(block[..n]), old(bc.contents))[..k]
      ensures StoppedBy(r, bc.buf, pid, a, old(block[..n]))
      ensures r.Done? <==> k == 2 * old(n) + 2
      ensures r.Done? ==>
                && Valid() && HasOnly(bc.buf, pid, {}) && n == 0
                && SameHome(a, bc.contents, old(bc.contents)) && bc.disk == bc.contents
      ensures Quiet(sched, old(bc.buf), a, old(block[..n])) ==>
                && !r.Locked? && (r.Done? <==> Room(old(bc.buf), a.start, a.start + 1 + old(n)))
                && (if r.Done? then SameHolders(old(bc.buf), bc.buf) else k <= old(n))
    {
      hide Cache.Valid;
      hide HasOnly;
      hide SameHolders;
      hide Quiet;
      hide StoppedBy;
      hide Room;
      hide Smooth;
      hide Valid;
      hide Installed;
      hide LogWritten;
      hide WriteLogImages;
      hide InstallImages;
      hide CommitImages;
      hide Committed;
      hide SameHome;
      hide NoRepeats;
      hide Listed;
      hide Cleared;
      hide Entries;
      ghost var h, d, c, buf0 := block[..n], bc.disk, bc.contents, bc.buf;
      EntriesTransfer(a, d, c, h);
      var rest;
      r, rest, k := CommitPoint(pid, sched);
      CommitEntries(a, d, h, c);
      CommitPrefix(a, d, h, c, k);
      if !r.Done? { return; }
      ghost var buf := bc.buf;
      HomeKept(a, c, h, bc.disk[a.start]);
      ghost var c1 := bc.contents;
      if Quiet(sched, buf0, a, h) { SmoothCommit(sched, buf0, buf, a, h); }
      ghost var k1;
      r, rest, k1 := Finish(pid, true, rest);
      CommitPrefix(a, d, h, c, k1);
      k := |h| + 1 + k1;
      if r.Done? { HomeTrans(a, bc.contents, Installed(a, c1, h, |h|), c); }
      if Quiet(sched, buf0, a, h) { HoldersTrans(buf0, buf, bc.buf); }
    }

    /** commit, among readers. Wherever it ends or waits, the disk has gone through the
        first k images of CommitImages and through no others; done, it agrees with the
        cache, whose home contents have not changed. It panics only when no buffer can
        be recycled, and waits only for a block that another process has locked. If the readers take no steps and
        have locked no block of the transaction, it ends, and it panics exactly when
        some block of the log that it needs is not obtainable: before the commit point. */
    method Commit(pid: nat, sched: Schedule) returns (r: Outcome<()>, ghost k: nat)
      requires Valid() && HasOnly(bc.buf, pid, {})
      modifies this`n, bc, bc.lru
      ensures |old(bc.contents)| == |old(bc.disk)| && Entries(a, old(bc.disk), old(block[..n]))
      ensures k <= |CommitImages(a, old(bc.disk), old(block[..n]), old(bc.contents))|
      ensures bc.trace == old(bc.trace) + CommitImages(a, old(bc.disk), old(block[..n]), old(bc.contents))[..k]
      ensures r.NoBuffers? ==> !AnyFree(bc.buf)
      ensures r.Locked? ==>
                exists b :: (a.Contains(b) || b in old(block[..n])) && LockedByOther(bc.buf, pid, b)
      ensures r.Done? <==> k == if old(n) == 0 then 0 else 2 * old(n) + 2
      ensures r.Done? ==>
                && Valid() && HasOnly(bc.buf, pid, {}) && n == 0
                && SameHome(a, bc.contents, old(bc.contents)) && bc.disk == bc.contents
      ensures Quiet(sched, old(bc.buf), a, old(block[..n])) ==>
                && !r.Locked? && (r.Done? <==> old(n) == 0 || Room(old(bc.buf), a.start, a.start + 1 + old(n)))
                && (if r.Done? then SameHolders(old(bc.buf), bc.buf) else k <= old(n))
      ensures forall i :: |old(bc.trace)| <= i < |bc.trace| ==>
                RecoversTo(a, bc.trace[i], old(bc.disk), old(bc.contents))
    {
      hide Cache.Valid;
      hide HasOnly;
      hide SameHolders;
      hide Quiet;
      hide Room;
      hide CommitImages;
      hide RecoversTo;
      hide NoRepeats;
      bc.ValidView();
      HoldersStart(bc.buf);
      ghost var h, d, c, trace := block[..n], bc.disk, bc.contents, bc.trace;
      if n == 0 {
        NothingListed(h);
        return Done(()), 0;
      }
      r, k := CommitSome(pid, sched);
      ImagesRecover(a, d, h, c, k);
      AddedOnly(a, d, c, trace, CommitImages(a, d, h, c)[..k]);
    }

    /** end_op: the last operation out commits. */
    method EndOp(pid: nat, sched: Schedule) returns (r: Ending, ghost k: nat)
      requires Valid() && HasOnly(bc.buf, pid, {}) && outstanding >= 1
      modifies this, bc, bc.lru
      ensures |old(bc.contents)| == |old(bc.disk)| && Entries(a, old(bc.disk), old(block[..n]))
      ensures outstanding == old(outstanding) - 1
      ensures r.Panicked? <==> old(committing)
      ensures r.Left? <==> !old(committing) && old(outstanding) > 1
      ensures !r.Commits? ==> unchanged(bc) && unchanged(bc.lru) && unchanged(`n) && unchanged(`block)
      ensures !r.Commits? ==> Valid() && committing == old(committing)
      ensures r.Commits? ==>
                && k <= |CommitImages(a, old(bc.disk), old(block[..n]), old(bc.contents))|
                && bc.trace == old(bc.trace) + CommitImages(a, old(bc.disk), old(block[..n]), old(bc.contents))[..k]
                && (r.outcome.NoBuffers? ==> !AnyFree(bc.buf))
                && (r.outcome.Locked? ==>
                      exists b :: (a.Contains(b) || b in old(block[..n])) && LockedByOther(bc.buf, pid, b))
                && (r.outcome.Done? ==> Valid() && HasOnly(bc.buf, pid, {}) && n == 0) && committing == !r.outcome.Done?
                && (r.outcome.Done? ==> SameHome(a, bc.contents, old(bc.contents)) && bc.disk == bc.contents)
                && (r.outcome.Done? <==> k == if old(n) == 0 then 0 else 2 * old(n) + 2)
      ensures forall i :: |old(bc.trace)| <= i < |bc.trace| ==>
                RecoversTo(a, bc.trace[i], old(bc.disk), old(bc.contents))
      ensures r.Commits? && Quiet(sched, old(bc.buf), a, old(block[..n])) ==>
                !r.outcome.Locked? && (r.outcome.Done? <==>
                                         old(n) == 0 || Room(old(bc.buf), a.start, a.start + 1 + old(n)))
    {
      hide Cache.Valid;
      hide HasOnly;
      hide SameHolders;
      hide Quiet;
      hide Room;
      hide CommitImages;
      hide RecoversTo;
      outstanding := outstanding - 1;
      if committing { return Panicked, 0; }
      if outstanding > 0 { return Left, 0; }
      committing := true;
      var outcome;
      outcome, k := Commit(pid, sched);
      if outcome.Done? { committing := false; }
      return Commits(outcome), k;
    }

    /** Between commits the buffers in use are the logged blocks' and the readers'. So,
        while nobody references a block of the log, there is room to commit exactly if
        fewer than NBUF - n clean buffers are referenced. */
    lemma RoomToCommit()
      requires Valid()
      ensures InUse(bc.buf) == n + Readers(bc.buf) && |bc.buf| == NBUF
      ensures (forall b :: a.Contains(b) ==> !Referenced(bc.buf, b)) ==>
                (Room(bc.buf, a.start, a.start + 1 + n) <==> n + Readers(bc.buf) < NBUF)
    {
      DistinctListed(block[..n]);
      PinsAndReaders(bc.buf, bc.pins);
      if forall b :: a.Contains(b) ==> !Referenced(bc.buf, b) {
        assert a.Contains(a.start);
        assert Room(bc.buf, a.start, a.start + 1 + n) ==> Obtainable(bc.buf, a.start);
      }
    }
  }

  /** How end_op ends: other operations remain, it commits, or the panic
      "log.committing". */
  datatype Ending = Left | Commits(outcome: Outcome<()>) | Panicked

  /** Recovery from e gives the home blocks of d or those of c. */
  ghost predicate RecoversTo(a: Area, e: Disk, d: Disk, c: Disk) {
    WfHeader(a, e) && (SameHome(a, Recovered(a, e), d) || SameHome(a, Recovered(a, e), c))
  }

  /** Every image that a commit leaves recovers to the whole old or the whole new state. */
  lemma ImagesRecover(a: Area, d: Disk, h: seq<nat>, c: Disk, k: nat)
    requires Clean(a, d) && Entries(a, d, h) && |c| == |d| && k <= |CommitImages(a, d, h, c)|
    requires forall b :: 0 <= b < |d| && b !in h ==> c[b] == d[b]
    ensures forall i :: 0 <= i < k ==> RecoversTo(a, CommitImages(a, d, h, c)[..k][i], d, c)
  {
    hide CommitImages;
    hide Recovered;
    hide WfHeader;
    forall i | 0 <= i < k
      ensures RecoversTo(a, CommitImages(a, d, h, c)[..k][i], d, c)
    {
      CommitIsAtomic(a, d, h, c, i + 1);
      assert ([d] + CommitImages(a, d, h, c))[i + 1] == CommitImages(a, d, h, c)[i];
      assert Applied(d, h, c) == c;
    }
  }

  lemma AddedOnly(a: Area, d: Disk, c: Disk, trace: seq<Disk>, images: seq<Disk>)
    requires forall i :: 0 <= i < |images| ==> RecoversTo(a, images[i], d, c)
    ensures forall i :: |trace| <= i < |trace + images| ==> RecoversTo(a, (trace + images)[i], d, c)
  {
    hide RecoversTo;
    forall i | |trace| <= i < |trace + images|
      ensures RecoversTo(a, (trace + images)[i], d, c)
    {
      assert (trace + images)[i] == images[i - |trace|];
    }
  }

  lemma HomeTrans(a: Area, x: Disk, y: Disk, z: Disk)
    requires SameHome(a, x, y) && SameHome(a, y, z)
    ensures SameHome(a, x, z)
  {
  }

  lemma NothingListed(h: seq<nat>)
    ensures h == [] ==> forall b :: b !in h
  {
  }

  lemma SmoothNow(sched: Schedule, buf: seq<Buf>, a: Area, h: seq<nat>, pinned: bool)
    requires Smooth(sched, buf, a, h, pinned)
    ensures sched == []
  {
  }

  lemma QuietNow(sched: Schedule, buf: seq<Buf>, a: Area, h: seq<nat>)
    requires Quiet(sched, buf, a, h)
    ensures sched == []
  {
  }

  lemma WriteLogPins(a: Area, d: Disk, h: seq<nat>, k: nat)
    requires Entries(a, d, h) && k < |h|
    ensures |h| < a.size && h[k] in Listed(h) && a.start + 1 + k !in Listed(h)
  {
    ListedApart(a, d, h, 0, a.start + 1 + k);
    assert h[0..] == h;
  }

  lemma QuietAt(sched: Schedule, buf: seq<Buf>, a: Area, h: seq<nat>, k: nat)
    requires Quiet(sched, buf, a, h) && k < |h| < a.size
    ensures sched == [] && Unlocked(buf, a.start + 1 + k) && Unlocked(buf, h[k])
  {
    hide Unlocked;
    assert a.Contains(a.start + 1 + k) && h[k] in h;
  }

  lemma QuietHead(sched: Schedule, buf: seq<Buf>, a: Area, h: seq<nat>)
    requires Quiet(sched, buf, a, h) && 1 <= a.size
    ensures Unlocked(buf, a.start)
  {
    hide Unlocked;
    assert a.Contains(a.start);
  }

  /** After the commit point nothing stands in the way that did not before. */
  lemma SmoothCommit(sched: Schedule, buf0: seq<Buf>, buf: seq<Buf>, a: Area, h: seq<nat>)
    requires Quiet(sched, buf0, a, h) && Room(buf0, a.start, a.start + 1 + |h|) && SameHolders(buf0, buf)
    ensures Smooth(sched, buf, a, h, true) && sched == []
  {
    hide Quiet;
    hide Room;
    hide SameHolders;
    QuietNow(sched, buf0, a, h);
    QuietStays(sched, buf0, buf, a, h);
    RoomStays(buf0, buf, a.start, a.start + 1 + |h|);
  }

  lemma NoneHeld(buf0: seq<Buf>, buf: seq<Buf>, pid: nat)
    requires HasOnly(buf0, pid, {}) && SameHolders(buf0, buf)
    ensures HasOnly(buf, pid, {})
  {
  }

  /** No block of the log is listed. */
  lemma ListedApart(a: Area, d: Disk, h: seq<nat>, k: nat, b: nat)
    requires Entries(a, d, h) && k <= |h| && a.Contains(b)
    ensures b !in Listed(h[k..])
  {
  }

  lemma CommitEntries(a: Area, d: Disk, h: seq<nat>, c: Disk)
    requires Entries(a, d, h) && |c| == |d|
    ensures Entries(a, Committed(a, d, h, c), h)
  {
  }

  // ------------------------------------------------------- a commit that panics

  /** The buffers in use are those of blocks lo..hi-1. */
  ghost predicate UsedFor(buf: seq<Buf>, lo: nat, hi: nat) {
    forall i :: 0 <= i < |buf| && !buf[i].Free() ==> buf[i].dev == ROOTDEV && lo <= buf[i].blockno < hi
  }

  ghost predicate NoneLocked(buf: seq<Buf>) {
    forall i :: 0 <= i < |buf| ==> buf[i].holder.None?
  }

  /** bread of the next block, while a buffer can be recycled. */
  method ReadNext(bc: Cache, lo: nat, b: nat, pid: nat) returns (i: nat)
    requires bc.Valid() && UsedFor(bc.buf, lo, b) && lo <= b < |bc.disk| && InUse(bc.buf) < NBUF
    modifies bc`buf, bc`use, bc.lru
    ensures bc.Valid() && UsedFor(bc.buf, lo, b + 1) && InUse(bc.buf) == InUse(old(bc.buf)) + 1
    ensures bc.Owns(i, b, pid) && |bc.buf| == |old(bc.buf)| && bc.buf == old(bc.buf)[i := bc.buf[i]]
    ensures bc.buf[i].refcnt == 1
  {
    hide Cache.Valid;
    hide Cached;
    bc.ValidView();
    bc.IsCoherent();
    FreeExactly(bc.buf);
    FreeUnlocked(bc.buf, bc.use, bc.disk, bc.contents, bc.pins, lo, b);
    var r, rest := bc.Bread(b, pid, []);
    i := r.value;
    InUseOne(old(bc.buf), i, bc.buf[i]);
  }

  lemma FreeUnlocked(buf: seq<Buf>, use: seq<Use>, disk: Disk, contents: Disk, pins: set<nat>, lo: nat, b: nat)
    requires Coherent(buf, use, disk, contents, pins) && UsedFor(buf, lo, b)
    ensures Unlocked(buf, b) && b !in pins
  {
    forall i | 0 <= i < |buf| && buf[i].Is(ROOTDEV, b)
      ensures buf[i].holder.None?
    {
      assert Counted(buf[i], use[i]);
    }
  }

  lemma NoneUsed(buf: seq<Buf>, use: seq<Use>, disk: Disk, contents: Disk, pins: set<nat>)
    requires Coherent(buf, use, disk, contents, pins) && forall i :: 0 <= i < |buf| ==> buf[i].Free()
    ensures NoneLocked(buf) && InUse(buf) == 0
  {
    NoneInUse(buf);
    forall i | 0 <= i < |buf|
      ensures buf[i].holder.None?
    {
      assert Counted(buf[i], use[i]);
    }
  }

  /** An operation logs the next block. */
  method LogNext(log: Log, lo: nat, b: nat, pid: nat)
    requires log.Valid() && UsedFor(log.bc.buf, lo, b) && NoneLocked(log.bc.buf) && InUse(log.bc.buf) == log.n
    requires lo <= b < |log.bc.disk| && b < 0x1_0000_0000 && !log.a.Contains(b)
    requires log.n + 1 < log.a.size && log.n < NBUF && log.outstanding >= 1
    modifies log`n, log`block, log.bc, log.bc.lru
    ensures log.Valid() && UsedFor(log.bc.buf, lo, b + 1) && NoneLocked(log.bc.buf)
    ensures log.n == old(log.n) + 1 == InUse(log.bc.buf) && |log.bc.disk| == |old(log.bc.disk)|
    ensures log.block[..log.n] == old(log.block[..log.n]) + [b]
  {
    hide Cache.Valid;
    hide Coherent;
    hide Entries;
    hide Clean;
    hide NoRepeats;
    hide Unlocked;
    hide OwnKept;
    log.bc.ValidView();
    log.bc.IsCoherent();
    FreeUnlocked(log.bc.buf, log.bc.use, log.bc.disk, log.bc.contents, log.bc.pins, lo, b);
    var i := ReadNext(log.bc, lo, b, pid);
    ghost var held := log.bc.buf;
    var ok := log.LogWrite(i, pid);
    var rest := log.bc.Brelse(i, pid, []);
    assert log.bc.buf == held[i := log.bc.buf[i]];
    InUseOne(held, i, log.bc.buf[i]);
  }

  /** On a disk as mkfs lays it out, three operations log blocks 32 to 59 between them. */
  method LogMany(image: Disk) returns (log: Log)
    requires |image| == 1000 && WfHeader(Area(2, LOGSIZE), image)
    ensures fresh(log) && fresh(log.bc) && fresh(log.bc.lru) && log.Valid() && log.a == Area(2, LOGSIZE)
    ensures UsedFor(log.bc.buf, 32, 60) && NoneLocked(log.bc.buf) && log.n == 28 == InUse(log.bc.buf)
    ensures |log.bc.disk| == 1000 && log.outstanding == 3 && !log.committing
    ensures forall x :: x in log.block[..log.n] ==> 32 <= x < 60
  {
    hide Log.Valid;
    hide WfHeader;
    hide Recovered;
    hide RecoverImages;
    hide UsedFor;
    hide NoneLocked;
    log := new Log(image, Area(2, LOGSIZE), 1);
    StartUnused(log);
    RecoveredSize(Area(2, LOGSIZE), image);
    var first := log.BeginOp();
    var second := log.BeginOp();
    var third := log.BeginOp();
    var b := 32;
    while b < 60
      invariant 32 <= b <= 60 && log.Valid() && UsedFor(log.bc.buf, 32, b) && NoneLocked(log.bc.buf)
      invariant log.n == b - 32 == InUse(log.bc.buf) && |log.bc.disk| == 1000
      invariant log.outstanding == 3 && !log.committing && log.a == Area(2, LOGSIZE) && |log.block| == LOGSIZE
      invariant forall x :: x in log.block[..log.n] ==> 32 <= x < b
    {
      LogNext(log, 32, b, 1 + (b - 32) / 10);
      LogShape(log);
      b := b + 1;
    }
  }

  lemma StartUnused(log: Log)
    requires log.Valid() && forall i :: 0 <= i < |log.bc.buf| ==> log.bc.buf[i].Free()
    ensures NoneLocked(log.bc.buf) && InUse(log.bc.buf) == 0 && UsedFor(log.bc.buf, 32, 32) && |log.block| == LOGSIZE
  {
    hide Cache.Valid;
    log.bc.IsCoherent();
    NoneUsed(log.bc.buf, log.bc.use, log.bc.disk, log.bc.contents, log.bc.pins);
  }

  lemma LogShape(log: Log)
    requires log.Valid()
    ensures |log.block| == LOGSIZE && log.n <= LOGSIZE
  {
  }

  lemma RecoveredSize(a: Area, image: Disk)
    requires WfHeader(a, image)
    ensures |Recovered(a, image)| == |image|
  {
  }

  /** Every buffer is pinned or referenced, and none of them has a block of the log. */
  lemma NothingLeft(buf: seq<Buf>, a: Area, h: seq<nat>, lo: nat, mid: nat, hi: nat)
    requires UsedFor(buf, lo, hi) && InUse(buf) == |buf| && a.start + a.size <= lo && 1 <= a.size
    requires forall i :: 0 <= i < |buf| && buf[i].holder.Some? ==> buf[i].blockno >= mid
    requires lo <= mid && forall x :: x in h ==> x < mid
    ensures Quiet([], buf, a, h) && !Room(buf, a.start, a.start + 1 + |h|)
  {
    FreeExactly(buf);
    assert !Obtainable(buf, a.start);
  }

  /** Readers can stop a commit: while 28 blocks are logged two readers hold two more,
      and the commit that the last end_op makes meets the panic "no buffers". */
  method ReadersStopCommit(image: Disk) returns (r: Ending)
    requires |image| == 1000 && WfHeader(Area(2, LOGSIZE), image)
    ensures r == Commits(NoBuffers)
  {
    hide Log.Valid;
    hide WfHeader;
    hide UsedFor;
    hide Quiet;
    hide Room;
    hide CommitImages;
    var log := LogMany(image);
    TwoReaders(log);
    ghost var k;
    r, k := log.EndOp(1, []);
    r, k := log.EndOp(2, []);
    r, k := log.EndOp(3, []);
  }

  /** Two readers take the last two buffers. */
  method TwoReaders(log: Log)
    requires log.Valid() && log.a == Area(2, LOGSIZE) && |log.bc.disk| == 1000
    requires UsedFor(log.bc.buf, 32, 60) && NoneLocked(log.bc.buf) && log.n == 28 == InUse(log.bc.buf)
    requires forall x :: x in log.block[..log.n] ==> 32 <= x < 60
    modifies log.bc`buf, log.bc`use, log.bc.lru
    ensures log.Valid() && Quiet([], log.bc.buf, log.a, log.block[..log.n])
    ensures !Room(log.bc.buf, log.a.start, log.a.start + 1 + log.n)
    ensures forall i :: 0 <= i < |log.bc.buf| && log.bc.buf[i].holder.Some? ==> log.bc.buf[i].holder.value in {4, 5}
  {
    hide Cache.Valid;
    hide UsedFor;
    hide Quiet;
    hide Room;
    log.bc.ValidView();
    var i := ReadNext(log.bc, 32, 60, 4);
    log.bc.ValidView();
    var j := ReadNext(log.bc, 32, 61, 5);
    log.bc.ValidView();
    NothingLeft(log.bc.buf, log.a, log.block[..log.n], 32, 60, 62);
  }

  lemma EntriesTransfer(a: Area, d: Disk, e: Disk, h: seq<nat>)
    requires Entries(a, d, h) && |e| == |d|
    ensures Entries(a, e, h) && a.start < |d|
  {
  }

  /** Installing the log copies of the cached contents changes no home block. */
  lemma HomeKept(a: Area, c: Disk, h: seq<nat>, head: Block)
    requires Entries(a, c, h)
    ensures var c1 := LogWritten(a, c, h, c, |h|)[a.start := head];
            Entries(a, c1, h) && SameHome(a, Installed(a, c1, h, |h|), c)
  {
    var c1 := LogWritten(a, c, h, c, |h|)[a.start := head];
    assert h[..|h|] == h;
    var e := Installed(a, c1, h, |h|);
    forall b | 0 <= b < |c| && !a.Contains(b)
      ensures e[b] == c[b]
    {
      if b in h {
        InstalledFromLog(a, c1, h, c, |h|, b);
      }
    }
  }
}

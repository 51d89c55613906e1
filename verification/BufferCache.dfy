/** The buffer cache (bio.c) over the in-memory disk of memide.c.

    Every method of Cache up to BrelseDrop is one atomic step of some process: a
    critical section under bcache.lock, the taking or dropping of a buffer's sleep
    lock, one disk transfer, or one change the holder makes. An interleaving of
    processes is a sequence of such calls, and each call keeps Valid(). The methods
    after it are whole calls of one process, between whose steps the others take
    turns. */
module BufferCache {
  import opened Options
  import opened Blocks
  import opened CrashLog
  import opened LruList
  import opened Buffers

  class Cache {
    var disk: Disk
    var buf: seq<Buf>
    const lru: List
    /** The disk after each block write so far. */
    ghost var trace: seq<Disk>
    /** For each block, the contents last logged or written. */
    ghost var contents: Disk
    /** What processes are about to do with each buffer. */
    var use: seq<Use>
    /** The blocks that dirty buffers pin. */
    ghost var pins: set<nat>

    ghost predicate Valid()
      reads this, lru
    {
      && lru.Valid() && lru.cap == NBUF && |buf| == NBUF && |contents| == |disk|
      && Coherent(buf, use, disk, contents, pins)
    }

    /** Process pid holds buffer i, which is current. */
    ghost predicate Holds(pid: nat, i: nat)
      reads this
    {
      |buf| == |use| && i < |buf| && buf[i].holder == Some(pid) && buf[i].valid
    }

    constructor (image: Disk)
      ensures Valid() && fresh(lru) && pins == {}
      ensures disk == contents == image && trace == []
      ensures forall i :: 0 <= i < NBUF ==> buf[i] == Buf(0, 0, false, false, 0, None, ZeroBlock())
      ensures forall k :: 1 <= k <= NBUF ==> lru.ring[k] == NBUF - k
    {
      lru := new List(NBUF);
      disk := image;
      contents := image;
      trace := [];
      buf := seq(NBUF, _ => Buf(0, 0, false, false, 0, None, ZeroBlock()));
      use := seq(NBUF, _ => Use(0, 0, false));
      pins := {};
    }

    /** bget's first loop: is the block cached? */
    method FindCached(dev: nat, blockno: nat) returns (r: Option<nat>)
      requires Valid()
      ensures r.Some? ==> r.value < NBUF && buf[r.value].Is(dev, blockno)
      ensures r.None? ==> !Cached(buf, dev, blockno)
    {
      ghost var k := 1;
      var b := lru.next[NBUF];
      assert lru.ring[0] == NBUF;
      while b != NBUF
        invariant 1 <= k <= NBUF + 1 && b == if k == NBUF + 1 then NBUF else lru.ring[k]
        invariant forall j :: 1 <= j < k ==> lru.ring[j] < NBUF && !buf[lru.ring[j]].Is(dev, blockno)
        decreases NBUF + 1 - k
      {
        if buf[b].Is(dev, blockno) { return Some(b); }
        b := lru.next[b];
        k := k + 1;
      }
      forall i | 0 <= i < NBUF
        ensures !buf[i].Is(dev, blockno)
      {
        var j := RingCovers(lru.ring, NBUF, i);
      }
      return None;
    }

    /** bget's second loop: the least recently used buffer that may be recycled. */
    method FindFree() returns (r: Option<nat>)
      requires Valid()
      ensures r.Some? ==> r.value < NBUF && buf[r.value].Free() && LeastRecent(buf, lru.ring, r.value)
      ensures r.None? ==> !AnyFree(buf)
    {
      ghost var k := NBUF;
      var b := lru.prev[NBUF];
      assert lru.ring[0] == NBUF;
      while b != NBUF
        invariant 0 <= k <= NBUF && b == lru.ring[k]
        invariant forall j :: k < j <= NBUF ==> lru.ring[j] < NBUF && !buf[lru.ring[j]].Free()
        decreases k
      {
        if buf[b].Free() { return Some(b); }
        b := lru.prev[b];
        k := k - 1;
      }
      forall i | 0 <= i < NBUF
        ensures !buf[i].Free()
      {
        var j := RingCovers(lru.ring, NBUF, i);
      }
      return None;
    }

    /** The critical section of bget: find or recycle, and count a reference.
        None is the panic "no buffers". */
    method Bget(dev: nat, blockno: nat) returns (r: Option<nat>)
      requires Valid()
      modifies this`buf, this`use
      ensures Valid()
      ensures r.None? <==> !Cached(old(buf), dev, blockno) && !AnyFree(old(buf))
      ensures r.None? ==> buf == old(buf) && use == old(use)
      ensures r.Some? ==>
                var i := r.value;
                && i < NBUF && |old(use)| == |old(buf)| == NBUF
                && use == old(use)[i := old(use)[i].(waiting := old(use)[i].waiting + 1)]
                && if Cached(old(buf), dev, blockno)
                   then old(buf)[i].Is(dev, blockno)
                     && buf == old(buf)[i := old(buf)[i].(refcnt := old(buf)[i].refcnt + 1)]
                   else
                     && old(buf)[i].Free() && LeastRecent(old(buf), lru.ring, i)
                     && buf == old(buf)[i := old(buf)[i].(dev := dev, blockno := blockno, valid := false, refcnt := 1)]
    {
      hide List.Valid;
      r := FindCached(dev, blockno);
      if r.Some? {
        var i := r.value;
        var b := buf[i].(refcnt := buf[i].refcnt + 1);
        var u := use[i].(waiting := use[i].waiting + 1);
        Replaced(buf, use, disk, contents, pins, i, b, u);
        buf := buf[i := b];
        use := use[i := u];
        return;
      }
      r := FindFree();
      if r.Some? {
        var i := r.value;
        var b := buf[i].(dev := dev, blockno := blockno, valid := false, refcnt := 1);
        var u := use[i].(waiting := use[i].waiting + 1);
        Recycled(buf, use, disk, contents, pins, i, b, u);
        buf := buf[i := b];
        use := use[i := u];
      }
    }

    /** acquiresleep succeeds for a process that counted a reference in Bget. */
    method Lock(i: nat, pid: nat)
      requires Valid() && i < NBUF && use[i].waiting > 0 && buf[i].holder.None?
      modifies this`buf, this`use
      ensures Valid()
      ensures buf == old(buf)[i := old(buf)[i].(holder := Some(pid))]
      ensures use == old(use)[i := old(use)[i].(waiting := old(use)[i].waiting - 1)]
    {
      hide List.Valid;
      var b := buf[i].(holder := Some(pid));
      var u := use[i].(waiting := use[i].waiting - 1);
      Replaced(buf, use, disk, contents, pins, i, b, u);
      buf := buf[i := b];
      use := use[i := u];
    }

    /** The end of bread: iderw reads a block that is not valid. False is
        iderw's panic. What bread returns is what was last logged or written. */
    method ReadIn(i: nat, pid: nat) returns (ok: bool)
      requires Valid() && i < NBUF && buf[i].holder == Some(pid) && !use[i].edited
      modifies this`buf
      ensures Valid()
      ensures ok <==> old(buf)[i].valid || (buf[i].dev == ROOTDEV && buf[i].blockno < |disk|)
      ensures ok ==> Holds(pid, i) && buf[i].data == contents[buf[i].blockno]
      ensures buf == old(buf)[i := old(buf)[i].(valid := ok, data := buf[i].data)]
    {
      hide List.Valid;
      if buf[i].valid { return true; }
      if buf[i].dev != ROOTDEV || buf[i].blockno >= |disk| { return false; }
      var b := buf[i].(valid := true, data := disk[buf[i].blockno]);
      NotElsewhere(buf, use, disk, contents, pins, i);
      Replaced(buf, use, disk, contents, pins, i, b, use[i]);
      assert use[i := use[i]] == use;
      buf := buf[i := b];
      return true;
    }

    /** The holder changes the data. */
    method Edit(i: nat, pid: nat, data: Block)
      requires Valid() && Holds(pid, i)
      modifies this`buf, this`use
      ensures Valid()
      ensures buf == old(buf)[i := old(buf)[i].(data := data)]
      ensures use == old(use)[i := old(use)[i].(edited := true)]
    {
      hide List.Valid;
      var b := buf[i].(data := data);
      var u := use[i].(edited := true);
      Replaced(buf, use, disk, contents, pins, i, b, u);
      buf := buf[i := b];
      use := use[i := u];
    }

    /** log_write's effect on the buffer: pin it with B_DIRTY. */
    method Pin(i: nat, pid: nat)
      requires Valid() && Holds(pid, i)
      modifies this`buf, this`use, this`contents, this`pins
      ensures Valid()
      ensures buf == old(buf)[i := old(buf)[i].(dirty := true)]
      ensures use == old(use)[i := old(use)[i].(edited := false)]
      ensures contents == old(contents)[buf[i].blockno := buf[i].data]
      ensures pins == old(pins) + {buf[i].blockno}
    {
      hide List.Valid;
      Logged(buf, use, disk, contents, pins, i);
      contents := contents[buf[i].blockno := buf[i].data];
      use := use[i := use[i].(edited := false)];
      buf := buf[i := buf[i].(dirty := true)];
      pins := pins + {buf[i].blockno};
    }

    /** bwrite: one block write, which also clears B_DIRTY. */
    method Bwrite(i: nat, pid: nat)
      requires Valid() && Holds(pid, i)
      modifies this`buf, this`use, this`contents, this`disk, this`trace, this`pins
      ensures Valid()
      ensures buf == old(buf)[i := old(buf)[i].(dirty := false)]
      ensures use == old(use)[i := old(use)[i].(edited := false)]
      ensures contents == old(contents)[buf[i].blockno := buf[i].data]
      ensures disk == old(disk)[buf[i].blockno := buf[i].data]
      ensures trace == old(trace) + [disk]
      ensures pins == old(pins) - {buf[i].blockno}
    {
      hide List.Valid;
      Written(buf, use, disk, contents, pins, i);
      contents := contents[buf[i].blockno := buf[i].data];
      use := use[i := use[i].(edited := false)];
      buf := buf[i := buf[i].(dirty := false)];
      disk := disk[buf[i].blockno := buf[i].data];
      trace := trace + [disk];
      pins := pins - {buf[i].blockno};
    }

    /** brelse's releasesleep. A holder that changed the data has logged or
        written it first, as the header comment of bio.c demands. */
    method BrelseUnlock(i: nat, pid: nat)
      requires Valid() && Holds(pid, i) && !use[i].edited
      modifies this`buf, this`use
      ensures Valid()
      ensures buf == old(buf)[i := old(buf)[i].(holder := None)]
      ensures use == old(use)[i := old(use)[i].(leaving := old(use)[i].leaving + 1)]
    {
      hide List.Valid;
      var b := buf[i].(holder := None);
      var u := use[i].(leaving := use[i].leaving + 1);
      Replaced(buf, use, disk, contents, pins, i, b, u);
      buf := buf[i := b];
      use := use[i := u];
    }

    /** brelse's critical section: drop the reference; the last one makes the
        buffer the most recently used. */
    method BrelseDrop(i: nat)
      requires Valid() && i < NBUF && use[i].leaving > 0
      modifies this`buf, this`use, lru
      ensures Valid()
      ensures buf == old(buf)[i := old(buf)[i].(refcnt := old(buf)[i].refcnt - 1)]
      ensures use == old(use)[i := old(use)[i].(leaving := old(use)[i].leaving - 1)]
      ensures if buf[i].refcnt > 0 then lru.ring == old(lru.ring)
              else exists k :: 0 < k <= NBUF && old(lru.ring)[k] == i &&
                               lru.ring == [NBUF, i] + Without(old(lru.ring), k)[1..]
    {
      var b := buf[i].(refcnt := buf[i].refcnt - 1);
      var u := use[i].(leaving := use[i].leaving - 1);
      Replaced(buf, use, disk, contents, pins, i, b, u);
      buf := buf[i := b];
      use := use[i := u];
      if b.refcnt == 0 {
        ghost var k := RingCovers(lru.ring, NBUF, i);
        lru.MoveToFront(i, k);
      }
    }

    // -------------------------------------- whole calls, among other processes

    lemma ValidView()
      requires Valid()
      ensures |contents| == |disk| && |buf| == |use| == NBUF
      ensures forall b :: 0 <= b < |disk| && b !in pins ==> disk[b] == contents[b]
    {
    }

    lemma IsCoherent()
      requires Valid()
      ensures Coherent(buf, use, disk, contents, pins)
    {
    }

    lemma HeldBlockInRange(i: nat, pid: nat)
      requires Valid() && Holds(pid, i)
      ensures buf[i].blockno < |disk|
    {
    }

    /** One step of a process other than pid; a step that is not possible does nothing.
        None of them writes to the disk. */
    method Other(s: Step, pid: nat, me: Place)
      requires Valid() && Standing(use, me)
      modifies this`buf, this`use, lru
      ensures Valid() && Undisturbed(old(buf), old(use), buf, use, pid, me)
      ensures |old(buf)| == |old(use)| == |buf| && Stepped(old(buf), old(use), buf, use, s, pid, me, |disk|)
    {
      hide List.Valid;
      hide Coherent;
      hide Undisturbed;
      ValidView();
      References(buf, use, disk, contents, pins);
      UndisturbedStart(buf, use, pid, me);
      match s
      case Get(b) =>
        var r := Bget(ROOTDEV, b);
        if r.Some? {
          OneChanged(old(buf), old(use), r.value, buf[r.value], use[r.value], pid, me);
          assert Got(old(buf), old(use), buf, use, b, r.value);
        }
      case Take(i, q) =>
        if i < NBUF && q != pid && buf[i].holder.None? && use[i].waiting > (if me == Awaiting(i) then 1 else 0) {
          Lock(i, q);
          OneChanged(old(buf), old(use), i, buf[i], use[i], pid, me);
        }
      case Fill(i, q) =>
        if i < NBUF && q != pid && buf[i].holder == Some(q) && !use[i].edited {
          var _ := ReadIn(i, q);
          assert use == old(use)[i := use[i]];
          OneChanged(old(buf), old(use), i, buf[i], use[i], pid, me);
        }
      case Unlock(i, q) =>
        if i < NBUF && q != pid && buf[i].holder == Some(q) && buf[i].valid && !use[i].edited {
          BrelseUnlock(i, q);
          OneChanged(old(buf), old(use), i, buf[i], use[i], pid, me);
        }
      case Drop(i) =>
        if i < NBUF && use[i].leaving > (if me == Dropping(i) then 1 else 0) {
          BrelseDrop(i);
          OneChanged(old(buf), old(use), i, buf[i], use[i], pid, me);
        }
    }

    /** The other processes take their next turn, if the schedule has one. */
    method Turn(sched: Schedule, pid: nat, me: Place) returns (rest: Schedule, ghost via: seq<View>)
      requires Valid() && Standing(use, me)
      modifies this`buf, this`use, lru
      ensures Valid() && Undisturbed(old(buf), old(use), buf, use, pid, me)
      ensures if sched == [] then rest == [] && buf == old(buf) && use == old(use) else rest == sched[1..]
      ensures sched != [] ==>
                && Ran(via, sched[0], pid, me, |disk|)
                && via[0] == old(View(buf, use)) && via[|sched[0]|] == View(buf, use)
    {
      hide List.Valid;
      hide Coherent;
      hide Undisturbed;
      hide Stepped;
      ValidView();
      UndisturbedStart(buf, use, pid, me);
      via := [View(buf, use)];
      if sched == [] { return [], via; }
      var k := 0;
      while k < |sched[0]|
        invariant k <= |sched[0]| && Ran(via, sched[0][..k], pid, me, |disk|)
        invariant via[0] == old(View(buf, use)) && via[k] == View(buf, use)
        invariant k <= |sched[0]| && Valid() && Standing(use, me)
        invariant Undisturbed(old(buf), old(use), buf, use, pid, me)
      {
        ghost var buf1, use1 := buf, use;
        Other(sched[0][k], pid, me);
        UndisturbedTrans(old(buf), old(use), buf1, use1, buf, use, pid, me);
        StandingNow(buf1, use1, buf, use, pid, me);
        ValidView();
        RanOneMore(via, sched[0][..k], pid, me, |disk|, sched[0][k], View(buf, use));
        assert sched[0][..k + 1] == sched[0][..k] + [sched[0][k]];
        via := via + [View(buf, use)];
        k := k + 1;
      }
      assert sched[0][..k] == sched[0];
      return sched[1..], via;
    }

    /** Process pid holds buffer i, which has the current contents of the block. */
    ghost predicate Owns(i: nat, blockno: nat, pid: nat)
      reads this
    {
      Holds(pid, i) && !use[i].edited && buf[i].Is(ROOTDEV, blockno)
      && blockno < |contents| && buf[i].data == contents[blockno]
    }

    /** bread on the root device. It fails only when the block is not cached and no
        buffer can be recycled, and is left waiting only for a lock that is held; when
        other processes take no turns, exactly then. */
    method Bread(blockno: nat, pid: nat, sched: Schedule) returns (r: Outcome<nat>, rest: Schedule)
      requires Valid() && blockno < |disk|
      modifies this`buf, this`use, lru
      ensures Valid() && (sched == [] || r.Locked? ==> rest == [])
      ensures |old(use)| == |old(buf)| == |buf| == |use|
      ensures r.Done? ==> Owns(r.value, blockno, pid) && old(buf)[r.value].holder != Some(pid)
      ensures forall j :: 0 <= j < |buf| && r != Done(j) ==> OwnKept(old(buf)[j], old(use)[j], buf[j], use[j], pid)
      ensures r.NoBuffers? ==> !Cached(buf, ROOTDEV, blockno) && !AnyFree(buf)
      ensures r.Locked? ==> !Unlocked(buf, blockno)
      ensures sched == [] ==>
                && (r.NoBuffers? <==> !Cached(old(buf), ROOTDEV, blockno) && !AnyFree(old(buf)))
                && (r.Locked? <==> !Unlocked(old(buf), blockno))
                && (r.Done? ==> buf == old(buf)[r.value := buf[r.value]] && use == old(use)
                                && Taken(old(buf)[r.value], buf[r.value], blockno))
    {
      hide Ran;
      hide List.Valid;
      hide Undisturbed;
      hide OwnKept;
      hide Taken;
      ValidView();
      ghost var via;
      rest, via := Turn(sched, pid, Elsewhere);
      ghost var buf0, use0 := buf, use;
      OwnsKept(old(buf), old(use), buf0, use0, pid, Elsewhere);
      var i;
      i, rest := Acquire(blockno, pid, rest);
      KeptTrans(old(buf), old(use), buf0, use0, buf, use, pid, if i.Done? then i.value else NBUF);
      if !i.Done? { return i, rest; }
      ghost var buf1, use1 := buf, use;
      rest, via := Turn(rest, pid, Elsewhere);
      OwnsKept(buf1, use1, buf, use, pid, Elsewhere);
      KeptTrans(old(buf), old(use), buf1, use1, buf, use, pid, i.value);
      OwnFacts(buf1[i.value], use1[i.value], buf[i.value], use[i.value], pid);
      NotOwn(old(buf)[i.value], old(use)[i.value], buf0[i.value], use0[i.value], pid);
      ghost var buf2 := buf;
      var ok := ReadIn(i.value, pid);
      TakenThenRead(buf0[i.value], buf2[i.value], buf[i.value], blockno);
      return i, rest;
    }

    /** brelse, between whose halves others may take the buffer. */
    method Brelse(i: nat, pid: nat, sched: Schedule) returns (rest: Schedule)
      requires Valid() && Holds(pid, i) && !use[i].edited
      modifies this`buf, this`use, lru
      ensures Valid() && |old(use)| == |old(buf)| == |buf| == |use| && buf[i].holder != Some(pid)
      ensures forall j :: 0 <= j < |buf| && j != i ==> OwnKept(old(buf)[j], old(use)[j], buf[j], use[j], pid)
      ensures sched == [] ==>
                && rest == [] && use == old(use)
                && buf == old(buf)[i := old(buf)[i].(holder := None, refcnt := old(buf)[i].refcnt - 1)]
    {
      hide Ran;
      hide List.Valid;
      hide Coherent;
      hide Undisturbed;
      ValidView();
      BrelseUnlock(i, pid);
      ghost var buf1, use1 := buf, use;
      ghost var via;
      rest, via := Turn(sched, pid, Dropping(i));
      OwnsKept(buf1, use1, buf, use, pid, Dropping(i));
      StandingNow(buf1, use1, buf, use, pid, Dropping(i));
      BrelseDrop(i);
    }

    /** Change the held block and write it. */
    method Put(i: nat, blockno: nat, data: Block, pid: nat, sched: Schedule) returns (rest: Schedule)
      requires Valid() && Owns(i, blockno, pid)
      modifies this, lru
      ensures Valid() && Owns(i, blockno, pid) && |old(use)| == |old(buf)| == |buf| == |use|
      ensures forall j :: 0 <= j < |buf| && j != i ==> OwnKept(old(buf)[j], old(use)[j], buf[j], use[j], pid)
      ensures blockno < |old(disk)| == |old(contents)|
      ensures disk == old(disk)[blockno := data] && contents == old(contents)[blockno := data]
      ensures trace == old(trace) + [disk] && pins == old(pins) - {blockno}
      ensures sched == [] ==>
                rest == [] && use == old(use) && buf == old(buf)[i := old(buf)[i].(data := data, dirty := false)]
    {
      hide Ran;
      hide List.Valid;
      hide Coherent;
      hide Undisturbed;
      ValidView();
      HeldBlockInRange(i, pid);
      ghost var via;
      rest, via := Turn(sched, pid, Elsewhere);
      OwnsKept(old(buf), old(use), buf, use, pid, Elsewhere);
      Edit(i, pid, data);
      ghost var buf1, use1 := buf, use;
      rest, via := Turn(rest, pid, Elsewhere);
      OwnsKept(buf1, use1, buf, use, pid, Elsewhere);
      Bwrite(i, pid);
    }

    /** bread one block and keep it. */
    method HoldBlock(blockno: nat, pid: nat, sched: Schedule) returns (r: Outcome<nat>, rest: Schedule)
      requires Valid() && HasOnly(buf, pid, {}) && blockno < |disk|
      modifies this`buf, this`use, lru
      ensures Valid() && (r.Done? ==> Owns(r.value, blockno, pid) && HasOnly(buf, pid, {r.value}))
      ensures r.NoBuffers? ==> !Cached(buf, ROOTDEV, blockno) && !AnyFree(buf)
      ensures r.Locked? ==> LockedByOther(buf, pid, blockno)
      ensures sched == [] && Unlocked(old(buf), blockno) ==>
                && rest == [] && !r.Locked? && (r.Done? ==> Took(old(buf), buf, r.value, blockno))
                && (blockno !in pins ==> (r.Done? <==> Obtainable(old(buf), blockno)))
    {
      hide List.Valid;
      hide Coherent;
      hide Obtainable;
      hide Unlocked;
      hide LockedByOther;
      hide Cached;
      hide AnyFree;
      hide OwnKept;
      hide HasOnly;
      ValidView();
      GetsBuffer(buf, use, disk, contents, pins, blockno);
      r, rest := Bread(blockno, pid, sched);
      HasMore(old(buf), old(use), buf, use, pid, {}, if r.Done? then r.value else NBUF);
      if r.Done? {
        assert {} + {r.value} == {r.value};
      } else if r.Locked? {
        OtherLocks(buf, pid, {} + {NBUF}, blockno);
      }
    }

    /** Change, write and release the buffer held. */
    method PutBack(ghost buf0: seq<Buf>, i: nat, blockno: nat, data: Block, pid: nat, sched: Schedule)
      returns (rest: Schedule)
      requires Valid() && Owns(i, blockno, pid) && HasOnly(buf, pid, {i})
      modifies this, lru
      ensures Valid() && HasOnly(buf, pid, {})
      ensures blockno < |old(disk)| == |old(contents)|
      ensures disk == old(disk)[blockno := data] && contents == old(contents)[blockno := data]
      ensures trace == old(trace) + [disk] && pins == old(pins) - {blockno}
      ensures sched == [] ==> rest == [] && (Took(buf0, old(buf), i, blockno) ==> SameHolders(buf0, buf))
    {
      hide List.Valid;
      hide Coherent;
      hide SameHolders;
      hide Took;
      hide HasOnly;
      hide OwnKept;
      rest := Put(i, blockno, data, pid, sched);
      HasMore(old(buf), old(use), buf, use, pid, {i}, i);
      assert {i} + {i} == {i};
      ghost var buf1, use1 := buf, use;
      rest := Brelse(i, pid, rest);
      HasLess(buf1, use1, buf, use, pid, {i}, i);
      assert {i} - {i} == {};
      if sched == [] && Took(buf0, old(buf), i, blockno) {
        OneReleased(buf0, old(buf), buf, i, blockno);
      }
    }

    /** bread one block, take a copy of it and release it, with no other process about. */
    method ReadBlock(blockno: nat, pid: nat) returns (r: Outcome<Block>)
      requires Valid() && HasOnly(buf, pid, {}) && blockno < |disk| && Unlocked(buf, blockno)
      modifies this`buf, this`use, lru
      ensures Valid() && !r.Locked? && (r.NoBuffers? ==> !Cached(buf, ROOTDEV, blockno) && !AnyFree(buf))
      ensures r.Done? ==> SameHolders(old(buf), buf) && |contents| == |disk| && r.value == contents[blockno]
      ensures blockno !in pins ==> (r.Done? <==> Obtainable(old(buf), blockno))
    {
      hide List.Valid;
      hide Coherent;
      hide Obtainable;
      hide SameHolders;
      hide Took;
      hide HasOnly;
      ValidView();
      var x, rest := HoldBlock(blockno, pid, []);
      if !x.Done? { return NoBuffers; }
      r := Done(buf[x.value].data);
      ghost var buf1 := buf;
      rest := Brelse(x.value, pid, []);
      OneReleased(old(buf), buf1, buf, x.value, blockno);
    }

    ghost predicate OwnsBoth(i: nat, j: nat, first: nat, second: nat, pid: nat)
      reads this, lru
    {
      Valid() && i != j && Owns(i, first, pid) && Owns(j, second, pid) && HasOnly(buf, pid, {i, j})
    }

    /** bread of two blocks, held together. */
    method HoldTwo(first: nat, second: nat, pid: nat, sched: Schedule) returns (r: Outcome<(nat, nat)>, rest: Schedule)
      requires Valid() && HasOnly(buf, pid, {}) && first < |disk| && second < |disk| && first != second
      modifies this`buf, this`use, lru
      ensures Valid() && (r.Done? ==> OwnsBoth(r.value.0, r.value.1, first, second, pid))
      ensures r.NoBuffers? ==> !AnyFree(buf) && (!Cached(buf, ROOTDEV, first) || !Cached(buf, ROOTDEV, second))
      ensures r.Locked? ==> LockedByOther(buf, pid, first) || LockedByOther(buf, pid, second)
      ensures sched == [] && Unlocked(old(buf), first) && Unlocked(old(buf), second) ==>
                && rest == [] && !r.Locked?
                && (r.Done? ==> TookBoth(old(buf), buf, r.value.0, r.value.1, first, second))
                && (InUse(old(buf)) + 2 <= NBUF ==> r.Done?)
                && (second in pins && first !in pins ==> (r.Done? <==> Obtainable(old(buf), first)))
    {
      hide List.Valid;
      hide Coherent;
      hide Obtainable;
      hide Cached;
      hide AnyFree;
      hide Unlocked;
      hide Taken;
      hide OwnKept;
      hide HasOnly;
      hide TookBoth;
      hide LockedByOther;
      ValidView();
      GetsBuffer(buf, use, disk, contents, pins, first);
      FreeExactly(buf);
      var x;
      x, rest := Bread(first, pid, sched);
      HasMore(old(buf), old(use), buf, use, pid, {}, if x.Done? then x.value else NBUF);
      if x.NoBuffers? { return NoBuffers, rest; }
      if x.Locked? {
        OtherLocks(buf, pid, {} + {NBUF}, first);
        return Locked, rest;
      }
      var i := x.value;
      ghost var buf1, use1 := buf, use;
      if sched == [] {
        FirstTaken(old(buf), buf, i, first, second);
      }
      FreeExactly(buf);
      PinnedIsCached(buf, use, disk, contents, pins, second);
      var y;
      y, rest := Bread(second, pid, rest);
      HasMore(buf1, use1, buf, use, pid, {} + {i}, if y.Done? then y.value else NBUF);
      OwnFacts(buf1[i], use1[i], buf[i], use[i], pid);
      if y.NoBuffers? { return NoBuffers, rest; }
      if y.Locked? {
        OtherLocks(buf, pid, {} + {i} + {NBUF}, second);
        return Locked, rest;
      }
      var j := y.value;
      if sched == [] && Unlocked(old(buf), second) {
        SecondTaken(old(buf), buf1, buf, i, j, first, second);
      }
      assert {} + {i} + {j} == {i, j};
      return Done((i, j)), rest;
    }

    /** Copy held buffer j over held buffer i, write i, release both. */
    method CopyHeld(ghost buf0: seq<Buf>, i: nat, j: nat, dst: nat, src: nat, pid: nat, sched: Schedule)
      returns (rest: Schedule)
      requires OwnsBoth(i, j, dst, src, pid)
      modifies this, lru
      ensures Valid() && HasOnly(buf, pid, {})
      ensures dst < |old(disk)| == |old(contents)| && src < |old(disk)|
      ensures disk == old(disk)[dst := old(contents)[src]] && contents == old(contents)[dst := old(contents)[src]]
      ensures trace == old(trace) + [disk] && pins == old(pins) - {dst}
      ensures sched == [] ==> rest == []
      ensures sched == [] && TookBoth(buf0, old(buf), i, j, dst, src) ==> SameHolders(buf0, buf)
    {
      hide List.Valid;
      hide Coherent;
      hide SameHolders;
      hide TookBoth;
      hide HasOnly;
      hide OwnKept;
      ValidView();
      HeldBlockInRange(j, pid);
      rest := Put(i, dst, buf[j].data, pid, sched);
      OwnFacts(old(buf)[j], old(use)[j], buf[j], use[j], pid);
      HasMore(old(buf), old(use), buf, use, pid, {i, j}, i);
      assert {i, j} + {i} == {i, j};
      rest := ReleaseBoth(i, j, pid, rest);
      if sched == [] && TookBoth(buf0, old(buf), i, j, dst, src) {
        BothReleased(buf0, old(buf), buf, i, j, dst, src);
      }
    }

    method ReleaseBoth(i: nat, j: nat, pid: nat, sched: Schedule) returns (rest: Schedule)
      requires Valid() && Holds(pid, i) && !use[i].edited && Holds(pid, j) && !use[j].edited && i != j
      requires HasOnly(buf, pid, {i, j})
      modifies this`buf, this`use, lru
      ensures Valid() && HasOnly(buf, pid, {}) && |buf| == |old(buf)|
      ensures sched == [] ==>
                && rest == [] && (forall k :: 0 <= k < |buf| && k != i && k != j ==> buf[k] == old(buf)[k])
                && buf[i] == old(buf)[i].(holder := None, refcnt := old(buf)[i].refcnt - 1)
                && buf[j] == old(buf)[j].(holder := None, refcnt := old(buf)[j].refcnt - 1)
    {
      hide List.Valid;
      hide Coherent;
      hide HasOnly;
      hide OwnKept;
      ghost var buf0, use0 := buf, use;
      rest := Brelse(j, pid, sched);
      OwnFacts(buf0[i], use0[i], buf[i], use[i], pid);
      HasLess(buf0, use0, buf, use, pid, {i, j}, j);
      ghost var buf1, use1 := buf, use;
      rest := Brelse(i, pid, rest);
      HasLess(buf1, use1, buf, use, pid, {i, j} - {j}, i);
      assert {i, j} - {j} - {i} == {};
    }

    /** The loop body of write_log and of install_trans: hold both blocks, copy one
        over the other, write it, release. Other processes take their turns between
        the steps. When they take none and have locked neither block, it can fail
        for lack of buffers only, and for a pinned second block exactly then. */
    method CopyBlock(first: nat, second: nat, toFirst: bool, pid: nat, sched: Schedule)
      returns (r: Outcome<()>, rest: Schedule)
      requires Valid() && HasOnly(buf, pid, {}) && first < |disk| && second < |disk| && first != second
      modifies this, lru
      ensures Valid()
      ensures !r.Done? ==> disk == old(disk) && contents == old(contents) && trace == old(trace) && pins == old(pins)
      ensures r.NoBuffers? ==> !AnyFree(buf) && (!Cached(buf, ROOTDEV, first) || !Cached(buf, ROOTDEV, second))
      ensures r.Locked? ==> LockedByOther(buf, pid, first) || LockedByOther(buf, pid, second)
      ensures r.Done? ==>
                var dst, src := if toFirst then first else second, if toFirst then second else first;
                && HasOnly(buf, pid, {}) && |old(contents)| == |old(disk)|
                && disk == old(disk)[dst := old(contents)[src]]
                && contents == old(contents)[dst := old(contents)[src]]
                && trace == old(trace) + [disk] && pins == old(pins) - {dst}
      ensures sched == [] && Unlocked(old(buf), first) && Unlocked(old(buf), second) ==>
                && rest == [] && !r.Locked? && (r.Done? ==> SameHolders(old(buf), buf))
                && (InUse(old(buf)) + 2 <= NBUF ==> r.Done?)
                && (second in old(pins) && first !in old(pins) ==> (r.Done? <==> Obtainable(old(buf), first)))
    {
      hide List.Valid;
      hide Coherent;
      hide SameHolders;
      hide TookBoth;
      hide Obtainable;
      hide Unlocked;
      hide LockedByOther;
      hide Cached;
      hide AnyFree;
      hide HasOnly;
      var held;
      held, rest := HoldTwo(first, second, pid, sched);
      match held
      case NoBuffers => return NoBuffers, rest;
      case Locked => return Locked, rest;
      case Done((i, j)) =>
        if toFirst {
          rest := CopyHeld(old(buf), i, j, first, second, pid, rest);
        } else {
          BothEither(old(buf), buf, i, j, first, second, pid);
          rest := CopyHeld(old(buf), j, i, second, first, pid, rest);
        }
        return Done(()), rest;
    }

    /** bget with its acquiresleep. */
    method Acquire(blockno: nat, pid: nat, sched: Schedule) returns (r: Outcome<nat>, rest: Schedule)
      requires Valid() && blockno < |disk|
      modifies this`buf, this`use, lru
      ensures Valid() && (sched == [] || r.Locked? ==> rest == [])
      ensures |old(use)| == |old(buf)| == |buf| == |use|
      ensures r.Done? ==>
                && r.value < |buf| && buf[r.value].holder == Some(pid) && !use[r.value].edited
                && buf[r.value].Is(ROOTDEV, blockno) && old(buf)[r.value].holder != Some(pid)
      ensures forall j :: 0 <= j < |buf| && r != Done(j) ==> OwnKept(old(buf)[j], old(use)[j], buf[j], use[j], pid)
      ensures r.NoBuffers? ==> !Cached(buf, ROOTDEV, blockno) && !AnyFree(buf)
      ensures r.Locked? ==> !Unlocked(buf, blockno)
      ensures sched == [] ==>
                && (r.NoBuffers? <==> !Cached(old(buf), ROOTDEV, blockno) && !AnyFree(old(buf)))
                && (r.Locked? <==> !Unlocked(old(buf), blockno))
                && (r.Done? ==> buf == old(buf)[r.value := buf[r.value]] && use == old(use)
                                && Taken(old(buf)[r.value], buf[r.value], blockno))
    {
      hide Ran;
      hide List.Valid;
      hide Coherent;
      hide Undisturbed;
      ValidView();
      References(buf, use, disk, contents, pins);
      OneBuffer(buf, use, disk, contents, pins, blockno);
      var g := Bget(ROOTDEV, blockno);
      rest := sched;
      if g.None? { return NoBuffers, rest; }
      var i := g.value;
      ghost var buf1, use1 := buf, use;
      rest := Await(i, pid, sched);
      OwnsKept(buf1, use1, buf, use, pid, Awaiting(i));
      if buf[i].holder.Some? { return Locked, rest; }
      Unheld(buf, use, disk, contents, pins);
      Lock(i, pid);
      return Done(i), rest;
    }

    /** acquiresleep's wait: turns of others until the lock is free. */
    method Await(i: nat, pid: nat, sched: Schedule) returns (rest: Schedule)
      requires Valid() && Standing(use, Awaiting(i))
      modifies this`buf, this`use, lru
      ensures Valid() && i < |buf| && Undisturbed(old(buf), old(use), buf, use, pid, Awaiting(i))
      ensures Standing(use, Awaiting(i)) && (buf[i].holder.Some? ==> rest == [])
      ensures sched == [] ==> rest == [] && buf == old(buf) && use == old(use)
    {
      hide Ran;
      hide List.Valid;
      hide Coherent;
      hide Undisturbed;
      ValidView();
      rest := sched;
      UndisturbedStart(buf, use, pid, Awaiting(i));
      while buf[i].holder.Some? && rest != []
        invariant Valid() && |buf| == |use| == NBUF && Standing(use, Awaiting(i)) && (sched == [] ==> rest == [])
        invariant Undisturbed(old(buf), old(use), buf, use, pid, Awaiting(i))
        invariant sched == [] ==> buf == old(buf) && use == old(use)
        decreases |rest|
      {
        ghost var buf1, use1 := buf, use;
        ghost var via;
        rest, via := Turn(rest, pid, Awaiting(i));
        UndisturbedTrans(old(buf), old(use), buf1, use1, buf, use, pid, Awaiting(i));
        StandingNow(buf1, use1, buf, use, pid, Awaiting(i));
      }
    }
  }
}

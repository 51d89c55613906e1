/** Attaching and detaching shared-memory segments (vm.c). */
module Shm {
  import opened PageTables
  import opened Mappings
  import opened Vm
  import opened ShmSlots

  /** A shared region, known by its index; frames are its pages. */
  datatype Region = Unused | Region(key: nat, mode: nat, frames: seq<nat>, nattch: nat)

  const READ_SHM: nat := 4
  const RW_SHM: nat := 6

  const IPC_PRIVATE: nat := 0
  const IPC_CREAT: nat := 0x200
  const IPC_EXCL: nat := 0x400
  const NOKEY: nat := 0xFFFF_FFFF      // the key of an unused region, -1

  function KeyOf(r: Region): nat { if r.Region? then r.key else NOKEY }

  /** Regions in use have 1 to SHAREDREGIONS pages and different keys. */
  ghost predicate RegionsOk(regions: seq<Region>) {
    && |regions| == SHAREDREGIONS
    && (forall r :: 0 <= r < |regions| && regions[r].Region? ==>
          1 <= |regions[r].frames| <= SHAREDREGIONS && regions[r].key != NOKEY)
    && (forall r, q :: 0 <= r < q < |regions| && regions[r].Region? ==> KeyOf(regions[q]) != regions[r].key)
  }

  /** The slot's pages map the frames of its region. */
  ghost predicate Backed(ts: Tables, d: nat, regions: seq<Region>, s: Slot) {
    s.Attached? ==>
      && s.shmid < |regions| && regions[s.shmid].Region? && |regions[s.shmid].frames| == s.size
      && forall w :: s.va / PGSIZE <= w < s.va / PGSIZE + s.size ==>
           Pte(ts, d, w) == Entry(true, regions[s.shmid].frames[w - s.va / PGSIZE], s.perm)
  }

  ghost predicate AllBacked(ts: Tables, d: nat, regions: seq<Region>, slots: seq<Slot>) {
    forall i :: 0 <= i < |slots| ==> Backed(ts, d, regions, slots[i])
  }

  predicate InPages(s: Slot, w: int) {
    s.Attached? && s.va / PGSIZE <= w < s.va / PGSIZE + s.size
  }

  ghost predicate Covered(slots: seq<Slot>, w: int) {
    exists i :: 0 <= i < |slots| && InPages(slots[i], w)
  }

  function FrameOf(regions: seq<Region>, r: int, k: int): nat
    requires 0 <= r < |regions| && regions[r].Region? && 0 <= k < |regions[r].frames|
  {
    regions[r].frames[k]
  }

  predicate IsFrame(regions: seq<Region>, r: int, k: int) {
    0 <= r < |regions| && regions[r].Region? && 0 <= k < |regions[r].frames|
  }

  /** The kernel holds every page of every region, and no page is in two places. */
  ghost predicate FramesOwned(role: map<nat, Role>, regions: seq<Region>) {
    && (forall r, k :: IsFrame(regions, r, k) ==> FrameOf(regions, r, k) in role && role[FrameOf(regions, r, k)].Held?)
    && (forall r, k, r2, k2 :: IsFrame(regions, r, k) && IsFrame(regions, r2, k2) ==>
          FrameOf(regions, r, k) == FrameOf(regions, r2, k2) ==> r == r2 && k == k2)
  }

  // ----------------------------------------------------------------- counting

  predicate Shows(s: Slot, r: int) { s.Attached? && s.shmid == r }

  /** How many slots show region r. */
  function Count(slots: seq<Slot>, r: int): nat {
    if slots == [] then 0 else Count(slots[1..], r) + if Shows(slots[0], r) then 1 else 0
  }

  lemma {:induction false} CountUpdate(slots: seq<Slot>, i: nat, s: Slot, r: int)
    requires i < |slots|
    ensures Count(slots[i := s], r) ==
              Count(slots, r) - (if Shows(slots[i], r) then 1 else 0) + (if Shows(s, r) then 1 else 0)
  {
    if i == 0 {
      assert slots[i := s][1..] == slots[1..];
    } else {
      CountUpdate(slots[1..], i - 1, s, r);
      assert slots[i := s][1..] == slots[1..][i - 1 := s];
    }
  }

  lemma {:induction false} CountNone(slots: seq<Slot>, r: int)
    requires forall i :: 0 <= i < |slots| ==> slots[i].Empty?
    ensures Count(slots, r) == 0
  {
    if slots != [] {
      CountNone(slots[1..], r);
    }
  }

  /** No region shows fewer attaches than this process has. */
  ghost predicate Tallied(regions: seq<Region>, slots: seq<Slot>) {
    forall r :: 0 <= r < |regions| && regions[r].Region? ==> Count(slots, r) <= regions[r].nattch
  }

  /** The regions differ in their attach counts only, and those by what the slots
      differ: the attaches of other processes are unchanged. */
  ghost predicate Balanced(regions: seq<Region>, slots: seq<Slot>, regions': seq<Region>, slots': seq<Slot>) {
    && |regions'| == |regions|
    && forall r :: 0 <= r < |regions| ==>
         if regions[r].Unused? then regions'[r].Unused?
         else regions'[r].Region? && regions'[r] == regions[r].(nattch := regions'[r].nattch)
              && regions'[r].nattch - Count(slots', r) == regions[r].nattch - Count(slots, r)
  }

  lemma BalancedSame(regions: seq<Region>, slots: seq<Slot>)
    ensures Balanced(regions, slots, regions, slots)
  {
  }

  lemma BalancedTrans(regions0: seq<Region>, slots0: seq<Slot>, regions1: seq<Region>, slots1: seq<Slot>,
                      regions2: seq<Region>, slots2: seq<Slot>)
    requires Balanced(regions0, slots0, regions1, slots1) && Balanced(regions1, slots1, regions2, slots2)
    ensures Balanced(regions0, slots0, regions2, slots2)
  {
    hide Count;
  }

  lemma BalancedTally(regions: seq<Region>, slots: seq<Slot>, regions': seq<Region>, slots': seq<Slot>)
    requires Balanced(regions, slots, regions', slots') && Tallied(regions, slots)
    ensures Tallied(regions', slots')
  {
    hide Count;
  }

  /** Only the frames of the regions matter to the pages. */
  lemma BalancedBacked(ts: Tables, d: nat, regions: seq<Region>, slots: seq<Slot>, regions': seq<Region>,
                       slots': seq<Slot>, shown: seq<Slot>)
    requires Balanced(regions, slots, regions', slots') && AllBacked(ts, d, regions, shown) && RegionsOk(regions)
    ensures AllBacked(ts, d, regions', shown) && RegionsOk(regions')
  {
    hide Count;
    hide Pte;
    forall i | 0 <= i < |shown|
      ensures Backed(ts, d, regions', shown[i])
    {
      assert Backed(ts, d, regions, shown[i]);
    }
  }

  lemma BalancedOwned(role: map<nat, Role>, regions: seq<Region>, slots: seq<Slot>, regions': seq<Region>,
                      slots': seq<Slot>)
    requires Balanced(regions, slots, regions', slots') && FramesOwned(role, regions)
    ensures FramesOwned(role, regions')
  {
    hide Count;
    forall r, k | IsFrame(regions', r, k)
      ensures IsFrame(regions, r, k) && FrameOf(regions', r, k) == FrameOf(regions, r, k)
    {
    }
  }

  /** Growing an address space takes free pages only. */
  lemma ExtendsOwned(role: map<nat, Role>, role': map<nat, Role>, d: nat, regions: seq<Region>)
    requires Extends(role, role', d, 0, 0) && FramesOwned(role, regions)
    ensures FramesOwned(role', regions)
  {
    forall r, k | IsFrame(regions, r, k)
      ensures FrameOf(regions, r, k) in role' && role'[FrameOf(regions, r, k)].Held?
    {
      assert FrameOf(regions, r, k) in role.Keys;
    }
  }

  /** A slot emptied and its region's count lowered. */
  lemma DetachBalanced(regions: seq<Region>, slots: seq<Slot>, i: nat)
    requires Tallied(regions, slots) && i < |slots| && slots[i].Attached?
    requires slots[i].shmid < |regions| && regions[slots[i].shmid].Region?
    ensures regions[slots[i].shmid].nattch > 0
    ensures var k := slots[i].shmid;
            Balanced(regions, slots, regions[k := regions[k].(nattch := regions[k].nattch - 1)], slots[i := Empty])
  {
    hide Count;
    var k := slots[i].shmid;
    CountUpdate(slots, i, Empty, k);
    forall r | 0 <= r < |regions|
      ensures Count(slots[i := Empty], r) == Count(slots, r) - if r == k then 1 else 0
    {
      CountUpdate(slots, i, Empty, r);
    }
  }

  /** A slot filled and its region's count raised. */
  lemma AttachBalanced(regions: seq<Region>, slots: seq<Slot>, i: nat, s: Slot)
    requires i < |slots| && slots[i].Empty? && s.Attached? && s.shmid < |regions| && regions[s.shmid].Region?
    ensures var k := s.shmid;
            Balanced(regions, slots, regions[k := regions[k].(nattch := regions[k].nattch + 1)], slots[i := s])
  {
    hide Count;
    forall r | 0 <= r < |regions|
      ensures Count(slots[i := s], r) == Count(slots, r) + if r == s.shmid then 1 else 0
    {
      CountUpdate(slots, i, s, r);
    }
  }

  // ------------------------------------------------------------------ erasing

  /** Pages first..first+k-1 of d have been cleared, and nothing else. */
  ghost predicate Erased(ts: Tables, ts': Tables, role: map<nat, Role>, d: nat, first: nat, k: nat) {
    && (forall x, i :: x in role && role[x].Dir? ==> Pde(ts', x, i) == Pde(ts, x, i))
    && (forall x, w :: x in role && role[x].Dir? && 0 <= w < ALLPAGES ==>
                         Pte(ts', x, w) == if x == d && first <= w < first + k then NONE else Pte(ts, x, w))
  }

  lemma EraseStart(ts: Tables, role: map<nat, Role>, d: nat, first: nat)
    ensures Erased(ts, ts, role, d, first, 0)
  {
    hide Pte;
    hide Pde;
  }

  lemma EraseStep(ts0: Tables, ts: Tables, freelist: seq<nat>, role: map<nat, Role>, d: nat, first: nat, k: nat)
    requires Erased(ts0, ts, role, d, first, k) && Owned(ts, freelist, role, 0, 0) && d in role && role[d].Dir?
    requires USERPAGES <= first + k < ALLPAGES && Pde(ts, d, (first + k) / NPT).present
    ensures var ts' := Stored(ts, d, first + k, NONE);
            Owned(ts', freelist, role, 0, 0) && Erased(ts0, ts', role, d, first, k + 1)
  {
    hide Owned;
    hide Pte;
    hide Pde;
    hide Stored;
    MapKernel(ts, freelist, role, d, first + k, NONE);
  }

  lemma ErasePde(ts0: Tables, ts: Tables, role: map<nat, Role>, d: nat, first: nat, k: nat, w: nat)
    requires Erased(ts0, ts, role, d, first, k) && d in role && role[d].Dir? && Pte(ts0, d, w).present
    ensures Pde(ts, d, w / NPT).present
  {
    hide Pde;
  }

  /** A page belongs to at most one slot. */
  lemma PagesApart(slots: seq<Slot>, i: nat, j: nat, w: int)
    requires Sound(slots) && i < |slots| && j < |slots| && InPages(slots[i], w) && InPages(slots[j], w)
    ensures i == j
  {
    assert Placed(slots[i]) && Placed(slots[j]);
    if i != j {
      PairApart(slots, i, j);
    }
  }

  lemma EraseBacked(ts: Tables, ts': Tables, role: map<nat, Role>, d: nat, regions: seq<Region>, slots: seq<Slot>,
                    i: nat)
    requires Sound(slots) && AllBacked(ts, d, regions, slots) && i < |slots| && slots[i].Attached? && d in role
             && role[d].Dir?
    requires Erased(ts, ts', role, d, slots[i].va / PGSIZE, slots[i].size)
    ensures AllBacked(ts', d, regions, slots[i := Empty])
  {
    hide Pte;
    hide Pde;
    hide Erased;
    var after := slots[i := Empty];
    forall j | 0 <= j < |after|
      ensures Backed(ts', d, regions, after[j])
    {
      assert Backed(ts, d, regions, slots[j]);
      if j != i && slots[j].Attached? {
        forall w | slots[j].va / PGSIZE <= w < slots[j].va / PGSIZE + slots[j].size
          ensures Pte(ts', d, w) == Pte(ts, d, w)
        {
          OtherPage(ts, ts', role, d, slots, i, j, w);
        }
      }
    }
  }

  lemma OtherPage(ts: Tables, ts': Tables, role: map<nat, Role>, d: nat, slots: seq<Slot>, i: nat, j: nat, w: int)
    requires Sound(slots) && i < |slots| && j < |slots| && i != j && slots[i].Attached? && InPages(slots[j], w)
             && d in role && role[d].Dir?
    requires Erased(ts, ts', role, d, slots[i].va / PGSIZE, slots[i].size)
    ensures Pte(ts', d, w) == Pte(ts, d, w)
  {
    hide Pte;
    hide Pde;
    assert Placed(slots[j]);
    if InPages(slots[i], w) {
      PagesApart(slots, i, j, w);
    }
  }

  /** Page w belonged to a slot that has since been emptied. */
  ghost predicate Vacated(slots: seq<Slot>, slots': seq<Slot>, w: int) {
    exists i :: 0 <= i < |slots| && i < |slots'| && InPages(slots[i], w) && slots'[i].Empty?
  }

  /** Some slots have been emptied and exactly their pages cleared. */
  ghost predicate Detached(ts: Tables, ts': Tables, role: map<nat, Role>, d: nat, slots: seq<Slot>, slots': seq<Slot>) {
    && |slots'| == |slots| && (forall i :: 0 <= i < |slots| ==> slots'[i] == slots[i] || slots'[i].Empty?)
    && (forall x, i :: x in role && role[x].Dir? ==> Pde(ts', x, i) == Pde(ts, x, i))
    && (forall x, w :: x in role && role[x].Dir? && 0 <= w < ALLPAGES ==>
                         Pte(ts', x, w) == if x == d && Vacated(slots, slots', w) then NONE else Pte(ts, x, w))
  }

  lemma DetachStart(ts: Tables, role: map<nat, Role>, d: nat, slots: seq<Slot>)
    ensures Detached(ts, ts, role, d, slots, slots)
  {
    hide Pte;
    hide Pde;
  }

  lemma VacateOne(slots: seq<Slot>, slots': seq<Slot>, i: nat, w: int)
    requires |slots'| == |slots| && i < |slots| && slots'[i] == slots[i]
    ensures Vacated(slots, slots'[i := Empty], w) <==> Vacated(slots, slots', w) || InPages(slots[i], w)
  {
    var after := slots'[i := Empty];
    if Vacated(slots, after, w) {
      var j :| 0 <= j < |slots| && j < |after| && InPages(slots[j], w) && after[j].Empty?;
      assert j == i || slots'[j].Empty?;
    }
    if Vacated(slots, slots', w) {
      var j :| 0 <= j < |slots| && j < |slots'| && InPages(slots[j], w) && slots'[j].Empty?;
      assert after[j].Empty?;
    }
    if InPages(slots[i], w) {
      assert after[i].Empty?;
    }
  }

  lemma DetachStep(ts0: Tables, ts: Tables, ts': Tables, role: map<nat, Role>, d: nat, slots0: seq<Slot>,
                   slots: seq<Slot>, i: nat)
    requires Detached(ts0, ts, role, d, slots0, slots) && i < |slots| && slots[i].Attached?
    requires Erased(ts, ts', role, d, slots[i].va / PGSIZE, slots[i].size)
    ensures Detached(ts0, ts', role, d, slots0, slots[i := Empty])
  {
    hide Pte;
    hide Pde;
    hide Vacated;
    forall x, w | x in role && role[x].Dir? && 0 <= w < ALLPAGES
      ensures Pte(ts', x, w) == if x == d && Vacated(slots0, slots[i := Empty], w) then NONE else Pte(ts0, x, w)
    {
      VacateOne(slots0, slots, i, w);
    }
  }

  // ------------------------------------------------------------------- laying

  /** Pages first..first+k-1 of d, absent before, now show the first k frames. */
  ghost predicate Laid(ts: Tables, ts': Tables, role: map<nat, Role>, d: nat, first: nat, k: nat, frames: seq<nat>,
                       perm: nat)
    requires k <= |frames|
  {
    && (forall x, w :: x in role && role[x].Dir? && 0 <= w < ALLPAGES ==>
                         Pte(ts', x, w) == if x == d && first <= w < first + k
                           then Entry(true, frames[w - first], perm) else Pte(ts, x, w))
    && (forall w :: first <= w < first + k ==> !Pte(ts, d, w).present)
  }

  lemma LayStart(ts: Tables, role: map<nat, Role>, d: nat, first: nat, frames: seq<nat>, perm: nat)
    ensures Laid(ts, ts, role, d, first, 0, frames, perm)
  {
    hide Pte;
  }

  lemma LayStep(ts0: Tables, ts: Tables, ts': Tables, role0: map<nat, Role>, role: map<nat, Role>, d: nat, first: nat,
                k: nat, j: nat, frames: seq<nat>, perm: nat)
    requires k < |frames| && j <= 1 && Laid(ts0, ts, role0, d, first, k, frames, perm)
             && MapView(ts, ts', role, d, first + k, j, frames[k], perm)
    requires d in role0 && role0[d].Dir? && first + k < ALLPAGES
    requires forall x :: x in role0 && role0[x].Dir? ==> x in role && role[x].Dir?
    ensures Laid(ts0, ts', role0, d, first, k + j, frames, perm)
    ensures Pte(ts, d, first + k) == Pte(ts0, d, first + k)
  {
    hide Pte;
    hide Pde;
  }

  /** Pages in use are present, so they were not among the absent ones laid. */
  lemma LaidBacked(ts: Tables, ts': Tables, role: map<nat, Role>, d: nat, first: nat, k: nat, frames: seq<nat>,
                   perm: nat, regions: seq<Region>, slots: seq<Slot>)
    requires k <= |frames| && Laid(ts, ts', role, d, first, k, frames, perm) && AllBacked(ts, d, regions, slots)
             && Sound(slots)
    requires d in role && role[d].Dir?
    ensures AllBacked(ts', d, regions, slots)
  {
    hide Pte;
    forall i | 0 <= i < |slots|
      ensures Backed(ts', d, regions, slots[i])
    {
      assert Backed(ts, d, regions, slots[i]);
      assert Placed(slots[i]);
      if slots[i].Attached? {
        forall w | slots[i].va / PGSIZE <= w < slots[i].va / PGSIZE + slots[i].size
          ensures Pte(ts', d, w) == Pte(ts, d, w)
        {
          assert Pte(ts, d, w).present;
        }
      }
    }
  }

  lemma LaidSlot(ts: Tables, ts': Tables, role: map<nat, Role>, d: nat, va: nat, frames: seq<nat>, perm: nat,
                 regions: seq<Region>, shmid: nat)
    requires Laid(ts, ts', role, d, va / PGSIZE, |frames|, frames, perm) && d in role && role[d].Dir?
             && va / PGSIZE + |frames| <= ALLPAGES
    requires shmid < |regions| && regions[shmid].Region? && regions[shmid].frames == frames
    ensures Backed(ts', d, regions, Attached(shmid, va, |frames|, perm))
  {
    hide Pte;
  }

  lemma CommonPage(s: Slot, va: nat, n: nat) returns (w: nat)
    requires Placed(s) && Overlaps(s, va, n) && va % PGSIZE == 0 && n > 0
    ensures InPages(s, w) && va / PGSIZE <= w < va / PGSIZE + n
  {
    var p, q := va / PGSIZE, s.va / PGSIZE;
    assert va == p * PGSIZE && s.va == q * PGSIZE;
    w := if p >= q then p else q;
  }

  /** A segment whose pages are all absent overlaps no attachment. */
  lemma AbsentUnblocked(ts: Tables, d: nat, regions: seq<Region>, slots: seq<Slot>, va: nat, n: nat)
    requires AllBacked(ts, d, regions, slots) && Sound(slots) && va % PGSIZE == 0 && n > 0
    requires forall w :: va / PGSIZE <= w < va / PGSIZE + n ==> !Pte(ts, d, w).present
    ensures !Blocked(slots, va, n)
  {
    hide Pte;
    forall i | 0 <= i < |slots|
      ensures !Overlaps(slots[i], va, n)
    {
      assert Backed(ts, d, regions, slots[i]) && Placed(slots[i]);
      if Overlaps(slots[i], va, n) {
        var w := CommonPage(slots[i], va, n);
        var e := Pte(ts, d, w);
        assert false;
      }
    }
  }

  // -------------------------------------------------------------------- the class

  /** Why shmat returns -1. */
  datatype Why = NoRegion | BadAddress | NoSpace | Occupied | NoPermission | NoMemory | NoSlot

  datatype Attach = At(va: nat) | Refused(why: Why) | Panic

  /** A page of the segment at va is present and does not belong to a slot about to
      be evicted: mapping it panics. */
  ghost predicate Collides(ts: Tables, d: nat, slots: seq<Slot>, va: nat, n: nat, evict: bool) {
    exists w :: va / PGSIZE <= w < va / PGSIZE + n && Pte(ts, d, w).present && !(evict && Covered(slots, w))
  }

  /** Page w has no page table, and there is no free page for one. */
  predicate OutOfMemory(ts: Tables, freelist: seq<nat>, d: nat, w: nat) {
    freelist == [] && !Pde(ts, d, w / NPT).present
  }

  /** Every present page between HEAPLIMIT and KERNBASE belongs to an attachment. */
  ghost predicate Clean(ts: Tables, d: nat, slots: seq<Slot>) {
    forall w :: USERPAGES <= w < KERNPAGE && Pte(ts, d, w).present ==> Covered(slots, w)
  }

  /** The address shmat uses for a segment of n pages. */
  ghost predicate Chosen(slots: seq<Slot>, n: nat, shmaddr: nat, rnd: bool, va: nat) {
    if shmaddr != 0 then va == (if rnd || shmaddr % PGSIZE == 0 then shmaddr / PGSIZE * PGSIZE else HEAPLIMIT)
    else va % PGSIZE == 0 && HEAPLIMIT <= va && !Blocked(slots, va, n) && forall w: int :: HEAPLIMIT <= w < va ==>
        Blocked(slots, w, n)
  }

  ghost predicate Inside(slots: seq<Slot>, va: nat) {
    exists i :: 0 <= i < |slots| && Holds(slots[i], va)
  }

  /** shmat gets as far as asking for the permission. */
  ghost predicate Reaches(slots: seq<Slot>, n: nat, shmaddr: nat, remap: bool, va: nat) {
    && (shmaddr == 0 || HEAPLIMIT <= shmaddr < KERNBASE) && va + n * PGSIZE < KERNBASE
    && (Inside(slots, va) ==> remap)
  }

  /** The slots once SHM_REMAP has made room. */
  ghost function Cleared(slots: seq<Slot>, va: nat, n: nat): seq<Slot> {
    if Inside(slots, va) then Evicted(slots, va, n, KERNBASE) else slots
  }

  lemma RangeVacated(slots: seq<Slot>, va: nat, n: nat, w: nat)
    requires Sound(slots) && va / PGSIZE <= w < va / PGSIZE + n && va % PGSIZE == 0
    ensures Vacated(slots, Cleared(slots, va, n), w) <==> Inside(slots, va) && Covered(slots, w)
  {
    var after := Cleared(slots, va, n);
    if Inside(slots, va) && Covered(slots, w) {
      var i :| 0 <= i < |slots| && InPages(slots[i], w);
      assert Placed(slots[i]);
      assert va == va / PGSIZE * PGSIZE && slots[i].va == slots[i].va / PGSIZE * PGSIZE;
      assert Overlaps(slots[i], va, n);
      assert after[i].Empty?;
    }
  }

  /** The pages of emptied slots are cleared, then the first k pages of the segment
      show its frames; every other entry is as it was. */
  ghost predicate Attaching(ts: Tables, ts': Tables, role: map<nat, Role>, d: nat, slots: seq<Slot>, slots': seq<Slot>,
                            first: nat, k: nat, frames: seq<nat>, perm: nat)
    requires k <= |frames|
  {
    forall x, w :: x in role && role[x].Dir? && 0 <= w < ALLPAGES ==>
      Pte(ts', x, w) == if x == d && first <= w < first + k then Entry(true, frames[w - first], perm)
                        else if x == d && Vacated(slots, slots', w) then NONE else Pte(ts, x, w)
  }

  /** Each page from first on shows its frame, with the flags perm. */
  ghost predicate ShownAt(ts: Tables, d: nat, first: nat, frames: seq<nat>, perm: nat) {
    forall i :: 0 <= i < |frames| ==> Pte(ts, d, first + i) == Entry(true, frames[i], perm)
  }

  lemma ShownByAttach(ts: Tables, ts': Tables, role: map<nat, Role>, d: nat, slots: seq<Slot>, slots': seq<Slot>,
                      first: nat, frames: seq<nat>, perm: nat)
    requires d in role && role[d].Dir? && first + |frames| <= ALLPAGES
    requires Attaching(ts, ts', role, d, slots, slots', first, |frames|, frames, perm)
    ensures ShownAt(ts', d, first, frames, perm)
  {
    hide Pte;
    hide Vacated;
  }

  lemma AttachView(ts0: Tables, ts1: Tables, ts2: Tables, role: map<nat, Role>, d: nat, slots0: seq<Slot>,
                   slots1: seq<Slot>, first: nat, k: nat, frames: seq<nat>, perm: nat)
    requires k <= |frames| && Detached(ts0, ts1, role, d, slots0, slots1)
             && Laid(ts1, ts2, role, d, first, k, frames, perm)
    ensures Attaching(ts0, ts2, role, d, slots0, slots1, first, k, frames, perm)
  {
    hide Pte;
    hide Pde;
    hide Vacated;
  }

  /** A page of the segment that is present once room has been made collides. */
  lemma CollidesAt(ts0: Tables, ts1: Tables, role: map<nat, Role>, d: nat, slots: seq<Slot>, va: nat, n: nat, w: nat)
    requires Sound(slots) && d in role && role[d].Dir? && va % PGSIZE == 0 && va / PGSIZE <= w < va / PGSIZE + n
             && w < ALLPAGES
    requires Detached(ts0, ts1, role, d, slots, Cleared(slots, va, n))
    ensures Pte(ts1, d, w).present <==> Pte(ts0, d, w).present && !(Inside(slots, va) && Covered(slots, w))
  {
    hide Pte;
    hide Pde;
    hide Vacated;
    hide Covered;
    RangeVacated(slots, va, n, w);
  }

  lemma NoCollision(ts0: Tables, ts1: Tables, role: map<nat, Role>, d: nat, slots: seq<Slot>, va: nat, n: nat)
    requires Sound(slots) && d in role && role[d].Dir? && va % PGSIZE == 0 && va + n * PGSIZE < KERNBASE
    requires Detached(ts0, ts1, role, d, slots, Cleared(slots, va, n))
    requires forall w :: va / PGSIZE <= w < va / PGSIZE + n ==> !Pte(ts1, d, w).present
    ensures !Collides(ts0, d, slots, va, n, Inside(slots, va))
  {
    hide Pte;
    hide Detached;
    hide Cleared;
    hide Covered;
    hide Inside;
    hide Sound;
    forall w | va / PGSIZE <= w < va / PGSIZE + n
      ensures !(Pte(ts0, d, w).present && !(Inside(slots, va) && Covered(slots, w)))
    {
      CollidesAt(ts0, ts1, role, d, slots, va, n, w);
    }
  }

  /** On clean tables shmat panics exactly when it does not evict and the segment
      overlaps an attachment. */
  lemma CleanCollides(ts: Tables, d: nat, regions: seq<Region>, slots: seq<Slot>, va: nat, n: nat, evict: bool)
    requires Sound(slots) && AllBacked(ts, d, regions, slots) && Clean(ts, d, slots)
    requires va % PGSIZE == 0 && HEAPLIMIT <= va && n > 0 && va + n * PGSIZE < KERNBASE
    ensures Collides(ts, d, slots, va, n, evict) <==> !evict && Blocked(slots, va, n)
  {
    hide Pte;
    if Collides(ts, d, slots, va, n, evict) {
      var w :| va / PGSIZE <= w < va / PGSIZE + n && Pte(ts, d, w).present && !(evict && Covered(slots, w));
      var i :| 0 <= i < |slots| && InPages(slots[i], w);
      assert Placed(slots[i]);
      assert va == va / PGSIZE * PGSIZE && slots[i].va == slots[i].va / PGSIZE * PGSIZE;
      assert Overlaps(slots[i], va, n);
    }
    if !evict && Blocked(slots, va, n) {
      var i :| 0 <= i < |slots| && Overlaps(slots[i], va, n);
      assert Placed(slots[i]) && Backed(ts, d, regions, slots[i]);
      var w := CommonPage(slots[i], va, n);
      assert Pte(ts, d, w).present;
    }
  }

  class Shm {
    const vm: Vm
    const d: nat
    var slots: seq<Slot>
    var regions: seq<Region>

    ghost predicate Valid()
      reads this, vm
    {
      && vm.Valid() && vm.IsDir(d) && Sound(slots) && RegionsOk(regions)
      && AllBacked(vm.tables, d, regions, slots) && Tallied(regions, slots) && FramesOwned(vm.role, regions)
    }

    /** A new process has no attachments. */
    constructor (vm: Vm, d: nat, regions: seq<Region>)
      requires vm.Valid() && vm.IsDir(d) && RegionsOk(regions) && FramesOwned(vm.role, regions)
      ensures Valid() && this.vm == vm && this.d == d && this.regions == regions
      ensures forall i :: 0 <= i < |slots| ==> slots[i].Empty?
    {
      this.vm := vm;
      this.d := d;
      this.regions := regions;
      slots := seq(SHAREDREGIONS, _ => Empty);
      new;
      forall r | 0 <= r < |regions|
        ensures Count(slots, r) == 0
      {
        CountNone(slots, r);
      }
    }

    /** Detaches the segment that starts at shmaddr, if there is one. */
    method Shmdt(shmaddr: nat) returns (ok: bool, ghost index: nat)
      requires Valid()
      modifies this, vm
      ensures Valid() && vm.role == old(vm.role) && vm.freelist == old(vm.freelist) && vm.data == old(vm.data)
      ensures !ok ==> slots == old(slots) && regions == old(regions) && vm.tables == old(vm.tables)
      ensures !ok ==> forall i :: 0 <= i < |slots| && slots[i].Attached? ==> slots[i].va != shmaddr
      ensures ok ==> index < |old(slots)| && old(slots)[index].Attached? && old(slots)[index].va == shmaddr
      ensures ok ==> slots == old(slots)[index := Empty]
      ensures ok ==> Erased(old(vm.tables), vm.tables, vm.role, d, shmaddr / PGSIZE, old(slots)[index].size)
      ensures Balanced(old(regions), old(slots), regions, slots)
      ensures old(Clean(vm.tables, d, slots)) ==> Clean(vm.tables, d, slots)
    {
      hide Owned;
      hide Sound;
      hide Erased;
      hide AllBacked;
      hide Clean;
      hide Stored;
      hide Pte;
      hide Pde;
      hide Tallied;
      hide FramesOwned;
      hide Balanced;
      hide RegionsOk;
      BalancedSame(regions, slots);
      SlotCount(slots);
      index := 0;
      var i := 0;
      while i < SHAREDREGIONS && !(slots[i].Attached? && slots[i].va == shmaddr)
        invariant 0 <= i <= SHAREDREGIONS && slots == old(slots)
        invariant forall j :: 0 <= j < i && slots[j].Attached? ==> slots[j].va != shmaddr
      {
        i := i + 1;
      }
      if i == SHAREDREGIONS {
        return false, 0;
      }
      index := i;
      var s := slots[i];
      var first := s.va / PGSIZE;
      SlotPages(slots, i);
      SlotBacked(vm.tables, d, regions, slots, i);
      EraseStart(vm.tables, vm.role, d, first);
      var k := 0;
      while k < s.size
        invariant 0 <= k <= s.size && vm.Valid() && vm.IsDir(d) && vm.role == old(vm.role)
                  && vm.freelist == old(vm.freelist) && vm.data == old(vm.data)
        invariant Erased(old(vm.tables), vm.tables, vm.role, d, first, k) && slots == old(slots)
                  && regions == old(regions)
      {
        ErasePde(old(vm.tables), vm.tables, vm.role, d, first, k, first + k);
        var pte := vm.Walkpgdir(d, first + k, false);
        assert pte;
        EraseStep(old(vm.tables), vm.tables, vm.freelist, vm.role, d, first, k);
        vm.tables := Stored(vm.tables, d, first + k, NONE);
        k := k + 1;
      }
      EraseBacked(old(vm.tables), vm.tables, vm.role, d, regions, slots, i);
      if old(Clean(vm.tables, d, slots)) {
        DetachClean(old(vm.tables), vm.tables, vm.role, d, slots, i);
      }
      EmptiedSound(slots, i);
      DetachBalanced(regions, slots, i);
      slots := slots[i := Empty];
      var region := regions[s.shmid];
      if region.nattch > 0 {
        regions := regions[s.shmid := region.(nattch := region.nattch - 1)];
      }
      BalancedBacked(vm.tables, d, old(regions), old(slots), regions, slots, slots);
      BalancedTally(old(regions), old(slots), regions, slots);
      BalancedOwned(vm.role, old(regions), old(slots), regions, slots);
      ok := true;
    }

    /** SHM_REMAP: detaches exactly the attachments that overlap the new range, when
        the attachment idx holds its first address. */
    method Evict(va: nat, size: nat, at: nat)
      requires Valid() && at < |slots| && Holds(slots[at], va) && size > 0
      modifies this, vm
      ensures Valid() && vm.role == old(vm.role) && vm.freelist == old(vm.freelist) && vm.data == old(vm.data)
      ensures slots == Evicted(old(slots), va, size, KERNBASE)
      ensures Detached(old(vm.tables), vm.tables, vm.role, d, old(slots), slots)
      ensures Balanced(old(regions), old(slots), regions, slots)
    {
      hide Owned;
      hide Sound;
      hide Erased;
      hide AllBacked;
      hide Detached;
      hide Tallied;
      hide FramesOwned;
      hide Balanced;
      hide RegionsOk;
      hide Evicted;
      var idx: int := at;
      ghost var slots0 := slots;
      SlotCount(slots);
      DetachStart(vm.tables, vm.role, d, slots);
      BalancedSame(regions, slots);
      EvictStart(slots0, va, size, at);
      var segment := slots[at].va;
      while segment < va + size * PGSIZE
        invariant 0 <= idx < |slots0| && slots0[idx].Attached? && slots0[idx].va == segment && End(slots0[idx]) > va
        invariant Valid() && vm.role == old(vm.role) && vm.freelist == old(vm.freelist) && vm.data == old(vm.data)
        invariant slots == Evicted(slots0, va, size, segment)
        invariant Detached(old(vm.tables), vm.tables, vm.role, d, slots0, slots)
        invariant Balanced(old(regions), slots0, regions, slots)
        decreases KERNBASE - segment
      {
        ghost var slots1, regions1, ts1 := slots, regions, vm.tables;
        EvictNext(slots0, va, size, idx);
        var held := slots[idx].size;
        var ok, index := Shmdt(segment);
        SameStart(slots1, index, idx);
        DetachStep(old(vm.tables), ts1, vm.tables, vm.role, d, slots0, slots1, idx);
        BalancedTrans(old(regions), slots0, regions1, slots1, regions, slots);
        NonEmpty(slots0, idx);
        var next := GetLeastvaidx(slots, segment + held * PGSIZE);
        if next == -1 {
          EvictSkip(slots0, va, size, segment + held * PGSIZE, KERNBASE);
          return;
        }
        NonEmpty(slots, next);
        EvictedFrom(slots0, va, size, segment + held * PGSIZE, next);
        EvictSkip(slots0, va, size, segment + held * PGSIZE, slots[next].va);
        idx := next;
        segment := slots[idx].va;
      }
      EvictBeyond(slots0, va, size, segment);
    }

    /** Maps a segment page by page. k is how many pages it maps. */
    method MapSegment(va: nat, frames: seq<nat>, perm: nat) returns (r: MapResult, ghost k: nat)
      requires vm.Valid() && vm.IsDir(d) && va % PGSIZE == 0 && HEAPLIMIT <= va && va + |frames| * PGSIZE < KERNBASE
      modifies vm
      ensures vm.Valid() && vm.IsDir(d) && k <= |frames| && Extends(old(vm.role), vm.role, d, 0, 0)
      ensures Laid(old(vm.tables), vm.tables, old(vm.role), d, va / PGSIZE, k, frames, perm)
      ensures r.Mapped? <==> k == |frames|
      ensures r.Remap? ==> Pte(old(vm.tables), d, va / PGSIZE + k).present
      ensures r.NoMemory? ==> OutOfMemory(vm.tables, vm.freelist, d, va / PGSIZE + k)
      ensures |old(vm.freelist)| <= |vm.freelist| + if r.Remap? then k + 1 else k
    {
      hide Owned;
      hide Extends;
      hide Laid;
      hide MapView;
      hide MapRoles;
      hide Given;
      hide Unmapping;
      hide Unmapped;
      hide KeepsPages;
      hide Pte;
      hide Pde;
      ghost var first := va / PGSIZE;
      LayStart(vm.tables, vm.role, d, first, frames, perm);
      ExtendStart(vm.role, d, 0, 0);
      var i := 0;
      while i < |frames|
        invariant 0 <= i <= |frames| && vm.Valid() && vm.IsDir(d) && Extends(old(vm.role), vm.role, d, 0, 0)
        invariant Laid(old(vm.tables), vm.tables, old(vm.role), d, first, i, frames, perm)
        invariant |old(vm.freelist)| <= |vm.freelist| + i
      {
        ghost var ts, role := vm.tables, vm.role;
        PageAt(va, i);
        GivenKernel(role, first + i, 1, frames[i]);
        var res, j := vm.Mappages(d, va + i * PGSIZE, PGSIZE, frames[i], perm);
        ExtendedDirs(old(vm.role), role, d, 0, 0);
        LayStep(old(vm.tables), ts, vm.tables, old(vm.role), role, d, first, i, j, frames, perm);
        ExtendKernel(old(vm.role), role, vm.role, d, first + i, j, frames[i]);
        if res.NoMemory? {
          var _ := vm.Deallocuvm(d, va, va + |frames|);
        }
        if !res.Mapped? {
          return res, i;
        }
        i := i + 1;
      }
      return Mapped, |frames|;
    }

    /** Maps the region's pages at va and records the attachment in the first empty
        slot. If there is none, the pages stay mapped. */
    method Install(shmid: nat, va: nat, perm: nat) returns (r: Attach, ghost k: nat, ghost slot: nat)
      requires Valid() && shmid < |regions| && regions[shmid].Region?
      requires va % PGSIZE == 0 && HEAPLIMIT <= va && va + |regions[shmid].frames| * PGSIZE < KERNBASE
      modifies this, vm
      ensures Valid() && Extends(old(vm.role), vm.role, d, 0, 0) && Balanced(old(regions), old(slots), regions, slots)
      ensures k <= |old(regions)[shmid].frames|
      ensures Laid(old(vm.tables), vm.tables, old(vm.role), d, va / PGSIZE, k, old(regions)[shmid].frames, perm)
      ensures r.Panic? ==> k < |old(regions)[shmid].frames| && Pte(old(vm.tables), d, va / PGSIZE + k).present
      ensures |old(vm.freelist)| <= |vm.freelist| + if r.Panic? then k + 1 else k
      ensures !r.At? ==> slots == old(slots) && regions == old(regions)
      ensures r == Refused(Why.NoMemory) ==> OutOfMemory(vm.tables, vm.freelist, d, va / PGSIZE + k)
      ensures r.Refused? ==>
                if k < |old(regions)[shmid].frames| then r.why.NoMemory? else r.why.NoSlot? && Empty !in slots
      ensures r.At? ==>
                r.va == va && k == |old(regions)[shmid].frames| && slot < |old(slots)| && old(slots)[slot].Empty?
                  && Empty !in old(slots)[..slot]
      ensures r.At? ==> slots == old(slots)[slot := Attached(shmid, va, k, perm)]
    {
      hide Owned;
      hide Sound;
      hide AllBacked;
      hide Tallied;
      hide FramesOwned;
      hide Balanced;
      hide Extends;
      hide Laid;
      hide Pte;
      hide Pde;
      hide Blocked;
      var frames := regions[shmid].frames;
      slot := 0;
      SlotCount(slots);
      BalancedSame(regions, slots);
      var res;
      res, k := MapSegment(va, frames, perm);
      LaidBacked(old(vm.tables), vm.tables, old(vm.role), d, va / PGSIZE, k, frames, perm, regions, slots);
      ExtendsOwned(old(vm.role), vm.role, d, regions);
      if res.Remap? {
        return Panic, k, 0;
      }
      if res.NoMemory? {
        return Refused(Why.NoMemory), k, 0;
      }
      var i := 0;
      while i < SHAREDREGIONS && !slots[i].Empty?
        invariant 0 <= i <= SHAREDREGIONS && slots == old(slots) && Empty !in slots[..i]
      {
        i := i + 1;
      }
      if i == SHAREDREGIONS {
        return Refused(NoSlot), k, 0;
      }
      var s := Attached(shmid, va, |frames|, perm);
      WasAbsent(old(vm.tables), vm.tables, old(vm.role), d, va / PGSIZE, k, frames, perm);
      AbsentUnblocked(old(vm.tables), d, regions, slots, va, k);
      FilledSound(slots, i, s);
      LaidSlot(old(vm.tables), vm.tables, old(vm.role), d, va, frames, perm, regions, shmid);
      FilledBacked(vm.tables, d, regions, slots, i, s);
      AttachBalanced(regions, slots, i, s);
      slots := slots[i := s];
      regions := regions[shmid := regions[shmid].(nattch := regions[shmid].nattch + 1)];
      BalancedBacked(vm.tables, d, old(regions), old(slots), regions, slots, slots);
      BalancedTally(old(regions), old(slots), regions, slots);
      BalancedOwned(vm.role, old(regions), old(slots), regions, slots);
      return At(va), k, i;
    }

    method FindHolder(va: nat) returns (idx: int)
      requires Valid()
      ensures -1 <= idx < |slots| && (idx >= 0 <==> Inside(slots, va)) && (idx >= 0 ==> Holds(slots[idx], va))
    {
      SlotCount(slots);
      idx := 0;
      while idx < SHAREDREGIONS
            && !(slots[idx].Attached? && slots[idx].va + slots[idx].size * PGSIZE > va && va >= slots[idx].va)
        invariant 0 <= idx <= SHAREDREGIONS && forall j :: 0 <= j < idx ==> !Holds(slots[j], va)
      {
        idx := idx + 1;
      }
      if idx == SHAREDREGIONS {
        idx := -1;
      }
    }

    /** Makes room at va if asked to, then maps and records the segment. */
    method Place(shmid: nat, va: nat, idx: int, rdonly: bool) returns (r: Attach, ghost k: nat, ghost slot: nat)
      requires Valid() && shmid < SHAREDREGIONS && regions[shmid].Region?
      requires va % PGSIZE == 0 && HEAPLIMIT <= va && va + |regions[shmid].frames| * PGSIZE < KERNBASE
      requires -1 <= idx < |slots| && (idx >= 0 <==> Inside(slots, va)) && (idx >= 0 ==> Holds(slots[idx], va))
      modifies this, vm
      ensures Valid() && Extends(old(vm.role), vm.role, d, 0, 0) && Balanced(old(regions), old(slots), regions, slots)
      ensures r.Refused? ==> r.why.NoPermission? || r.why.NoMemory? || r.why.NoSlot?
      ensures |old(vm.freelist)| <= |vm.freelist| + if r.Panic? then k + 1 else k
      ensures r == Refused(NoPermission) <==>
                !rdonly && old(regions)[shmid].mode != READ_SHM && old(regions)[shmid].mode != RW_SHM
      ensures var frames, mode := old(regions)[shmid].frames, old(regions)[shmid].mode;
              var perm := if mode == RW_SHM && !rdonly then PTE_W + PTE_U else PTE_U;
              var after := Cleared(old(slots), va, |frames|);
              && k <= |frames| && Attaching(old(vm.tables), vm.tables, old(vm.role), d, old(slots), after, va / PGSIZE,
                                            k, frames, perm)
              && (!r.At? ==> slots == after)
              && (r.Refused? ==> (r.why.NoMemory? <==> !r.why.NoPermission? && k < |frames|))
              && (r.Refused? && r.why.NoSlot? ==> Empty !in after)
              && (r.Panic? ==> Collides(old(vm.tables), d, old(slots), va, |frames|, Inside(old(slots), va)))
              && (r == Refused(Why.NoMemory) ==> OutOfMemory(vm.tables, vm.freelist, d, va / PGSIZE + k))
              && (r.At? || r == Refused(NoSlot) ==>
                    !Collides(old(vm.tables), d, old(slots), va, |frames|, Inside(old(slots), va)))
              && (r.At? ==>
                    r.va == va && k == |frames| && slot < |after| && after[slot].Empty? && Empty !in after[..slot])
              && (r.At? ==> slots == after[slot := Attached(shmid, va, |frames|, perm)])
              && (old(Clean(vm.tables, d, slots)) && (r.At? || k == 0) ==> Clean(vm.tables, d, slots))
    {
      hide Owned;
      hide Sound;
      hide AllBacked;
      hide Tallied;
      hide FramesOwned;
      hide Balanced;
      hide Extends;
      hide Laid;
      hide Detached;
      hide Attaching;
      hide Collides;
      hide Inside;
      hide Evicted;
      hide Blocked;
      hide Clean;
      hide OutOfMemory;
      hide Pte;
      BalancedSame(regions, slots);
      ExtendStart(vm.role, d, 0, 0);
      ClearedSlots(slots, va, |regions[shmid].frames|);
      DetachStart(vm.tables, vm.role, d, slots);
      var size := |regions[shmid].frames|;
      if idx != -1 {
        Evict(va, size, idx);
      }
      assert slots == Cleared(old(slots), va, size);
      ghost var slots1, regions1, ts1, frames := slots, regions, vm.tables, old(regions)[shmid].frames;
      SameRegion(old(regions), old(slots), regions, slots, shmid);
      var mode := regions[shmid].mode;
      var perm := PTE_U;
      if rdonly || mode == READ_SHM {
      } else if mode == RW_SHM {
        perm := PTE_W + PTE_U;
      } else {
        LayStart(vm.tables, vm.role, d, va / PGSIZE, frames, perm);
        AttachView(old(vm.tables), ts1, vm.tables, vm.role, d, old(slots), slots, va / PGSIZE, 0, frames, perm);
        if old(Clean(vm.tables, d, slots)) {
          EvictClean(old(vm.tables), vm.tables, vm.role, d, old(slots), slots, va / PGSIZE, frames, perm);
        }
        return Refused(NoPermission), 0, 0;
      }
      r, k, slot := Install(shmid, va, perm);
      BalancedTrans(old(regions), old(slots), regions1, slots1, regions, slots);
      AttachView(old(vm.tables), ts1, vm.tables, old(vm.role), d, old(slots), slots1, va / PGSIZE, k, frames, perm);
      if r.Panic? {
        CollidesAt(old(vm.tables), ts1, old(vm.role), d, old(slots), va, size, va / PGSIZE + k);
        CollidesWitness(old(vm.tables), d, old(slots), va, size, Inside(old(slots), va), va / PGSIZE + k);
      }
      if r.At? || r == Refused(NoSlot) {
        WasAbsent(ts1, vm.tables, old(vm.role), d, va / PGSIZE, k, frames, perm);
        NoCollision(old(vm.tables), ts1, old(vm.role), d, old(slots), va, size);
      }
      if old(Clean(vm.tables, d, slots)) {
        if r.At? {
          AttachClean(old(vm.tables), vm.tables, old(vm.role), d, old(slots), slots1, frames, slot,
                      Attached(shmid, va, size, perm));
        } else if k == 0 {
          EvictClean(old(vm.tables), vm.tables, old(vm.role), d, old(slots), slots1, va / PGSIZE, frames, perm);
        }
      }
    }

    /** The address for a segment: the one asked for, rounded down if need be, or
        the lowest that is free. */
    method PickAddress(size: nat, shmaddr: nat, rnd: bool) returns (at: nat)
      requires Valid() && 1 <= size <= SHAREDREGIONS && (shmaddr == 0 || HEAPLIMIT <= shmaddr < KERNBASE)
      ensures Chosen(slots, size, shmaddr, rnd, at) && at % PGSIZE == 0 && HEAPLIMIT <= at
    {
      at := HEAPLIMIT;
      if shmaddr != 0 {
        var rounded := shmaddr / PGSIZE * PGSIZE;
        if rnd || rounded == shmaddr {
          at := rounded;
        }
      } else {
        at := FirstFit(slots, size);
      }
    }

    /** Attaches region shmid. va is the address it settles on, k the number of pages
        it maps, slot the slot it fills. */
    method Shmat(shmid: nat, shmaddr: nat, rnd: bool, remap: bool, rdonly: bool)
      returns (r: Attach, ghost va: nat, ghost k: nat, ghost slot: nat)
      requires Valid() && shmid < SHAREDREGIONS
      modifies this, vm
      ensures Valid() && Extends(old(vm.role), vm.role, d, 0, 0) && Balanced(old(regions), old(slots), regions, slots)
      ensures r == Refused(NoRegion) <==> old(regions)[shmid].Unused?
      ensures r == Refused(BadAddress) <==>
                old(regions)[shmid].Region? && shmaddr != 0 && !(HEAPLIMIT <= shmaddr < KERNBASE)
      ensures r.Refused? && (r.why.NoRegion? || r.why.BadAddress? || r.why.NoSpace? || r.why.Occupied?) ==>
                slots == old(slots) && regions == old(regions) && vm.tables == old(vm.tables) && vm.role == old(vm.role)
      ensures old(regions)[shmid].Region? && r != Refused(BadAddress) ==>
                var n := |old(regions)[shmid].frames|;
                && Chosen(old(slots), n, shmaddr, rnd, va)
                && (r == Refused(NoSpace) <==> va + n * PGSIZE >= KERNBASE)
                && (r == Refused(Occupied) <==> va + n * PGSIZE < KERNBASE && Inside(old(slots), va) && !remap)
      ensures old(regions)[shmid].Region? && r !in {Refused(BadAddress), Refused(NoSpace), Refused(Occupied)} ==>
                var frames, mode := old(regions)[shmid].frames, old(regions)[shmid].mode;
                var perm := if mode == RW_SHM && !rdonly then PTE_W + PTE_U else PTE_U;
                var after := Cleared(old(slots), va, |frames|);
                && k <= |frames| && Attaching(old(vm.tables), vm.tables, old(vm.role), d, old(slots), after,
                                              va / PGSIZE, k, frames, perm)
                && (r == Refused(NoPermission) <==> !rdonly && mode != READ_SHM && mode != RW_SHM)
                && (!r.At? ==> slots == after)
                && (r.Refused? ==> (r.why.NoMemory? <==> !r.why.NoPermission? && k < |frames|))
                && (r.Refused? && r.why.NoSlot? ==> Empty !in after)
                && (r.Panic? ==> Collides(old(vm.tables), d, old(slots), va, |frames|, Inside(old(slots), va)))
                && (r == Refused(Why.NoMemory) ==> OutOfMemory(vm.tables, vm.freelist, d, va / PGSIZE + k))
                && (r.At? || r == Refused(NoSlot) ==>
                      !Collides(old(vm.tables), d, old(slots), va, |frames|, Inside(old(slots), va)))
                && (r.At? ==>
                      r.va == va && k == |frames| && slot < |after| && after[slot].Empty? && Empty !in after[..slot])
                && (r.At? ==> slots == after[slot := Attached(shmid, va, |frames|, perm)])
      ensures r.At? ==>
                && old(regions)[shmid].Region? && slot < |slots| && slots[slot].Attached?
                && ShownAt(vm.tables, d, va / PGSIZE, old(regions)[shmid].frames, slots[slot].perm)
                && slots[slot].perm == if old(regions)[shmid].mode == RW_SHM && !rdonly then PTE_W + PTE_U else PTE_U
      ensures |old(vm.freelist)| <= |vm.freelist| + if r.Panic? then k + 1 else k
      ensures old(Clean(vm.tables, d, slots)) && (r.At? || k == 0) ==> Clean(vm.tables, d, slots)
      ensures old(Clean(vm.tables, d, slots)) && (shmaddr == 0 || (remap && Inside(old(slots), va))) ==> !r.Panic?
      ensures old(Clean(vm.tables, d, slots)) && old(regions)[shmid].Region? && (r.Refused? ==> r.why.NoSlot?) ==>
                (r.Panic? <==> !Inside(old(slots), va) && Blocked(old(slots), va, |old(regions)[shmid].frames|))
      ensures old(regions)[shmid].Region? ==>
                var frames, mode := old(regions)[shmid].frames, old(regions)[shmid].mode;
                old(Clean(vm.tables, d, slots)) && Reaches(old(slots), |frames|, shmaddr, remap, va)
                && (rdonly || mode == READ_SHM || mode == RW_SHM) && |old(vm.freelist)| > |frames| ==>
                  (r.Panic? <==> !Inside(old(slots), va) && Blocked(old(slots), va, |frames|))
    {
      hide Owned;
      hide Sound;
      hide AllBacked;
      hide Tallied;
      hide FramesOwned;
      hide Balanced;
      hide Extends;
      hide ShownAt;
      hide Attaching;
      hide Collides;
      hide Cleared;
      hide Inside;
      hide Blocked;
      hide Clean;
      hide OutOfMemory;
      hide Chosen;
      hide Pte;
      va, k, slot := 0, 0, 0;
      BalancedSame(regions, slots);
      ExtendStart(vm.role, d, 0, 0);
      if regions[shmid].Unused? {
        return Refused(NoRegion), 0, 0, 0;
      }
      if shmaddr != 0 && (shmaddr >= KERNBASE || shmaddr < HEAPLIMIT) {
        return Refused(BadAddress), 0, 0, 0;
      }
      var size := |regions[shmid].frames|;
      var at := PickAddress(size, shmaddr, rnd);
      va := at;
      if at + size * PGSIZE >= KERNBASE {
        return Refused(NoSpace), va, 0, 0;
      }
      var idx := FindHolder(at);
      if idx != -1 && !remap {
        return Refused(Occupied), va, 0, 0;
      }
      r, k, slot := Place(shmid, at, idx, rdonly);
      if r.At? {
        ShownByAttach(old(vm.tables), vm.tables, old(vm.role), d, old(slots), Cleared(old(slots), va, size),
                      va / PGSIZE, old(regions)[shmid].frames, slots[slot].perm);
      }
      if old(Clean(vm.tables, d, slots)) {
        CleanCollides(old(vm.tables), d, old(regions), old(slots), va, size, Inside(old(slots), va));
        ChosenFree(old(slots), size, shmaddr, rnd, va);
        NoPages(vm.tables, vm.freelist, d, va / PGSIZE + k);
      }
    }

    /** The first region with the key, or the number of regions. */
    method FindKey(key: nat) returns (i: nat)
      requires RegionsOk(regions)
      ensures i <= |regions| && (i < |regions| ==> KeyOf(regions[i]) == key)
      ensures forall j :: 0 <= j < i ==> KeyOf(regions[j]) != key
    {
      i := 0;
      while i < SHAREDREGIONS && KeyOf(regions[i]) != key
        invariant 0 <= i <= SHAREDREGIONS && forall j :: 0 <= j < i ==> KeyOf(regions[j]) != key
      {
        i := i + 1;
      }
    }

    /** Takes n pages, zeroed, or all that are left. */
    method TakePages(n: nat) returns (frames: seq<nat>)
      requires vm.Valid()
      modifies vm
      ensures vm.Valid() && vm.tables == old(vm.tables) && |frames| <= n && HeldNow(old(vm.role), vm.role, frames)
      ensures |frames| < n ==> vm.freelist == []
      ensures |old(vm.freelist)| == |vm.freelist| + |frames| && Zeroed(vm.data, frames)
    {
      hide Owned;
      hide ZeroPage;
      frames := [];
      var i := 0;
      while i < n
        invariant 0 <= i <= n && |frames| == i && vm.Valid() && vm.tables == old(vm.tables)
                  && HeldNow(old(vm.role), vm.role, frames)
        invariant |old(vm.freelist)| == |vm.freelist| + i
        invariant Zeroed(vm.data, frames)
      {
        ghost var role := vm.role;
        var page := vm.Kalloc();
        if page.None? {
          return;
        }
        HeldOneMore(old(vm.role), role, frames, page.value);
        vm.data := vm.data[page.value := ZeroPage()];
        frames := frames + [page.value];
        i := i + 1;
      }
    }

    /** shmget's creation of a region: zeroed pages of its own, or -1 when memory
        runs out, with the pages taken so far lost. */
    method Create(key: nat, mode: nat, pages: nat) returns (r: int)
      requires Valid() && 1 <= pages <= SHAREDREGIONS && forall i :: 0 <= i < |regions| ==> KeyOf(regions[i]) != key
      modifies `regions, vm
      ensures Valid() && vm.tables == old(vm.tables)
      ensures Created(old(regions), regions, old(vm.role), vm.role, key, mode, pages, r)
      ensures Unused !in old(regions) ==> r == -1 && vm.role == old(vm.role)
      ensures r == -1 && Unused in old(regions) ==> |old(vm.freelist)| < pages && vm.freelist == []
      ensures r != -1 ==> |old(vm.freelist)| == |vm.freelist| + pages && Zeroed(vm.data, regions[r].frames)
    {
      hide Owned;
      hide Sound;
      hide AllBacked;
      hide Tallied;
      hide FramesOwned;
      hide HeldNow;
      hide ZeroPage;
      var index := FindKey(NOKEY);
      if index == |regions| {
        return -1;
      }
      var frames := TakePages(pages);
      TakenOwned(old(vm.role), vm.role, regions, frames);
      if |frames| < pages {
        return -1;
      }
      NewRegion(vm.tables, d, vm.role, regions, slots, index, Region(key, mode, frames, 0));
      regions := regions[index := Region(key, mode, frames, 0)];
      return index;
    }

    /** Finds or creates the region with the key. The size in pages is size / PGSIZE + 1. */
    method Shmget(key: nat, size: nat, shmflag: nat) returns (r: int)
      requires Valid()
      modifies `regions, vm
      ensures Valid() && vm.tables == old(vm.tables)
      ensures r != -1 ==>
                && 0 <= r < |regions| && regions[r].Region? && regions[r].key == key
                && size > 0 && |regions[r].frames| == size / PGSIZE + 1 <= SHAREDREGIONS
                && (shmflag % 8 == READ_SHM || shmflag % 8 == RW_SHM || (shmflag == 0 && key != IPC_PRIVATE))
                && (regions != old(regions) ==> regions[r].mode == shmflag % 8 && regions[r].nattch == 0)
      ensures !GetOk(key, size, shmflag) ==> r == -1 && regions == old(regions) && vm.role == old(vm.role)
      ensures GetOk(key, size, shmflag) && KeyInUse(old(regions), key) ==>
                var pages, rest := size / PGSIZE + 1, FlagsOf(shmflag);
                && regions == old(regions) && vm.role == old(vm.role)
                && (r == -1 || (0 <= r < |regions| && regions[r].Region? && regions[r].key == key
                                && Fits(regions[r], key, pages, rest)))
                && (r == -1 ==> forall i :: 0 <= i < |regions| && regions[i].Region? && regions[i].key == key ==>
                      !Fits(regions[i], key, pages, rest))
      ensures GetOk(key, size, shmflag) && !KeyInUse(old(regions), key) ==>
                var rest := FlagsOf(shmflag);
                if key == NOKEY || (key != IPC_PRIVATE && rest != IPC_CREAT && rest != IPC_CREAT + IPC_EXCL)
                   || Unused !in old(regions)
                then r == -1 && regions == old(regions) && vm.role == old(vm.role)
                else && Created(old(regions), regions, old(vm.role), vm.role, key, shmflag % 8, size / PGSIZE + 1, r)
                     && (r == -1 ==> |old(vm.freelist)| < size / PGSIZE + 1 && vm.freelist == [])
                     && (r != -1 ==>
                           |old(vm.freelist)| == |vm.freelist| + size / PGSIZE + 1
                             && Zeroed(vm.data, regions[r].frames))
    {
      hide Owned;
      hide Sound;
      hide AllBacked;
      hide Tallied;
      hide FramesOwned;
      hide Created;
      var lower := shmflag % 8;
      var rest := shmflag;
      if lower == READ_SHM || lower == RW_SHM {
        rest := shmflag - lower;
      } else if !(shmflag == 0 && key != IPC_PRIVATE) {
        return -1;
      }
      if size == 0 {
        return -1;
      }
      var pages := size / PGSIZE + 1;
      if pages > SHAREDREGIONS {
        return -1;
      }
      var i := FindKey(key);
      if i < |regions| {
        if regions[i].Unused? || |regions[i].frames| != pages || rest == IPC_CREAT + IPC_EXCL {
          return -1;
        }
        if regions[i].mode == READ_SHM || regions[i].mode == RW_SHM {
          if (rest == 0 && key != IPC_PRIVATE) || rest == IPC_CREAT {
            return i;
          }
        }
        return -1;
      }
      if key == IPC_PRIVATE || rest == IPC_CREAT || rest == IPC_CREAT + IPC_EXCL {
        r := Create(key, lower, pages);
        CreatedSame(old(regions), regions, old(vm.role), vm.role, key, lower, pages, r);
        return;
      }
      return -1;
    }
  }

  /** Attaching and detaching keep the tables clean; only an attach that fails after
      it has begun to map leaves pages behind. */
  lemma AttachClean(ts: Tables, ts': Tables, role: map<nat, Role>, d: nat, slots: seq<Slot>, after: seq<Slot>,
                    frames: seq<nat>, slot: nat, s: Slot)
    requires Clean(ts, d, slots) && d in role && role[d].Dir? && s.Attached? && s.size == |frames| && slot < |after|
             && after[slot].Empty?
    requires |after| == |slots| && forall i :: 0 <= i < |slots| ==> after[i] == slots[i] || after[i].Empty?
    requires Attaching(ts, ts', role, d, slots, after, s.va / PGSIZE, |frames|, frames, s.perm)
    ensures Clean(ts', d, after[slot := s])
  {
    hide Pte;
    forall w | USERPAGES <= w < KERNPAGE && Pte(ts', d, w).present
      ensures Covered(after[slot := s], w)
    {
      if InPages(s, w) {
        assert after[slot := s][slot] == s;
      } else {
        assert Pte(ts, d, w).present;
        var i :| 0 <= i < |slots| && InPages(slots[i], w);
        assert after[slot := s][i] == slots[i];
      }
    }
  }

  /** So does an attach that maps nothing. */
  lemma EvictClean(ts: Tables, ts': Tables, role: map<nat, Role>, d: nat, slots: seq<Slot>, after: seq<Slot>,
                   first: nat, frames: seq<nat>, perm: nat)
    requires Clean(ts, d, slots) && d in role && role[d].Dir?
    requires |after| == |slots| && forall i :: 0 <= i < |slots| ==> after[i] == slots[i] || after[i].Empty?
    requires Attaching(ts, ts', role, d, slots, after, first, 0, frames, perm)
    ensures Clean(ts', d, after)
  {
    hide Pte;
    forall w | USERPAGES <= w < KERNPAGE && Pte(ts', d, w).present
      ensures Covered(after, w)
    {
      assert Pte(ts, d, w).present;
      var i :| 0 <= i < |slots| && InPages(slots[i], w);
      assert after[i] == slots[i];
    }
  }

  lemma ClearedSlots(slots: seq<Slot>, va: nat, n: nat)
    ensures |Cleared(slots, va, n)| == |slots|
    ensures forall i :: 0 <= i < |slots| ==> Cleared(slots, va, n)[i] == slots[i] || Cleared(slots, va, n)[i].Empty?
  {
  }

  /** The space that setupkvm makes is clean. */
  lemma FreshClean(ts: Tables, d: nat, kdata: nat, slots: seq<Slot>)
    requires LINKPAGE < kdata < STOPPAGE && KernelPart(ts, d, kdata, 4)
    ensures Clean(ts, d, slots)
  {
    hide Pte;
  }

  /** So is the space that copyuvm makes: a child starts without attachments. */
  lemma CopyClean(ts: Tables, data: map<nat, Page>, d: nat, c: nat, n: nat, kdata: nat, slots: seq<Slot>)
    requires Copied(ts, data, d, c, n, kdata) && n <= USERPAGES
    ensures Clean(ts, c, slots)
  {
    hide Pte;
    hide CopiedPage;
  }

  /** Growing or shrinking the heap does not touch the shared part. */
  lemma HeapClean(ts: Tables, ts': Tables, role: map<nat, Role>, role': map<nat, Role>, data': map<nat, Page>, d: nat,
                  lo: nat, hi: nat, slots: seq<Slot>)
    requires Clean(ts, d, slots) && d in role && role[d].Dir? && hi <= USERPAGES
    requires Grown(ts, ts', role, data', d, lo, hi) || Restored(ts, ts', role, d, lo, hi)
             || Unmapping(ts, ts', role, role', d, lo, hi)
    ensures Clean(ts', d, slots)
  {
    hide Pte;
    hide Pde;
    hide NewPage;
    forall w | USERPAGES <= w < KERNPAGE && Pte(ts', d, w).present
      ensures Covered(slots, w)
    {
      assert Pte(ts', d, w) == Pte(ts, d, w);
    }
  }

  lemma DetachClean(ts: Tables, ts': Tables, role: map<nat, Role>, d: nat, slots: seq<Slot>, i: nat)
    requires Clean(ts, d, slots) && d in role && role[d].Dir? && i < |slots| && slots[i].Attached?
    requires Erased(ts, ts', role, d, slots[i].va / PGSIZE, slots[i].size)
    ensures Clean(ts', d, slots[i := Empty])
  {
    hide Pte;
    hide Pde;
    forall w | USERPAGES <= w < KERNPAGE && Pte(ts', d, w).present
      ensures Covered(slots[i := Empty], w)
    {
      assert Pte(ts, d, w).present;
      var j :| 0 <= j < |slots| && InPages(slots[j], w);
      assert slots[i := Empty][j] == slots[j];
    }
  }

  /** Boot, and a process in a space fresh from setupkvm, before any shared memory is
      in use. As in main, kpgdir is built between kinit1 and kinit2. */
  method FirstProcess(kdata: nat) returns (shm: Shm)
    requires LINKPAGE < kdata < STOPPAGE
    ensures fresh(shm) && fresh(shm.vm) && shm.Valid() && Clean(shm.vm.tables, shm.d, shm.slots)
    ensures forall i :: 0 <= i < |shm.slots| ==> shm.slots[i].Empty?
    ensures |shm.regions| == SHAREDREGIONS && forall r :: 0 <= r < |shm.regions| ==> shm.regions[r].Unused?
    ensures |shm.vm.freelist| > SHAREDREGIONS
  {
    hide Owned;
    hide KernelPart;
    hide Clean;
    hide Pte;
    hide Extends;
    hide Freed;
    hide Down;
    var vm := new Vm(0x200000, 0x400000, 0xE000000);
    ghost var role := vm.role;
    var kpgdir := vm.Setupkvm(kdata);
    KernelKeeps(role, vm.role, kpgdir.value);
    vm.Freerange(0x400000, 0xE000000);
    var space := vm.Setupkvm(kdata);
    shm := new Shm(vm, space.value, seq(SHAREDREGIONS, _ => Unused));
    FreshClean(vm.tables, space.value, kdata, shm.slots);
  }

  /** Making an address space takes no page that the kernel holds. */
  lemma KernelKeeps(role: map<nat, Role>, role': map<nat, Role>, d: nat)
    requires d in role && role[d].Free? && Extends(role[d := Dir], role', d, 0, 0)
    ensures forall f :: f in role && role[f].Held? ==> f in role' && role'[f].Held?
  {
    forall f | f in role
      ensures f in role'
    {
      assert f in role[d := Dir].Keys;
    }
  }

  lemma NoPages(ts: Tables, freelist: seq<nat>, d: nat, w: nat)
    ensures OutOfMemory(ts, freelist, d, w) ==> freelist == []
  {
  }

  lemma ChosenFree(slots: seq<Slot>, n: nat, shmaddr: nat, rnd: bool, va: nat)
    requires Chosen(slots, n, shmaddr, rnd, va)
    ensures shmaddr == 0 ==> !Blocked(slots, va, n)
  {
  }

  lemma NothingAttached(slots: seq<Slot>, va: nat, n: nat)
    requires forall i :: 0 <= i < |slots| ==> slots[i].Empty?
    ensures !Inside(slots, va) && !Blocked(slots, va, n) && Cleared(slots, va, n) == slots
  {
  }

  lemma NextPageAttached(slots: seq<Slot>, i: nat, va: nat, shmid: nat, perm: nat)
    requires i < |slots| && slots[i] == Attached(shmid, va + PGSIZE, 1, perm)
    requires forall j :: 0 <= j < |slots| && j != i ==> slots[j].Empty?
    ensures !Inside(slots, va) && Blocked(slots, va, 2)
  {
    assert Overlaps(slots[i], va, 2);
  }

  /** shmget twice: a region of one page and a region of two. */
  method TwoRegions(kdata: nat) returns (shm: Shm, one: nat, two: nat)
    requires LINKPAGE < kdata < STOPPAGE
    ensures fresh(shm) && fresh(shm.vm) && shm.Valid() && Clean(shm.vm.tables, shm.d, shm.slots)
            && shm.vm.freelist != []
    ensures |shm.slots| > 0 && forall i :: 0 <= i < |shm.slots| ==> shm.slots[i] == Empty
    ensures one < SHAREDREGIONS && two < SHAREDREGIONS && |shm.regions| == SHAREDREGIONS
    ensures shm.regions[one].Region? && shm.regions[one].mode == RW_SHM && |shm.regions[one].frames| == 1
    ensures shm.regions[two].Region? && shm.regions[two].mode == RW_SHM && |shm.regions[two].frames| == 2
    ensures |shm.vm.freelist| > 2
  {
    hide Owned;
    hide Sound;
    hide RegionsOk;
    hide AllBacked;
    hide Tallied;
    hide FramesOwned;
    hide HeldNow;
    hide Clean;
    hide Zeroed;
    shm := FirstProcess(kdata);
    SlotCount(shm.slots);
    assert shm.regions[0] == Unused;
    var r := shm.Shmget(1, 1, IPC_CREAT + RW_SHM);
    assert shm.regions[if r == 0 then 1 else 0] == Unused;
    one := r;
    r := shm.Shmget(2, PGSIZE, IPC_CREAT + RW_SHM);
    two := r;
  }

  /** The panic "remap" can be reached: a process with one page attached at
      HEAPLIMIT + PGSIZE attaches two pages at HEAPLIMIT, asking for SHM_REMAP. */
  method RemapPanics(kdata: nat) returns (r: Attach)
    requires LINKPAGE < kdata < STOPPAGE
    ensures r.Panic?
  {
    hide Owned;
    hide Sound;
    hide RegionsOk;
    hide AllBacked;
    hide Tallied;
    hide FramesOwned;
    hide Balanced;
    hide Extends;
    hide Attaching;
    hide Collides;
    hide Inside;
    hide Blocked;
    hide Cleared;
    hide Clean;
    hide Pte;
    hide Pde;
    var shm, one, two := TwoRegions(kdata);
    ghost var regions, slots := shm.regions, shm.slots;
    NothingAttached(slots, HEAPLIMIT + PGSIZE, 1);
    assert slots[0] in slots;
    var first, va, k, slot := shm.Shmat(one, HEAPLIMIT + PGSIZE, false, false, false);
    SameRegion(regions, slots, shm.regions, shm.slots, two);
    NextPageAttached(shm.slots, slot, HEAPLIMIT, one, PTE_W + PTE_U);
    r, va, k, slot := shm.Shmat(two, HEAPLIMIT, false, true, false);
  }

  /** The frames, free before, are now held; no other page has changed hands. */
  ghost predicate HeldNow(role: map<nat, Role>, role': map<nat, Role>, frames: seq<nat>) {
    && (forall i, j :: 0 <= i < j < |frames| ==> frames[i] != frames[j])
    && (forall f :: f in frames ==> f in role && role[f].Free?)
    && role'.Keys == role.Keys && (forall f :: f in role ==> role'[f] == if f in frames then Held else role[f])
  }

  ghost predicate Zeroed(data: map<nat, Page>, frames: seq<nat>) {
    forall k :: 0 <= k < |frames| ==> PageOf(data, frames[k]) == ZeroPage()
  }

  lemma HeldOneMore(role0: map<nat, Role>, role: map<nat, Role>, frames: seq<nat>, f: nat)
    requires HeldNow(role0, role, frames) && f in role && role[f].Free?
    ensures HeldNow(role0, role[f := Held], frames + [f])
  {
    assert f in role0.Keys;
  }

  /** The flags other than the permission. */
  function FlagsOf(shmflag: nat): nat {
    if shmflag % 8 == READ_SHM || shmflag % 8 == RW_SHM then shmflag - shmflag % 8 else shmflag
  }

  predicate GetOk(key: nat, size: nat, shmflag: nat) {
    && (shmflag % 8 == READ_SHM || shmflag % 8 == RW_SHM || (shmflag == 0 && key != IPC_PRIVATE))
    && size > 0 && size / PGSIZE + 1 <= SHAREDREGIONS
  }

  ghost predicate KeyInUse(regions: seq<Region>, key: nat) {
    exists i :: 0 <= i < |regions| && regions[i].Region? && regions[i].key == key
  }

  /** An existing region may be returned. */
  predicate Fits(r: Region, key: nat, pages: nat, rest: nat)
    requires r.Region?
  {
    && |r.frames| == pages && (r.mode == READ_SHM || r.mode == RW_SHM)
    && ((rest == 0 && key != IPC_PRIVATE) || rest == IPC_CREAT)
  }

  /** A new region in the first unused place, with pages of its own; or no region. */
  ghost predicate Created(regions: seq<Region>, regions': seq<Region>, role: map<nat, Role>, role': map<nat, Role>,
                          key: nat, mode: nat, pages: nat, r: int) {
    if r == -1 then regions' == regions
    else
      && 0 <= r < |regions| == |regions'| && regions[r].Unused? && Unused !in regions[..r]
      && regions'[r].Region? && |regions'[r].frames| == pages && HeldNow(role, role', regions'[r].frames)
      && regions' == regions[r := Region(key, mode, regions'[r].frames, 0)]
  }

  lemma CreatedSame(regions: seq<Region>, regions': seq<Region>, role: map<nat, Role>, role': map<nat, Role>,
                    key: nat, mode: nat, pages: nat, r: int)
    requires Created(regions, regions', role, role', key, mode, pages, r)
    ensures r != -1 ==>
              0 <= r < |regions'| && regions'[r].Region? && regions'[r].key == key && |regions'[r].frames| == pages
                && regions'[r].mode == mode && regions'[r].nattch == 0
    ensures r == -1 ==> regions' == regions
  {
  }

  /** Pages taken from the free list are in no region. */
  lemma TakenOwned(role: map<nat, Role>, role': map<nat, Role>, regions: seq<Region>, frames: seq<nat>)
    requires FramesOwned(role, regions) && HeldNow(role, role', frames)
    ensures FramesOwned(role', regions)
    ensures forall f :: f in frames ==> f in role' && role'[f].Held?
    ensures forall i, j :: 0 <= i < j < |frames| ==> frames[i] != frames[j]
    ensures forall f :: f in role && !role[f].Free? ==> f in role' && role'[f] == role[f]
    ensures forall r, k :: IsFrame(regions, r, k) ==> FrameOf(regions, r, k) !in frames
  {
    forall f | f in role
      ensures f in role'
    {
      assert f in role.Keys;
    }
    forall r, k | IsFrame(regions, r, k)
      ensures FrameOf(regions, r, k) in role' && role'[FrameOf(regions, r, k)].Held?
              && FrameOf(regions, r, k) !in frames
    {
      assert FrameOf(regions, r, k) in role.Keys;
    }
  }

  lemma {:induction false} CountZero(slots: seq<Slot>, r: int)
    requires forall i :: 0 <= i < |slots| ==> !Shows(slots[i], r)
    ensures Count(slots, r) == 0
  {
    if slots != [] {
      CountZero(slots[1..], r);
    }
  }

  /** An unused region that is filled in is shown by no slot. */
  lemma NewRegion(ts: Tables, d: nat, role: map<nat, Role>, regions: seq<Region>, slots: seq<Slot>, k: nat,
                  region: Region)
    requires AllBacked(ts, d, regions, slots) && Tallied(regions, slots) && FramesOwned(role, regions)
             && RegionsOk(regions)
    requires k < |regions| && regions[k].Unused? && region.Region? && 1 <= |region.frames| <= SHAREDREGIONS
    requires region.key != NOKEY && forall i :: 0 <= i < |regions| ==> KeyOf(regions[i]) != region.key
    requires forall i, j :: 0 <= i < j < |region.frames| ==> region.frames[i] != region.frames[j]
    requires forall f :: f in region.frames ==> f in role && role[f].Held?
    requires forall r, i :: IsFrame(regions, r, i) ==> FrameOf(regions, r, i) !in region.frames
    ensures var after := regions[k := region];
            AllBacked(ts, d, after, slots) && Tallied(after, slots) && FramesOwned(role, after) && RegionsOk(after)
  {
    hide Pte;
    hide Count;
    var after := regions[k := region];
    forall i | 0 <= i < |slots|
      ensures Backed(ts, d, after, slots[i]) && !Shows(slots[i], k)
    {
      assert Backed(ts, d, regions, slots[i]);
    }
    CountZero(slots, k);
    NewFrames(role, regions, k, region);
  }

  lemma NewFrames(role: map<nat, Role>, regions: seq<Region>, k: nat, region: Region)
    requires FramesOwned(role, regions) && k < |regions| && regions[k].Unused? && region.Region?
    requires forall i, j :: 0 <= i < j < |region.frames| ==> region.frames[i] != region.frames[j]
    requires forall f :: f in region.frames ==> f in role && role[f].Held?
    requires forall r, i :: IsFrame(regions, r, i) ==> FrameOf(regions, r, i) !in region.frames
    ensures FramesOwned(role, regions[k := region])
  {
    var after := regions[k := region];
    forall r, i | IsFrame(after, r, i)
      ensures if r == k then FrameOf(after, r, i) in region.frames
              else IsFrame(regions, r, i) && FrameOf(after, r, i) == FrameOf(regions, r, i)
    {
      assert r == k ==> FrameOf(after, r, i) == region.frames[i];
    }
    forall r, i, r2, i2 | IsFrame(after, r, i) && IsFrame(after, r2, i2)
           && FrameOf(after, r, i) == FrameOf(after, r2, i2)
      ensures r == r2 && i == i2
    {
      if r == k && r2 == k {
        assert region.frames[i] == region.frames[i2];
      }
    }
  }

  lemma CollidesWitness(ts: Tables, d: nat, slots: seq<Slot>, va: nat, n: nat, evict: bool, w: nat)
    requires va / PGSIZE <= w < va / PGSIZE + n && Pte(ts, d, w).present && !(evict && Covered(slots, w))
    ensures Collides(ts, d, slots, va, n, evict)
  {
    hide Pte;
    hide Covered;
  }

  lemma SameRegion(regions: seq<Region>, slots: seq<Slot>, regions': seq<Region>, slots': seq<Slot>, r: nat)
    requires Balanced(regions, slots, regions', slots') && r < |regions| && regions[r].Region?
    ensures r < |regions'| && regions'[r].Region? && regions'[r].frames == regions[r].frames
            && regions'[r].mode == regions[r].mode
  {
    hide Count;
  }

  lemma WasAbsent(ts: Tables, ts': Tables, role: map<nat, Role>, d: nat, first: nat, k: nat, frames: seq<nat>,
                  perm: nat)
    requires k <= |frames| && Laid(ts, ts', role, d, first, k, frames, perm)
    ensures forall w :: first <= w < first + k ==> !Pte(ts, d, w).present
  {
    hide Pte;
  }

  lemma FilledBacked(ts: Tables, d: nat, regions: seq<Region>, slots: seq<Slot>, i: nat, s: Slot)
    requires AllBacked(ts, d, regions, slots) && i < |slots| && Backed(ts, d, regions, s)
    ensures AllBacked(ts, d, regions, slots[i := s])
  {
    hide Backed;
  }

  lemma PageAt(va: nat, i: nat)
    requires va % PGSIZE == 0
    ensures (va + i * PGSIZE) / PGSIZE == va / PGSIZE + i && (va + i * PGSIZE + PGSIZE - 1) / PGSIZE == va / PGSIZE + i
    ensures va >= HEAPLIMIT ==> va / PGSIZE >= USERPAGES
  {
  }

  lemma SlotPages(slots: seq<Slot>, i: nat)
    requires Sound(slots) && i < |slots| && slots[i].Attached?
    ensures USERPAGES <= slots[i].va / PGSIZE && slots[i].va / PGSIZE + slots[i].size < KERNPAGE
            && slots[i].va % PGSIZE == 0
  {
    assert Placed(slots[i]);
  }

  lemma SlotBacked(ts: Tables, d: nat, regions: seq<Region>, slots: seq<Slot>, i: nat)
    requires AllBacked(ts, d, regions, slots) && i < |slots| && slots[i].Attached?
    ensures slots[i].shmid < |regions| && regions[slots[i].shmid].Region?
    ensures forall w :: slots[i].va / PGSIZE <= w < slots[i].va / PGSIZE + slots[i].size ==> Pte(ts, d, w).present
  {
    hide Pte;
    assert Backed(ts, d, regions, slots[i]);
  }
}

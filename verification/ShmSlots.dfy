/** The shared-memory attachments of a process (vm.c): an array of slots. */
module ShmSlots {
  import opened Vm

  const SHAREDREGIONS: nat := 64
  const KERNBASE: nat := 0x80000000

  datatype Slot = Empty | Attached(shmid: nat, va: nat, size: nat, perm: nat)

  function End(s: Slot): nat
    requires s.Attached?
  {
    s.va + s.size * PGSIZE
  }

  /** Page-aligned, not empty, and inside HEAPLIMIT..KERNBASE. */
  predicate Placed(s: Slot) {
    s.Attached? ==> s.va % PGSIZE == 0 && HEAPLIMIT <= s.va && 1 <= s.size <= SHAREDREGIONS && End(s) < KERNBASE
  }

  predicate Apart(s: Slot, t: Slot) {
    s.Attached? && t.Attached? ==> End(s) <= t.va || End(t) <= s.va
  }

  /** The recorded attachments are aligned, in range and pairwise disjoint. */
  ghost predicate Sound(slots: seq<Slot>) {
    && |slots| == SHAREDREGIONS
    && (forall i :: 0 <= i < |slots| ==> Placed(slots[i]))
    && (forall i, j :: 0 <= i < j < |slots| ==> Apart(slots[i], slots[j]))
  }

  predicate Overlaps(s: Slot, va: int, size: nat) {
    s.Attached? && s.va < va + size * PGSIZE && va < End(s)
  }

  predicate Holds(s: Slot, va: nat) {
    s.Attached? && s.va <= va < End(s)
  }

  /** Some attachment overlaps the segment of the given size at w. */
  ghost predicate Blocked(slots: seq<Slot>, w: int, size: nat) {
    exists i :: 0 <= i < |slots| && Overlaps(slots[i], w, size)
  }

  /** Attachments that overlap the range and start below `limit` are gone. */
  function Evicted(slots: seq<Slot>, va: nat, size: nat, limit: nat): (after: seq<Slot>)
    ensures |after| == |slots|
  {
    seq(|slots|, i requires 0 <= i < |slots| =>
          if Overlaps(slots[i], va, size) && slots[i].va < limit then Empty else slots[i])
  }

  lemma PairApart(slots: seq<Slot>, i: nat, j: nat)
    requires Sound(slots) && i < |slots| && j < |slots| && i != j
    ensures Apart(slots[i], slots[j])
  {
    if i < j {
      assert Apart(slots[i], slots[j]);
    } else {
      assert Apart(slots[j], slots[i]);
    }
  }

  /** Emptying slots, and filling one where nothing overlaps, keeps them sound. */
  lemma EmptiedSound(slots: seq<Slot>, i: nat)
    requires Sound(slots) && i < |slots|
    ensures Sound(slots[i := Empty])
  {
    var after := slots[i := Empty];
    forall j, k | 0 <= j < k < |after|
      ensures Apart(after[j], after[k])
    {
      assert Apart(slots[j], slots[k]);
    }
  }

  lemma FilledSound(slots: seq<Slot>, i: nat, s: Slot)
    requires Sound(slots) && i < |slots| && s.Attached? && Placed(s) && !Blocked(slots, s.va, s.size)
    ensures Sound(slots[i := s])
  {
    var after := slots[i := s];
    forall j, k | 0 <= j < k < |after|
      ensures Apart(after[j], after[k])
    {
      assert Apart(slots[j], slots[k]);
      assert !Overlaps(slots[j], s.va, s.size) && !Overlaps(slots[k], s.va, s.size);
    }
  }

  /** The attachment with the least start at or above curr. */
  method GetLeastvaidx(slots: seq<Slot>, curr: nat) returns (idx: int)
    requires Sound(slots)
    ensures -1 <= idx < |slots|
    ensures idx == -1 <==> forall i :: 0 <= i < |slots| && slots[i].Attached? ==> slots[i].va < curr
    ensures idx >= 0 ==> slots[idx].Attached? && slots[idx].va >= curr
    ensures idx >= 0 ==> forall i :: 0 <= i < |slots| && slots[i].Attached? && slots[i].va >= curr ==>
              slots[idx].va <= slots[i].va
  {
    var least := KERNBASE - 1;
    idx := -1;
    var i := 0;
    while i < SHAREDREGIONS
      invariant 0 <= i <= SHAREDREGIONS && -1 <= idx < i
      invariant idx == -1 ==> least == KERNBASE - 1
      invariant idx >= 0 ==> slots[idx].Attached? && slots[idx].va == least && least >= curr
      invariant idx == -1 ==> forall j :: 0 <= j < i && slots[j].Attached? ==> slots[j].va < curr
      invariant forall j :: 0 <= j < i && slots[j].Attached? && slots[j].va >= curr ==> least <= slots[j].va
    {
      assert Placed(slots[i]);
      if slots[i].Attached? && slots[i].va >= curr && least >= slots[i].va {
        least := slots[i].va;
        idx := i;
      }
      i := i + 1;
    }
  }

  // ---------------------------------------------------------------- first fit

  /** Every address from HEAPLIMIT below va is blocked, no attachment straddles va. */
  ghost predicate Searched(slots: seq<Slot>, size: nat, va: nat) {
    && va % PGSIZE == 0 && HEAPLIMIT <= va
    && (forall i :: 0 <= i < |slots| && slots[i].Attached? && slots[i].va < va ==> End(slots[i]) <= va)
    && (forall w: int :: HEAPLIMIT <= w < va ==> Blocked(slots, w, size))
  }

  lemma SearchStart(slots: seq<Slot>, size: nat)
    requires Sound(slots)
    ensures Searched(slots, size, HEAPLIMIT)
  {
    forall i | 0 <= i < |slots| && slots[i].Attached?
      ensures HEAPLIMIT <= slots[i].va
    {
      assert Placed(slots[i]);
    }
  }

  /** The next attachment leaves too small a gap: the search moves past it. */
  lemma SearchStep(slots: seq<Slot>, size: nat, va: nat, k: nat)
    requires Sound(slots) && Searched(slots, size, va) && k < |slots| && slots[k].Attached? && slots[k].va >= va
    requires forall i :: 0 <= i < |slots| && slots[i].Attached? && slots[i].va >= va ==> slots[k].va <= slots[i].va
    requires va + size * PGSIZE > slots[k].va
    ensures Searched(slots, size, End(slots[k]))
  {
    assert Placed(slots[k]);
    var next := End(slots[k]);
    forall i | 0 <= i < |slots| && slots[i].Attached? && slots[i].va < next
      ensures End(slots[i]) <= next
    {
      if i != k {
        PairApart(slots, i, k);
      }
    }
    forall w: int | HEAPLIMIT <= w < next
      ensures Blocked(slots, w, size)
    {
      if w >= va {
        assert Overlaps(slots[k], w, size);
      }
    }
  }

  lemma SearchDone(slots: seq<Slot>, size: nat, va: nat)
    requires Sound(slots) && Searched(slots, size, va)
    requires forall i :: 0 <= i < |slots| && slots[i].Attached? && slots[i].va >= va ==>
               va + size * PGSIZE <= slots[i].va
    ensures !Blocked(slots, va, size)
  {
    forall i | 0 <= i < |slots|
      ensures !Overlaps(slots[i], va, size)
    {
    }
  }

  ghost predicate Passed(slots: seq<Slot>, seen: set<int>, va: nat) {
    forall i :: i in seen ==> 0 <= i < |slots| && slots[i].Attached? && slots[i].va < va
  }

  lemma {:induction false} AllSeen(seen: set<int>, n: nat)
    requires forall i :: i in seen ==> 0 <= i < n
    ensures |seen| <= n
    ensures |seen| == n ==> forall i :: 0 <= i < n ==> i in seen
  {
    if n == 0 {
      assert forall i :: i in seen ==> i in {};
      assert seen <= {};
    } else {
      var fewer := seen - {n - 1};
      assert n - 1 in seen ==> seen == fewer + {n - 1};
      assert n - 1 !in seen ==> seen == fewer;
      AllSeen(fewer, n - 1);
    }
  }

  /** The address shmat chooses by itself: the lowest one from HEAPLIMIT on where the
      segment overlaps no attachment. */
  method FirstFit(slots: seq<Slot>, size: nat) returns (va: nat)
    requires Sound(slots)
    ensures va % PGSIZE == 0 && HEAPLIMIT <= va && !Blocked(slots, va, size)
    ensures forall w: int :: HEAPLIMIT <= w < va ==> Blocked(slots, w, size)
  {
    hide Sound;
    hide Blocked;
    va := HEAPLIMIT;
    ghost var seen: set<int> := {};
    SearchStart(slots, size);
    var i := 0;
    while i < SHAREDREGIONS
      invariant 0 <= i <= SHAREDREGIONS && Searched(slots, size, va) && Passed(slots, seen, va) && |seen| == i
    {
      var idx := GetLeastvaidx(slots, va);
      if idx == -1 {
        SearchDone(slots, size, va);
        return;
      }
      var least := slots[idx].va;
      if va + size * PGSIZE <= least {
        SearchDone(slots, size, va);
        return;
      }
      SearchStep(slots, size, va, idx);
      NonEmpty(slots, idx);
      va := least + slots[idx].size * PGSIZE;
      seen := seen + {idx};
      i := i + 1;
    }
    SlotCount(slots);
    AllSeen(seen, |slots|);
    SearchDone(slots, size, va);
  }

  lemma NonEmpty(slots: seq<Slot>, i: nat)
    requires Sound(slots) && i < |slots| && slots[i].Attached?
    ensures slots[i].size > 0 && End(slots[i]) < KERNBASE
  {
    assert Placed(slots[i]);
  }

  lemma SlotCount(slots: seq<Slot>)
    requires Sound(slots)
    ensures |slots| == SHAREDREGIONS
  {
  }

  // ----------------------------------------------------------------- eviction

  lemma EvictStart(slots: seq<Slot>, va: nat, size: nat, k: nat)
    requires Sound(slots) && k < |slots| && Holds(slots[k], va)
    ensures Evicted(slots, va, size, slots[k].va) == slots
  {
    forall i | 0 <= i < |slots|
      ensures Evicted(slots, va, size, slots[k].va)[i] == slots[i]
    {
      if i != k {
        PairApart(slots, i, k);
      }
    }
  }

  /** Detaching the lowest overlapping attachment left evicts up to its end. */
  lemma EvictNext(slots: seq<Slot>, va: nat, size: nat, k: nat)
    requires Sound(slots) && k < |slots| && Overlaps(slots[k], va, size)
    ensures var now := Evicted(slots, va, size, slots[k].va);
            now[k] == slots[k] && now[k := Empty] == Evicted(slots, va, size, End(slots[k]))
  {
    NonEmpty(slots, k);
    var now, next := Evicted(slots, va, size, slots[k].va)[k := Empty], Evicted(slots, va, size, End(slots[k]));
    forall i | 0 <= i < |slots|
      ensures now[i] == next[i]
    {
      if i != k {
        PairApart(slots, i, k);
        if slots[i].Attached? {
          NonEmpty(slots, i);
        }
      }
    }
  }

  /** Nothing that remains starts between the two limits. */
  lemma EvictSkip(slots: seq<Slot>, va: nat, size: nat, low: nat, high: nat)
    requires low <= high
    requires var now := Evicted(slots, va, size, low);
             forall i :: 0 <= i < |now| && now[i].Attached? && now[i].va >= low ==>
                      now[i].va >= high || now[i].va >= va + size * PGSIZE
    ensures Evicted(slots, va, size, low) == Evicted(slots, va, size, high)
  {
    var now := Evicted(slots, va, size, low);
    forall i | 0 <= i < |slots|
      ensures now[i] == Evicted(slots, va, size, high)[i]
    {
    }
  }

  lemma EvictedFrom(slots: seq<Slot>, va: nat, size: nat, limit: nat, i: nat)
    requires i < |slots| && Evicted(slots, va, size, limit)[i].Attached?
    ensures Evicted(slots, va, size, limit)[i] == slots[i]
  {
  }

  /** No attachment that overlaps the range starts past its end. */
  lemma EvictBeyond(slots: seq<Slot>, va: nat, size: nat, limit: nat)
    requires Sound(slots) && limit >= va + size * PGSIZE
    ensures Evicted(slots, va, size, limit) == Evicted(slots, va, size, KERNBASE)
  {
    forall i | 0 <= i < |slots|
      ensures Evicted(slots, va, size, limit)[i] == Evicted(slots, va, size, KERNBASE)[i]
    {
      assert Placed(slots[i]);
    }
  }

  lemma SameStart(slots: seq<Slot>, i: nat, j: nat)
    requires Sound(slots) && i < |slots| && j < |slots| && slots[i].Attached? && slots[j].Attached?
             && slots[i].va == slots[j].va
    ensures i == j
  {
    NonEmpty(slots, i);
    NonEmpty(slots, j);
    if i != j {
      PairApart(slots, i, j);
    }
  }
}

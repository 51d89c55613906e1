/** The user-level allocator (umalloc.c): Kernighan and Ritchie's first-fit
    list, section 8.7 of The C Programming Language, 2nd edition. Addresses and
    sizes are in headers. What sbrk returns is a parameter. */
module Heap {
  import opened Options
  import opened FreeList

  const HEADER: nat := 8

  /** nunits: the data rounded up to headers, and one header. */
  function Units(nbytes: nat): (r: nat)
    ensures r > 0 && nbytes <= (r - 1) * HEADER < nbytes + HEADER
  {
    (nbytes + HEADER - 1) / HEADER + 1
  }

  /** What morecore asks sbrk for. */
  function CoreUnits(nu: nat): (r: nat)
    ensures r >= nu && r >= 4096 && (r == nu || r == 4096)
  {
    if nu < 4096 then 4096 else nu
  }

  /** Unit u is one of the data units of live block a, of no other live block and
      of no free block, and it is not a header of the free list. */
  ghost predicate OwnUnit(m: Memory, fl: seq<int>, live: map<int, nat>, a: int, u: int) {
    && a in live && a < u < a + live[a]
    && u !in fl && !IsFree(m, fl, u)
    && forall b :: b in live && b != a ==> !(b <= u < b + live[b])
  }

  /** Byte j behind the header of block a lies in a unit of that block alone. */
  ghost predicate OwnByte(m: Memory, fl: seq<int>, live: map<int, nat>, a: int, j: nat) {
    OwnUnit(m, fl, live, a, a + 1 + j / HEADER)
  }

  ghost predicate OwnBytes(m: Memory, fl: seq<int>, live: map<int, nat>, a: int, n: nat) {
    forall j :: 0 <= j < n ==> OwnByte(m, fl, live, a, j)
  }

  /** The data units of a live block are its own. */
  lemma LiveOwnsUnit(m: Memory, fl: seq<int>, base: int, live: map<int, nat>, core: set<int>, a: int, u: int)
    requires Ring(m, fl, base) && Partition(m, fl, base, live, core) && a in live && a < u < a + live[a]
    ensures OwnUnit(m, fl, live, a, u)
  {
    hide IsFree;
    assert Covers(m, a, u);
    forall i | 0 <= i < |fl|
      ensures fl[i] != u
    {
      if 0 < i && Covers(m, fl[i], u) { FreeAt(m, fl, i, u); }
    }
    forall b | b in live && b != a
      ensures !(b <= u < b + live[b])
    {
      assert b <= u < b + live[b] ==> Covers(m, b, u);
    }
  }

  /** Malloc's bytes are the caller's alone. */
  lemma LiveOwnsBytes(m: Memory, fl: seq<int>, base: int, live: map<int, nat>, core: set<int>, a: int, nbytes: nat)
    requires Ring(m, fl, base) && Partition(m, fl, base, live, core) && a in live && nbytes <= (live[a] - 1) * HEADER
    ensures OwnBytes(m, fl, live, a, nbytes)
  {
    forall j: nat | j < nbytes
      ensures OwnByte(m, fl, live, a, j)
    {
      assert j / HEADER < live[a] - 1;
      LiveOwnsUnit(m, fl, base, live, core, a, a + 1 + j / HEADER);
    }
  }

  ghost function Extent(a: int, n: nat): (r: set<int>)
    ensures forall u :: u in r <==> a <= u < a + n
  {
    if n == 0 then {} else Extent(a, n - 1) + {a + n - 1}
  }

  /** One free block holds all n units from a on. */
  ghost predicate Holds(m: Memory, fl: seq<int>, a: int, n: nat) {
    exists i :: 0 <= i < |fl| && fl[i] in m && fl[i] <= a && a + n <= fl[i] + m[fl[i]].size
  }

  /** The memory and the list after free has linked bp in behind block k. */
  ghost predicate Freed(m: Memory, fl: seq<int>, base: int, m': Memory, fl': seq<int>, k: nat, bp: int) {
    && Ring(m', fl', base) && k < |fl| && bp in m && fl[k] in fl'
    && (forall a :: a in m && a != bp && a != fl[k] ==> a in m' && m'[a] == m[a])
    && (forall u :: IsFree(m', fl', u) <==> IsFree(m, fl, u) || Covers(m, bp, u))
    && Holds(m', fl', bp, m[bp].size)
  }

  lemma FreeSteps(m: Memory, fl: seq<int>, base: int, k: nat, bp: int)
    requires Ring(m, fl, base) && InGap(m, fl, base, k, bp)
    ensures var next := fl[Next(|fl|, k)];
            && next in m && fl[k] in m
            && var m1 := JoinAbove(m, bp, next);
               && fl[k] in m1
               && DropAbove(m, fl, k, bp)[..k + 1] == fl[..k + 1]
               && Freed(m, fl, base, JoinBelow(m1, fl[k], bp), Linked(m1, DropAbove(m, fl, k, bp), k, bp), k, bp)
  {
    hide Ring;
    hide Open;
    hide Blocks;
    hide IsFree;
    JoinAboveOpens(m, fl, base, k, bp);
    var next := fl[Next(|fl|, k)];
    var m1, fl1 := JoinAbove(m, bp, next), DropAbove(m, fl, k, bp);
    OpenFacts(m1, fl1, base, k, bp);
    assert fl1[..k + 1] == fl[..k + 1];
    assert fl1[k] == fl[..k + 1][k] == fl[k];
    var m2, fl2 := JoinBelow(m1, fl[k], bp), Linked(m1, fl1, k, bp);
    if fl1[k] + m1[fl1[k]].size == bp {
      JoinBelowMerges(m1, fl1, base, k, bp);
      assert fl2[k] == fl[k];
    } else {
      JoinBelowLinks(m1, fl1, base, k, bp);
      assert fl2[k] == fl[k] && fl2[k + 1] == bp;
    }
    forall u
      ensures IsFree(m2, fl2, u) <==> IsFree(m, fl, u) || Covers(m, bp, u)
    {
      AboveUnits(m, fl, base, k, bp, u);
      BelowUnits(m1, fl1, base, k, bp, u);
    }
  }

  lemma OpenFacts(m: Memory, fl: seq<int>, base: int, k: nat, bp: int)
    requires Open(m, fl, base, k, bp)
    ensures k < |fl| && fl[k] in m && bp in m && fl[k] < bp
  {
  }

  /** free's search stops at p: either bp is between p and its successor, or p is
      the last block before the ring wraps and bp is beyond an end. */
  predicate Stop(m: Memory, p: int, bp: int) {
    p in m && ((bp > p && bp < m[p].ptr) || (p >= m[p].ptr && (bp > p || bp < m[p].ptr)))
  }

  /** k is the last block below bp. */
  ghost predicate IsGap(fl: seq<int>, k: nat, bp: int) {
    k < |fl| && fl[k] < bp && (k + 1 < |fl| ==> bp < fl[k + 1])
  }

  lemma {:induction false} FindGap(m: Memory, fl: seq<int>, n: nat, bp: int) returns (k: nat)
    requires Apart(m, fl) && 0 < n <= |fl| && fl[0] < bp && bp !in fl
    ensures k < n && fl[k] < bp && (k + 1 < n ==> bp < fl[k + 1])
  {
    if n == 1 || fl[n - 1] < bp {
      k := n - 1;
    } else {
      k := FindGap(m, fl, n - 1, bp);
    }
  }

  /** The block before the gap is the last one below bp. */
  lemma GapIsLast(m: Memory, fl: seq<int>, base: int, k: nat, bp: int)
    requires Ring(m, fl, base) && IsGap(fl, k, bp)
    ensures fl[k] in fl && fl[k] < bp && forall x :: x in fl && x < bp ==> x <= fl[k]
  {
    forall i | 0 <= i < |fl| && fl[i] < bp
      ensures fl[i] <= fl[k]
    {
      if i < k {
        InOrder(m, fl, base, i, k);
      }
    }
  }

  /** The search passes every other block and stops at the gap. */
  lemma StopsAtGap(m: Memory, fl: seq<int>, base: int, i: nat, k: nat, bp: int)
    requires Ring(m, fl, base) && base < bp && IsGap(fl, k, bp) && i < |fl| && bp !in fl
    ensures fl[i] in m && m[fl[i]].ptr == fl[Next(|fl|, i)]
    ensures Stop(m, fl[i], bp) <==> i == k
  {
    assert LinkAt(m, fl, i);
    if i < k {
      assert Before(m, fl[i], fl[i + 1]);
      if i + 1 < k { assert Before(m, fl[i + 1], fl[k]); }
    } else if i > k {
      assert i == k + 1 || Before(m, fl[k + 1], fl[i]);
      if i + 1 < |fl| { assert Before(m, fl[i], fl[i + 1]); }
    } else if i + 1 < |fl| {
      assert Before(m, fl[i], fl[i + 1]);
    } else if 0 < i {
      assert Before(m, fl[0], fl[i]);
    }
  }

  class Heap {
    const base: int
    var mem: Memory
    var freep: int                  // 0 before the first malloc
    ghost var fl: seq<int>          // the free list, from base
    ghost var live: map<int, nat>   // blocks handed out, with their sizes
    ghost var core: set<int>        // every unit obtained from sbrk

    ghost predicate Started()
      reads this
    {
      Ring(mem, fl, base) && freep in fl && Partition(mem, fl, base, live, core)
    }

    ghost predicate Valid()
      reads this
    {
      0 < base && if freep == 0 then live == map[] && core == {} else Started()
    }

    constructor (b: int)
      requires 0 < b
      ensures Valid() && base == b && live == map[] && core == {}
    {
      base, mem, freep, fl, live, core := b, map[], 0, [], map[], {};
    }

    /** free's search, from freep round the ring to the gap. */
    method Search(bp: int, ghost k: nat) returns (p: int)
      requires Ring(mem, fl, base) && freep in fl && base < bp && IsGap(fl, k, bp) && bp !in fl
      ensures p == fl[k]
    {
      p := freep;
      ghost var i :| 0 <= i < |fl| && fl[i] == freep;
      hide Ring;
      StopsAtGap(mem, fl, base, i, k, bp);
      while !(bp > p && bp < mem[p].ptr)
        invariant 0 <= i < |fl| && p == fl[i] && p in mem
        invariant mem[p].ptr == fl[Next(|fl|, i)] && (Stop(mem, p, bp) <==> i == k)
        decreases if i <= k then k - i else |fl| - i + k
      {
        if p >= mem[p].ptr && (bp > p || bp < mem[p].ptr) { break; }
        p := mem[p].ptr;
        i := Next(|fl|, i);
        StopsAtGap(mem, fl, base, i, k, bp);
      }
    }

    /** free of a live block: it becomes free, everything else stays. */
    method Free(ap: int)
      requires Valid() && ap - 1 in live
      modifies this
      ensures Valid() && freep != 0 && live == old(live) - {ap - 1} && core == old(core)
      ensures ap - 1 in old(live) && Holds(mem, fl, ap - 1, old(live)[ap - 1])
      ensures freep in old(fl) && freep < ap - 1 && forall x :: x in old(fl) && x < ap - 1 ==> x <= freep
    {
      hide Ring;
      hide Partition;
      hide JoinAbove;
      hide JoinBelow;
      var bp := ap - 1;
      PartitionFacts(mem, fl, base, live, core, bp);
      ghost var k := FindGapIn(mem, fl, base, bp);
      LiveInGap(mem, fl, base, live, core, k, bp);
      GapIsLast(mem, fl, base, k, bp);
      FreeSteps(mem, fl, base, k, bp);
      ghost var m0, fl0 := mem, fl;
      var p := Search(bp, k);
      SuccessorOf(mem, fl, base, k);
      Link(p, bp);
      fl := Linked(JoinAbove(m0, bp, m0[p].ptr), DropAbove(m0, fl0, k, bp), k, bp);
      freep := p;
      StillLive(m0, fl0, base, live, core, mem, k, bp);
      FreePartition(m0, fl0, base, live, core, mem, fl, bp);
      live := live - {bp};
    }

    /** morecore: a new block from sbrk, freed into the list. None is sbrk's
        failure. */
    method Morecore(nu: nat, brk: Option<int>) returns (p: int)
      requires Valid() && freep != 0 && nu > 0 && SbrkOk(base, core, brk, CoreUnits(nu))
      modifies this
      ensures Valid() && freep != 0 && live == old(live)
      ensures p == 0 <==> brk.None?
      ensures brk.None? ==> mem == old(mem) && fl == old(fl) && freep == old(freep) && core == old(core)
      ensures brk.Some? ==>
                p == freep && core == old(core) + Extent(brk.value, CoreUnits(nu))
                  && Holds(mem, fl, brk.value, CoreUnits(nu))
    {
      hide Ring;
      hide Partition;
      var n := if nu < 4096 then 4096 else nu;
      if brk.None? { return 0; }
      var hp := brk.value;
      var h := Header(if hp in mem then mem[hp].ptr else 0, n);
      CoreGrows(mem, fl, base, live, core, hp, h);
      mem := mem[hp := h];
      live := live[hp := n];
      core := core + Extent(hp, n);
      assert (old(live)[hp := n]) - {hp} == old(live);
      Free(hp + 1);
      return freep;
    }

    /** Hand out block r of the list, or its last n units; i precedes r. */
    method Take(prevp: int, p: int, n: nat, ghost r: nat) returns (a: int)
      requires Valid() && freep != 0 && 0 < r < |fl| && fl[r - 1] == prevp && fl[r] == p && 0 < n
      requires prevp in mem && p in mem && mem[p].size >= n
      modifies this
      ensures Valid() && freep == prevp != 0 && a !in old(live) && live == old(live)[a := n] && core == old(core)
      ensures a == p + (old(mem)[p].size - n) && !IsFree(mem, fl, a + n)
    {
      hide Ring;
      hide Partition;
      hide IsFree;
      ghost var m0, fl0 := mem, fl;
      RingFacts(mem, fl, base, r - 1);
      EndNotFree(mem, fl, base, r);
      a := p;
      if mem[p].size == n {
        WholeTaken(mem, fl, base, r);
        mem := mem[prevp := Header(mem[p].ptr, mem[prevp].size)];
        fl := fl[..r] + fl[r + 1..];
      } else {
        a := p + (mem[p].size - n);
        var stale := if a in mem then mem[a].ptr else 0;
        TailTaken(mem, fl, base, r, n, stale);
        mem := mem[p := Header(mem[p].ptr, mem[p].size - n)];
        mem := mem[a := Header(stale, n)];
      }
      freep := prevp;
      TakenLive(m0, fl0, base, live, core, mem, fl, r, a, n);
      live := live[a := n];
    }

    /** malloc's first lines: the empty ring. */
    method Start()
      requires Valid()
      modifies this
      ensures Valid() && freep != 0 && live == old(live) && core == old(core)
      ensures old(freep) != 0 ==> mem == old(mem) && fl == old(fl) && freep == old(freep)
      ensures old(freep) == 0 ==> fl == [base]
    {
      if freep == 0 {
        mem := mem[base := Header(base, 0)];
        freep := base;
        fl := [base];
        EmptyRing(mem, base);
      }
    }

    /** One turn of malloc's loop round the ring, from the block after freep to
        freep itself: the first block of at least n units and its predecessor, or
        none when all are smaller. */
    method Scan(n: nat) returns (found: bool, prevp: int, p: int, ghost r: nat)
      requires Valid() && freep != 0 && 0 < n
      ensures found ==> 0 < r < |fl| && fl[r - 1] == prevp && fl[r] == p && prevp in mem && p in mem && mem[p].size >= n
      ensures found ==> FirstFit(mem, fl, freep, n, r)
      ensures !found ==> NoneFits(mem, fl, n)
    {
      hide Ring;
      hide Partition;
      hide NoneFits;
      ghost var f :| 0 <= f < |fl| && fl[f] == freep;
      ghost var s := 0;
      prevp := freep;
      RingFacts(mem, fl, base, f);
      p := mem[prevp].ptr;
      SeenNothing(mem, fl, f, n);
      r := Rot(|fl|, f, 1);
      while true
        invariant s < |fl| && prevp == fl[Rot(|fl|, f, s)] && r == Rot(|fl|, f, s + 1) && p == fl[r]
        invariant prevp in mem && SeenSmall(mem, fl, f, s, n)
        decreases |fl| - s
      {
        RingFacts(mem, fl, base, r);
        if mem[p].size >= n {
          PredecessorIndex(|fl|, f, s);
          assert FirstFitAt(mem, fl, freep, n, r, f, s);
          return true, prevp, p, r;
        }
        SeenOneMore(mem, fl, f, s, n);
        if p == freep {
          AllSeen(mem, fl, base, f, s, n);
          return false, prevp, p, r;
        }
        RotStep(mem, fl, base, f, s);
        s := s + 1;
        prevp := p;
        p := mem[p].ptr;
        r := Rot(|fl|, f, s + 1);
      }
    }

    lemma StartedOwns(a: int, nbytes: nat)
      requires Valid() && freep != 0 && a in live && nbytes <= (live[a] - 1) * HEADER
      ensures OwnBytes(mem, fl, live, a, nbytes)
    {
      LiveOwnsBytes(mem, fl, base, live, core, a, nbytes);
    }

    /** malloc: first fit from freep on; when the scan comes back to freep in
        vain, morecore and scan on from the new freep, which must succeed. None is
        sbrk's failure, which changes nothing. */
    method Malloc(nbytes: nat, brk: Option<int>) returns (r: Option<int>)
      requires Valid() && SbrkOk(base, core, brk, CoreUnits(Units(nbytes)))
      modifies this
      ensures Valid() && freep != 0
      ensures r.Some? ==> r.value - 1 !in old(live) && live == old(live)[r.value - 1 := Units(nbytes)]
      ensures r.Some? ==>
                && r.value - 1 in live && nbytes <= (live[r.value - 1] - 1) * HEADER < nbytes + HEADER
                && !IsFree(mem, fl, r.value - 1 + live[r.value - 1])
                && OwnBytes(mem, fl, live, r.value - 1, nbytes)
      ensures r.Some? && core == old(core) && old(freep) != 0 ==>
                exists at :: FirstFit(old(mem), old(fl), old(freep), Units(nbytes), at) && 0 < at
                  && freep == old(fl)[at - 1]
                             && r.value - 1 == old(fl)[at] + (old(mem)[old(fl)[at]].size - Units(nbytes))
      ensures r.None? ==> brk.None? && live == old(live) && core == old(core)
      ensures r.None? && old(freep) != 0 ==> mem == old(mem) && fl == old(fl) && freep == old(freep)
      ensures core == old(core) || (brk.Some? && core == old(core) + Extent(brk.value, CoreUnits(Units(nbytes))))
      ensures core != old(core) || r.None? ==> old(freep) != 0 ==> NoneFits(old(mem), old(fl), Units(nbytes))
    {
      hide Started;
      hide OwnBytes;
      hide IsFree;
      hide NoneFits;
      hide FirstFitAt;
      hide Holds;
      hide SbrkOk;
      hide Extent;
      var nunits := (nbytes + HEADER - 1) / HEADER + 1;
      Start();
      ghost var at;
      var found, prevp, p;
      found, prevp, p, at := Scan(nunits);
      if !found {
        var q := Morecore(nunits, brk);
        if q == 0 { return None; }
        CoreLarger(base, old(core), brk.value, CoreUnits(nunits));
        HeldFits(mem, fl, brk.value, CoreUnits(nunits), nunits);
        found, prevp, p, at := Scan(nunits);
      }
      var a := Take(prevp, p, nunits, at);
      StartedOwns(a, nbytes);
      return Some(a + 1);
    }

    /** The two ifs of free. */
    method Link(p: int, bp: int)
      requires p in mem && bp in mem && mem[p].ptr in mem && p != bp
      modifies this`mem
      ensures old(p in mem && bp in mem && mem[p].ptr in mem) && p in JoinAbove(old(mem), bp, old(mem)[p].ptr)
      ensures mem == JoinBelow(JoinAbove(old(mem), bp, old(mem)[p].ptr), p, bp)
    {
      if bp + mem[bp].size == mem[p].ptr {
        mem := mem[bp := Header(mem[mem[p].ptr].ptr, mem[bp].size + mem[mem[p].ptr].size)];
      } else {
        mem := mem[bp := Header(mem[p].ptr, mem[bp].size)];
      }
      if p + mem[p].size == bp {
        mem := mem[p := Header(mem[bp].ptr, mem[p].size + mem[bp].size)];
      } else {
        mem := mem[p := Header(bp, mem[p].size)];
      }
    }
  }

  /** What sbrk is assumed to return: memory above base, not handed out before. */
  ghost predicate SbrkOk(base: int, core: set<int>, brk: Option<int>, n: nat) {
    brk.Some? ==> base < brk.value && Extent(brk.value, n) !! core
  }

  lemma CoreLarger(base: int, core: set<int>, brk: int, n: nat)
    requires SbrkOk(base, core, Some(brk), n) && n > 0
    ensures core + Extent(brk, n) != core
  {
    assert brk in Extent(brk, n);
  }

  lemma CoreGrows(m: Memory, fl: seq<int>, base: int, live: map<int, nat>, core: set<int>, hp: int, h: Header)
    requires Ring(m, fl, base) && Partition(m, fl, base, live, core)
    requires base < hp && h.size > 0 && Extent(hp, h.size) !! core
    ensures hp !in live && Ring(m[hp := h], fl, base)
    ensures Partition(m[hp := h], fl, base, live[hp := h.size], core + Extent(hp, h.size))
  {
    var m', live', core' := m[hp := h], live[hp := h.size], core + Extent(hp, h.size);
    assert hp in Extent(hp, h.size);
    forall i | 0 <= i < |fl|
      ensures fl[i] != hp
    {
      if fl[i] == hp { FreeAt(m, fl, i, hp); }
    }
    assert hp in live ==> Covers(m, hp, hp) && IsLive(m, live, hp);
    BlocksUpdate(m, fl, base, hp, h);
    forall i | 0 <= i < |fl|
      ensures LinkAt(m', fl, i)
    {
      assert LinkAt(m, fl, i);
    }
    GrowPartition(m, fl, base, live, core, hp, h);
  }

  lemma GrowPartition(m: Memory, fl: seq<int>, base: int, live: map<int, nat>, core: set<int>, hp: int, h: Header)
    requires Ring(m, fl, base) && Partition(m, fl, base, live, core) && hp !in fl && hp !in live
    requires base < hp && h.size > 0 && Extent(hp, h.size) !! core
    ensures Partition(m[hp := h], fl, base, live[hp := h.size], core + Extent(hp, h.size))
  {
    hide IsFree;
    var m', live', core' := m[hp := h], live[hp := h.size], core + Extent(hp, h.size);
    forall u
      ensures IsFree(m', fl, u) <==> IsFree(m, fl, u)
    {
      SameUnits(m, m', fl, u);
    }
    forall a, u | a in live' && Covers(m', a, u)
      ensures if a == hp then u in Extent(hp, h.size) && u !in core else Covers(m, a, u) && u in core
    {
      if a != hp { assert IsLive(m, live, u); }
    }
    forall u
      ensures u in core' <==> IsFree(m', fl, u) || IsLive(m', live', u)
    {
      if IsLive(m, live, u) {
        var a :| a in live && Covers(m, a, u);
        assert a in live' && Covers(m', a, u);
      }
      if u in Extent(hp, h.size) { assert hp in live' && Covers(m', hp, u); }
      if IsLive(m', live', u) {
        var a :| a in live' && Covers(m', a, u);
        assert u in core';
      }
    }
  }

  ghost predicate NoneFits(m: Memory, fl: seq<int>, n: nat) {
    forall i :: 0 <= i < |fl| && fl[i] in m ==> m[fl[i]].size < n
  }

  /** The index s steps round a ring of n from f, for s at most n. */
  function Rot(n: nat, f: nat, s: nat): nat
    requires f < n && s <= n
    ensures Rot(n, f, s) < n
  {
    if f + s < n then f + s else f + s - n
  }

  /** The s blocks after f are all too small. */
  ghost predicate SeenSmall(m: Memory, fl: seq<int>, f: nat, s: nat, n: nat)
    requires f < |fl| && s <= |fl|
  {
    forall t :: 0 < t <= s ==> fl[Rot(|fl|, f, t)] in m && m[fl[Rot(|fl|, f, t)]].size < n
  }

  /** Block r is the first one after `from` round the ring that has n units. */
  ghost predicate FirstFitAt(m: Memory, fl: seq<int>, from: int, n: nat, r: int, f: nat, s: nat) {
    && f < |fl| && fl[f] == from && s < |fl| && r == Rot(|fl|, f, s + 1) && SeenSmall(m, fl, f, s, n)
  }

  ghost predicate FirstFit(m: Memory, fl: seq<int>, from: int, n: nat, r: int) {
    0 <= r < |fl| && fl[r] in m && m[fl[r]].size >= n && exists f, s :: FirstFitAt(m, fl, from, n, r, f, s)
  }

  lemma SeenNothing(m: Memory, fl: seq<int>, f: nat, n: nat)
    requires f < |fl|
    ensures SeenSmall(m, fl, f, 0, n) && Rot(|fl|, f, 0) == f && Rot(|fl|, f, 1) == Next(|fl|, f)
  {
  }

  lemma SeenOneMore(m: Memory, fl: seq<int>, f: nat, s: nat, n: nat)
    requires f < |fl| && s < |fl| && SeenSmall(m, fl, f, s, n)
    requires var p := fl[Rot(|fl|, f, s + 1)]; p in m && m[p].size < n
    ensures SeenSmall(m, fl, f, s + 1, n)
  {
  }

  /** Coming back to f means every block has been seen. */
  lemma AllSeen(m: Memory, fl: seq<int>, base: int, f: nat, s: nat, n: nat)
    requires Ring(m, fl, base) && f < |fl| && s < |fl| && SeenSmall(m, fl, f, s + 1, n)
    requires fl[Rot(|fl|, f, s + 1)] == fl[f]
    ensures NoneFits(m, fl, n)
  {
    OnlyHere(m, fl, base, f);
    assert s + 1 == |fl|;
    forall i | 0 <= i < |fl|
      ensures fl[i] in m && m[fl[i]].size < n
    {
      var t := if i > f then i - f else i - f + |fl|;
      assert Rot(|fl|, f, t) == i;
    }
  }

  lemma HeldFits(m: Memory, fl: seq<int>, a: int, c: nat, n: nat)
    requires n <= c
    ensures Holds(m, fl, a, c) ==> !NoneFits(m, fl, n)
  {
  }

  lemma RotStep(m: Memory, fl: seq<int>, base: int, f: nat, s: nat)
    requires Ring(m, fl, base) && f < |fl| && s < |fl| && fl[Rot(|fl|, f, s + 1)] != fl[f]
    ensures s + 1 < |fl| && Rot(|fl|, f, s + 2) == Next(|fl|, Rot(|fl|, f, s + 1))
  {
  }

  lemma PredecessorIndex(n: nat, f: nat, s: nat)
    requires f < n && s < n
    ensures Rot(n, f, s + 1) == Next(n, Rot(n, f, s)) && (Rot(n, f, s + 1) > 0 ==> Rot(n, f, s) == Rot(n, f, s + 1) - 1)
  {
  }

  lemma EmptyRing(m: Memory, base: int)
    requires 0 < base && base in m && m[base] == Header(base, 0)
    ensures Ring(m, [base], base) && Partition(m, [base], base, map[], {})
  {
    assert forall u :: !IsFree(m, [base], u);
  }

  /** The unit behind a free block is not free: free blocks never touch. */
  lemma EndNotFree(m: Memory, fl: seq<int>, base: int, r: nat)
    requires Ring(m, fl, base) && r < |fl|
    ensures fl[r] in m && !IsFree(m, fl, fl[r] + m[fl[r]].size)
  {
    var u := fl[r] + m[fl[r]].size;
    forall i | 0 <= i < |fl|
      ensures !Covers(m, fl[i], u)
    {
      if i < r {
        assert Before(m, fl[i], fl[r]);
      } else if i > r {
        assert Before(m, fl[r], fl[i]);
      }
    }
  }

  lemma RingFacts(m: Memory, fl: seq<int>, base: int, i: nat)
    requires Ring(m, fl, base) && i < |fl|
    ensures fl[i] in m && fl[i] >= base > 0 && m[fl[i]].ptr == fl[Next(|fl|, i)]
    ensures i == 0 ==> m[fl[i]].size == 0 && fl[i] == base
  {
    SuccessorOf(m, fl, base, i);
  }

  /** Handing out block r, or its tail, in the memory malloc leaves. */
  ghost predicate Taken(m: Memory, fl: seq<int>, base: int, m': Memory, fl': seq<int>, r: nat, a: int, n: nat) {
    && Ring(m', fl', base) && 0 < r < |fl| && fl[r - 1] in fl'
    && a in m' && m'[a].size == n && base < a
    && (forall u :: a <= u < a + n ==> IsFree(m, fl, u))
    && (forall u :: IsFree(m', fl', u) <==> IsFree(m, fl, u) && !(a <= u < a + n))
    && (forall b :: b in m && b != fl[r] && b != fl[r - 1] && b != a ==> b in m' && m'[b] == m[b])
  }

  lemma WholeTaken(m: Memory, fl: seq<int>, base: int, r: nat)
    requires Ring(m, fl, base) && 0 < r < |fl|
    ensures fl[r] in m && fl[r - 1] in m
    ensures Taken(m, fl, base, m[fl[r - 1] := Header(m[fl[r]].ptr, m[fl[r - 1]].size)], fl[..r] + fl[r + 1..], r,
                  fl[r], m[fl[r]].size)
  {
    hide IsFree;
    TakeWhole(m, fl, base, r);
    OnlyHere(m, fl, base, r - 1);
    var m', fl', n := m[fl[r - 1] := Header(m[fl[r]].ptr, m[fl[r - 1]].size)], fl[..r] + fl[r + 1..], m[fl[r]].size;
    assert Before(m, fl[0], fl[r]);
    assert fl'[r - 1] == fl[r - 1];
    forall u
      ensures IsFree(m', fl', u) <==> IsFree(m, fl, u) && !(fl[r] <= u < fl[r] + n)
    {
      TakenUnits(m, fl, base, r, m', fl', fl[r], n, u);
    }
    forall u | fl[r] <= u < fl[r] + n
      ensures IsFree(m, fl, u)
    {
      FreeAt(m, fl, r, u);
    }
  }

  lemma TailTaken(m: Memory, fl: seq<int>, base: int, r: nat, n: nat, ptr: int)
    requires Ring(m, fl, base) && 0 < r < |fl| && 0 < n < m[fl[r]].size
    ensures var p := fl[r]; var q := p + (m[p].size - n);
            Taken(m, fl, base, m[p := Header(m[p].ptr, m[p].size - n)][q := Header(ptr, n)], fl, r, q, n)
  {
    hide IsFree;
    TakeTail(m, fl, base, r, n, ptr);
    OnlyHere(m, fl, base, r);
    var p := fl[r];
    var q := p + (m[p].size - n);
    var m' := m[p := Header(m[p].ptr, m[p].size - n)][q := Header(ptr, n)];
    assert Before(m, fl[0], fl[r]);
    forall u
      ensures IsFree(m', fl, u) <==> IsFree(m, fl, u) && !(q <= u < q + n)
    {
      TakenUnits(m, fl, base, r, m', fl, q, n, u);
    }
    forall u | q <= u < q + n
      ensures IsFree(m, fl, u)
    {
      FreeAt(m, fl, r, u);
    }
  }

  lemma TakenLive(m: Memory, fl: seq<int>, base: int, live: map<int, nat>, core: set<int>, m': Memory, fl': seq<int>,
                  r: nat, a: int, n: nat)
    requires Ring(m, fl, base) && Partition(m, fl, base, live, core) && Taken(m, fl, base, m', fl', r, a, n) && n > 0
    ensures a !in live && Partition(m', fl', base, live[a := n], core)
  {
    hide IsFree;
    hide Ring;
    assert n > 0 ==> IsFree(m, fl, a);
    assert a in live ==> Covers(m, a, a);
    forall b | b in live
      ensures b in m' && m'[b] == m[b]
    {
      ListedNotLive(m, fl, base, live, core, b);
    }
    TakePartition(m, fl, base, live, core, m', fl', a, n);
  }

  lemma ListedNotLive(m: Memory, fl: seq<int>, base: int, live: map<int, nat>, core: set<int>, b: int)
    requires Ring(m, fl, base) && Partition(m, fl, base, live, core) && b in live
    ensures b !in fl && b in m
  {
    LiveNotListed(m, fl, base, live, core, b);
  }

  lemma PartitionFacts(m: Memory, fl: seq<int>, base: int, live: map<int, nat>, core: set<int>, bp: int)
    requires Ring(m, fl, base) && Partition(m, fl, base, live, core) && bp in live
    ensures bp in m && m[bp].size == live[bp] > 0 && base < bp && bp !in fl && 0 < |fl| && fl[0] == base
  {
    LiveNotListed(m, fl, base, live, core, bp);
  }

  lemma FindGapIn(m: Memory, fl: seq<int>, base: int, bp: int) returns (k: nat)
    requires Ring(m, fl, base) && base < bp && bp !in fl
    ensures IsGap(fl, k, bp)
  {
    k := FindGap(m, fl, |fl|, bp);
  }

  lemma SuccessorOf(m: Memory, fl: seq<int>, base: int, k: nat)
    requires Ring(m, fl, base) && k < |fl|
    ensures fl[k] in m && m[fl[k]].ptr == fl[Next(|fl|, k)] && fl[k] >= base
  {
    assert LinkAt(m, fl, k);
    if k > 0 { assert Before(m, fl[0], fl[k]); }
  }

  lemma StillLive(m: Memory, fl: seq<int>, base: int, live: map<int, nat>, core: set<int>, m': Memory, k: nat, bp: int)
    requires Ring(m, fl, base) && Partition(m, fl, base, live, core) && k < |fl|
    requires forall a :: a in m && a != bp && a != fl[k] ==> a in m' && m'[a] == m[a]
    ensures forall a :: a in live && a != bp ==> a in m' && m'[a] == m[a]
  {
    forall a | a in live && a != bp
      ensures a in m' && m'[a] == m[a]
    {
      LiveNotListed(m, fl, base, live, core, a);
    }
  }
}

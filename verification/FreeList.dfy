/** The free list of umalloc.c as a value: a ring of block headers in address
    order, starting at `base`. Addresses count headers (8 bytes each). */
module FreeList {

  datatype Header = Header(ptr: int, size: nat)

  type Memory = map<int, Header>

  function Next(n: nat, i: nat): nat { if i + 1 >= n then 0 else i + 1 }

  /** Blocks a and b are in order, do not overlap and do not even touch. */
  predicate Before(m: Memory, a: int, b: int) {
    a in m && a + m[a].size < b
  }

  /** Address order, no overlap, and fully coalesced: no two blocks touch. */
  ghost predicate Apart(m: Memory, fl: seq<int>) {
    forall i, j :: 0 <= i < j < |fl| ==> Before(m, fl[i], fl[j])
  }

  ghost predicate Blocks(m: Memory, fl: seq<int>, base: int) {
    && 0 < |fl| && fl[0] == base && 0 < base
    && (forall i :: 0 <= i < |fl| ==> fl[i] in m)
    && m[base].size == 0
    && (forall i :: 0 < i < |fl| ==> m[fl[i]].size > 0)
    && Apart(m, fl)
  }

  predicate LinkAt(m: Memory, fl: seq<int>, i: nat) {
    i < |fl| && fl[i] in m && m[fl[i]].ptr == fl[Next(|fl|, i)]
  }

  /** The links visit fl in order and return to base. */
  ghost predicate Ring(m: Memory, fl: seq<int>, base: int) {
    && Blocks(m, fl, base)
    && forall i :: 0 <= i < |fl| ==> LinkAt(m, fl, i)
  }

  /** u is one of the units of block a. */
  predicate Covers(m: Memory, a: int, u: int) {
    a in m && a <= u < a + m[a].size
  }

  ghost predicate IsFree(m: Memory, fl: seq<int>, u: int) {
    exists i :: 0 <= i < |fl| && Covers(m, fl[i], u)
  }

  /** A ring whose block k is to be followed by bp, which may touch block k
      (below) but no later block. */
  ghost predicate Open(m: Memory, fl: seq<int>, base: int, k: nat, bp: int) {
    && Blocks(m, fl, base) && k < |fl|
    && (forall i :: 0 <= i < |fl| && i != k ==> LinkAt(m, fl, i))
    && bp in m && m[bp].size > 0 && m[bp].ptr == fl[Next(|fl|, k)] && bp !in fl
    && fl[k] < bp && fl[k] + m[fl[k]].size <= bp
    && (forall j :: k < j < |fl| ==> Before(m, bp, fl[j]))
  }

  lemma NotListed(m: Memory, fl: seq<int>, k: nat, bp: int)
    requires Apart(m, fl) && k < |fl| && fl[k] < bp
    requires forall i :: 0 <= i < |fl| ==> fl[i] in m
    requires forall j :: k < j < |fl| ==> bp < fl[j]
    ensures bp !in fl
  {
    forall i | 0 <= i < |fl|
      ensures fl[i] != bp
    {
      if i < k { assert Before(m, fl[i], fl[k]); }
    }
  }

  // ---------------------------------------------- free, first half: block above

  function JoinAbove(m: Memory, bp: int, next: int): Memory
    requires bp in m && next in m
  {
    if bp + m[bp].size == next then m[bp := Header(m[next].ptr, m[bp].size + m[next].size)]
    else m[bp := Header(next, m[bp].size)]
  }

  ghost function DropAbove(m: Memory, fl: seq<int>, k: nat, bp: int): seq<int>
    requires bp in m && k < |fl|
  {
    if k + 1 < |fl| && bp + m[bp].size == fl[k + 1] then fl[..k + 1] + fl[k + 2..] else fl
  }

  /** bp lies in the gap after block k: above it and below block k+1. */
  ghost predicate InGap(m: Memory, fl: seq<int>, base: int, k: nat, bp: int) {
    && k < |fl| && bp in m && m[bp].size > 0
    && fl[k] < bp && fl[k] in m && fl[k] + m[fl[k]].size <= bp
    && (k + 1 < |fl| ==> bp + m[bp].size <= fl[k + 1])
  }

  lemma GapAbove(m: Memory, fl: seq<int>, base: int, k: nat, bp: int)
    requires Ring(m, fl, base) && InGap(m, fl, base, k, bp)
    ensures bp !in fl
    ensures forall j :: k + 1 < j < |fl| ==> bp + m[bp].size < fl[j]
  {
    forall j | k < j < |fl|
      ensures bp < fl[j] && (j > k + 1 ==> bp + m[bp].size < fl[j])
    {
      if j > k + 1 { assert Before(m, fl[k + 1], fl[j]); }
    }
    NotListed(m, fl, k, bp);
  }

  lemma BlocksUpdate(m: Memory, fl: seq<int>, base: int, bp: int, h: Header)
    requires Blocks(m, fl, base) && bp !in fl
    ensures Blocks(m[bp := h], fl, base)
  {
    forall i, j | 0 <= i < j < |fl|
      ensures Before(m[bp := h], fl[i], fl[j])
    {
      assert Before(m, fl[i], fl[j]);
    }
  }

  lemma BlocksWithout(m: Memory, fl: seq<int>, base: int, r: nat)
    requires Blocks(m, fl, base) && 0 < r < |fl|
    ensures Blocks(m, fl[..r] + fl[r + 1..], base)
  {
    var fl' := fl[..r] + fl[r + 1..];
    assert forall i :: 0 <= i < |fl'| ==> fl'[i] == fl[if i < r then i else i + 1];
    forall i, j | 0 <= i < j < |fl'|
      ensures Before(m, fl'[i], fl'[j])
    {
      assert Before(m, fl[if i < r then i else i + 1], fl[if j < r then j else j + 1]);
    }
  }

  lemma AboveMerged(m: Memory, fl: seq<int>, base: int, k: nat, bp: int)
    requires Ring(m, fl, base) && InGap(m, fl, base, k, bp) && k + 1 < |fl| && bp + m[bp].size == fl[k + 1]
    ensures Open(JoinAbove(m, bp, fl[k + 1]), fl[..k + 1] + fl[k + 2..], base, k, bp)
  {
    hide Blocks;
    OnlyHere(m, fl, base, k);
    var m', fl' := JoinAbove(m, bp, fl[k + 1]), fl[..k + 1] + fl[k + 2..];
    GapAbove(m, fl, base, k, bp);
    assert bp !in fl';
    BlocksWithout(m, fl, base, k + 1);
    BlocksUpdate(m, fl', base, bp, m'[bp]);
    assert forall i :: 0 <= i < |fl'| ==> fl'[i] == fl[if i <= k then i else i + 1];
    forall i | 0 <= i < |fl'| && i != k
      ensures LinkAt(m', fl', i)
    {
      assert LinkAt(m, fl, if i <= k then i else i + 1);
    }
    assert LinkAt(m, fl, k + 1);
    forall j | k < j < |fl'|
      ensures Before(m', bp, fl'[j])
    {
      InOrder(m, fl, base, k + 1, j + 1);
    }
  }

  lemma InOrder(m: Memory, fl: seq<int>, base: int, i: nat, j: nat)
    requires Blocks(m, fl, base) && i < j < |fl|
    ensures Before(m, fl[i], fl[j])
  {
  }

  lemma AboveApart(m: Memory, fl: seq<int>, base: int, k: nat, bp: int)
    requires Ring(m, fl, base) && InGap(m, fl, base, k, bp) && !(k + 1 < |fl| && bp + m[bp].size == fl[k + 1])
    ensures var next := fl[Next(|fl|, k)]; next in m && Open(JoinAbove(m, bp, next), fl, base, k, bp)
  {
    var next := fl[Next(|fl|, k)];
    var m' := JoinAbove(m, bp, next);
    GapAbove(m, fl, base, k, bp);
    if 0 < k { assert Before(m, fl[0], fl[k]); }
    BlocksUpdate(m, fl, base, bp, m'[bp]);
    forall i | 0 <= i < |fl| && i != k
      ensures LinkAt(m', fl, i)
    {
      assert LinkAt(m, fl, i);
    }
  }

  /** The first if of free: join the block above, or point at it. */
  lemma JoinAboveOpens(m: Memory, fl: seq<int>, base: int, k: nat, bp: int)
    requires Ring(m, fl, base) && InGap(m, fl, base, k, bp)
    ensures var next := fl[Next(|fl|, k)];
            next in m && Open(JoinAbove(m, bp, next), DropAbove(m, fl, k, bp), base, k, bp)
  {
    if k + 1 < |fl| && bp + m[bp].size == fl[k + 1] {
      AboveMerged(m, fl, base, k, bp);
    } else {
      AboveApart(m, fl, base, k, bp);
    }
  }

  // --------------------------------------------- free, second half: block below

  function JoinBelow(m: Memory, p: int, bp: int): Memory
    requires bp in m && p in m
  {
    if p + m[p].size == bp then m[p := Header(m[bp].ptr, m[p].size + m[bp].size)]
    else m[p := Header(bp, m[p].size)]
  }

  ghost function Linked(m: Memory, fl: seq<int>, k: nat, bp: int): seq<int>
    requires k < |fl| && fl[k] in m
  {
    if fl[k] + m[fl[k]].size == bp then fl else Inserted(fl, k, bp)
  }

  lemma OnlyOnce(m: Memory, fl: seq<int>, k: nat)
    requires Apart(m, fl) && k < |fl|
    ensures forall i :: 0 <= i < |fl| && i != k ==> fl[i] != fl[k]
  {
    forall i | 0 <= i < |fl| && i != k
      ensures fl[i] != fl[k]
    {
      if i < k { assert Before(m, fl[i], fl[k]); } else { assert Before(m, fl[k], fl[i]); }
    }
  }

  lemma JoinBelowMerges(m: Memory, fl: seq<int>, base: int, k: nat, bp: int)
    requires Open(m, fl, base, k, bp) && fl[k] + m[fl[k]].size == bp
    ensures Ring(JoinBelow(m, fl[k], bp), fl, base)
  {
    var m' := JoinBelow(m, fl[k], bp);
    OnlyOnce(m, fl, k);
    forall i, j | 0 <= i < j < |fl|
      ensures Before(m', fl[i], fl[j])
    {
      assert Before(m, fl[i], fl[j]);
      if i == k { assert Before(m, bp, fl[j]); }
    }
    forall i | 0 <= i < |fl|
      ensures LinkAt(m', fl, i)
    {
      if i != k { assert LinkAt(m, fl, i); }
    }
  }

  ghost function Inserted(fl: seq<int>, k: nat, bp: int): seq<int>
    requires k < |fl|
  {
    fl[..k + 1] + [bp] + fl[k + 1..]
  }

  function InsertedAt(fl: seq<int>, k: nat, bp: int, x: nat): int
    requires k < |fl| && x <= |fl|
  {
    if x <= k then fl[x] else if x == k + 1 then bp else fl[x - 1]
  }

  lemma InsertApart(m: Memory, fl: seq<int>, base: int, k: nat, bp: int, i: nat, j: nat)
    requires Open(m, fl, base, k, bp) && fl[k] + m[fl[k]].size != bp && i < j <= |fl|
    ensures Before(m, InsertedAt(fl, k, bp, i), InsertedAt(fl, k, bp, j))
  {
    if j <= k { assert Before(m, fl[i], fl[j]); }
    else if j == k + 1 {
      if i < k { assert Before(m, fl[i], fl[k]); }
    } else if i == k + 1 {
      assert Before(m, bp, fl[j - 1]);
    } else {
      assert Before(m, fl[if i <= k then i else i - 1], fl[j - 1]);
    }
  }

  lemma InsertBlocks(m: Memory, fl: seq<int>, base: int, k: nat, bp: int)
    requires Open(m, fl, base, k, bp) && fl[k] + m[fl[k]].size != bp
    ensures Blocks(m, Inserted(fl, k, bp), base)
  {
    var fl' := Inserted(fl, k, bp);
    assert forall i :: 0 <= i < |fl'| ==> fl'[i] == InsertedAt(fl, k, bp, i);
    forall i, j | 0 <= i < j < |fl'|
      ensures Before(m, fl'[i], fl'[j])
    {
      InsertApart(m, fl, base, k, bp, i, j);
    }
  }

  /** Changing a link moves no block. */
  lemma Relink(m: Memory, fl: seq<int>, base: int, p: int, ptr: int)
    requires Blocks(m, fl, base) && p in m
    ensures Blocks(m[p := Header(ptr, m[p].size)], fl, base)
  {
    var m' := m[p := Header(ptr, m[p].size)];
    forall i, j | 0 <= i < j < |fl|
      ensures Before(m', fl[i], fl[j])
    {
      assert Before(m, fl[i], fl[j]);
    }
  }

  lemma JoinBelowLinks(m: Memory, fl: seq<int>, base: int, k: nat, bp: int)
    requires Open(m, fl, base, k, bp) && fl[k] + m[fl[k]].size != bp
    ensures Ring(JoinBelow(m, fl[k], bp), Inserted(fl, k, bp), base)
  {
    hide Blocks;
    OnlyHere(m, fl, base, k);
    var m', fl' := JoinBelow(m, fl[k], bp), Inserted(fl, k, bp);
    assert forall i :: 0 <= i < |fl'| ==> fl'[i] == InsertedAt(fl, k, bp, i);
    InsertBlocks(m, fl, base, k, bp);
    Relink(m, fl', base, fl[k], bp);
    forall i | 0 <= i < |fl'|
      ensures LinkAt(m', fl', i)
    {
      if i < k { assert LinkAt(m, fl, i); } else if i > k + 1 { assert LinkAt(m, fl, i - 1); }
    }
  }

  lemma OnlyHere(m: Memory, fl: seq<int>, base: int, k: nat)
    requires Blocks(m, fl, base) && k < |fl|
    ensures forall i :: 0 <= i < |fl| ==> fl[i] in m && (i != k ==> fl[i] != fl[k])
  {
    OnlyOnce(m, fl, k);
  }

  // ------------------------------------------------------------ units freed

  lemma FreeAt(m: Memory, fl: seq<int>, i: nat, u: int)
    requires i < |fl| && Covers(m, fl[i], u)
    ensures IsFree(m, fl, u)
  {
  }

  lemma AboveMergedUnits(m: Memory, fl: seq<int>, k: nat, bp: int, h: Header, u: int)
    requires k + 1 < |fl| && bp !in fl && bp in m && fl[k + 1] in m
    requires bp + m[bp].size == fl[k + 1] && h.size == m[bp].size + m[fl[k + 1]].size
    ensures IsFree(m[bp := h], fl[..k + 1] + fl[k + 2..], u) || Covers(m[bp := h], bp, u) <==>
              IsFree(m, fl, u) || Covers(m, bp, u)
  {
    var m', fl' := m[bp := h], fl[..k + 1] + fl[k + 2..];
    assert forall i :: 0 <= i < |fl'| ==> fl'[i] == fl[if i > k then i + 1 else i];
    if IsFree(m, fl, u) {
      var i :| 0 <= i < |fl| && Covers(m, fl[i], u);
      if i != k + 1 { FreeAt(m', fl', if i > k + 1 then i - 1 else i, u); }
    }
    if IsFree(m', fl', u) {
      var i :| 0 <= i < |fl'| && Covers(m', fl'[i], u);
      FreeAt(m, fl, if i > k then i + 1 else i, u);
    }
    if Covers(m', bp, u) && !Covers(m, bp, u) { FreeAt(m, fl, k + 1, u); }
  }

  /** A change to one header, or to links, frees and takes no unit elsewhere. */
  lemma SameUnits(m: Memory, m': Memory, fl: seq<int>, u: int)
    requires forall i :: 0 <= i < |fl| ==> fl[i] in m && fl[i] in m' && m'[fl[i]].size == m[fl[i]].size
    ensures IsFree(m', fl, u) <==> IsFree(m, fl, u)
  {
    if IsFree(m, fl, u) {
      var i :| 0 <= i < |fl| && Covers(m, fl[i], u);
      FreeAt(m', fl, i, u);
    }
    if IsFree(m', fl, u) {
      var i :| 0 <= i < |fl| && Covers(m', fl[i], u);
      FreeAt(m, fl, i, u);
    }
  }

  lemma AboveUnits(m: Memory, fl: seq<int>, base: int, k: nat, bp: int, u: int)
    requires Ring(m, fl, base) && InGap(m, fl, base, k, bp)
    ensures var next := fl[Next(|fl|, k)];
            && next in m
            && (IsFree(JoinAbove(m, bp, next), DropAbove(m, fl, k, bp), u) || Covers(JoinAbove(m, bp, next), bp, u)
                <==> IsFree(m, fl, u) || Covers(m, bp, u))
  {
    hide IsFree;
    var next := fl[Next(|fl|, k)];
    var m' := JoinAbove(m, bp, next);
    GapAbove(m, fl, base, k, bp);
    if k + 1 < |fl| && bp + m[bp].size == fl[k + 1] {
      AboveMergedUnits(m, fl, k, bp, m'[bp], u);
    } else {
      if 0 < k { assert Before(m, fl[0], fl[k]); }
      SameUnits(m, m', fl, u);
    }
  }

  lemma BelowMergedUnits(m: Memory, fl: seq<int>, k: nat, bp: int, h: Header, u: int)
    requires k < |fl| && fl[k] in m && bp in m && forall i :: 0 <= i < |fl| && i != k ==> fl[i] != fl[k]
    requires fl[k] + m[fl[k]].size == bp && h.size == m[fl[k]].size + m[bp].size
    ensures IsFree(m[fl[k] := h], fl, u) <==> IsFree(m, fl, u) || Covers(m, bp, u)
  {
    var m' := m[fl[k] := h];
    if IsFree(m, fl, u) {
      var i :| 0 <= i < |fl| && Covers(m, fl[i], u);
      FreeAt(m', fl, i, u);
    }
    if Covers(m, bp, u) { FreeAt(m', fl, k, u); }
    if IsFree(m', fl, u) {
      var i :| 0 <= i < |fl| && Covers(m', fl[i], u);
      if !Covers(m, bp, u) { FreeAt(m, fl, i, u); }
    }
  }

  lemma InsertedUnits(m: Memory, fl: seq<int>, k: nat, bp: int, u: int)
    requires k < |fl|
    ensures IsFree(m, Inserted(fl, k, bp), u) <==> IsFree(m, fl, u) || Covers(m, bp, u)
  {
    var fl' := Inserted(fl, k, bp);
    assert forall i :: 0 <= i < |fl'| ==> fl'[i] == InsertedAt(fl, k, bp, i);
    if IsFree(m, fl, u) {
      var i :| 0 <= i < |fl| && Covers(m, fl[i], u);
      FreeAt(m, fl', if i <= k then i else i + 1, u);
    }
    if Covers(m, bp, u) { FreeAt(m, fl', k + 1, u); }
    if IsFree(m, fl', u) {
      var i :| 0 <= i < |fl'| && Covers(m, fl'[i], u);
      if i != k + 1 { FreeAt(m, fl, if i <= k then i else i - 1, u); }
    }
  }

  lemma BelowUnits(m: Memory, fl: seq<int>, base: int, k: nat, bp: int, u: int)
    requires Open(m, fl, base, k, bp)
    ensures IsFree(JoinBelow(m, fl[k], bp), Linked(m, fl, k, bp), u) <==> IsFree(m, fl, u) || Covers(m, bp, u)
  {
    hide IsFree;
    hide Blocks;
    OnlyHere(m, fl, base, k);
    var m' := JoinBelow(m, fl[k], bp);
    if fl[k] + m[fl[k]].size == bp {
      BelowMergedUnits(m, fl, k, bp, m'[fl[k]], u);
    } else {
      var fl' := Inserted(fl, k, bp);
      assert forall i :: 0 <= i < |fl'| ==> fl'[i] == InsertedAt(fl, k, bp, i);
      InsertedUnits(m, fl, k, bp, u);
      SameUnits(m, m', fl', u);
    }
  }

  // ------------------------------------------------------------- live blocks

  ghost predicate IsLive(m: Memory, live: map<int, nat>, u: int) {
    exists a :: a in live && Covers(m, a, u)
  }

  /** Every unit obtained from sbrk belongs to one free block or one live block,
      and no other unit does. */
  ghost predicate Partition(m: Memory, fl: seq<int>, base: int, live: map<int, nat>, core: set<int>) {
    && (forall a :: a in live ==> a in m && m[a].size == live[a] > 0 && base < a)
    && (forall a, b, u :: a in live && b in live && Covers(m, a, u) && Covers(m, b, u) ==> a == b)
    && (forall a, u :: a in live && Covers(m, a, u) ==> !IsFree(m, fl, u))
    && (forall u :: u in core <==> IsFree(m, fl, u) || IsLive(m, live, u))
  }

  /** A live block is not on the free list. */
  lemma LiveNotListed(m: Memory, fl: seq<int>, base: int, live: map<int, nat>, core: set<int>, a: int)
    requires Blocks(m, fl, base) && Partition(m, fl, base, live, core) && a in live
    ensures a !in fl
  {
    forall i | 0 <= i < |fl|
      ensures fl[i] != a
    {
      if fl[i] == a {
        assert Covers(m, a, a);
        FreeAt(m, fl, i, a);
      }
    }
  }

  /** Where free puts a live block. */
  lemma LiveInGap(m: Memory, fl: seq<int>, base: int, live: map<int, nat>, core: set<int>, k: nat, bp: int)
    requires Ring(m, fl, base) && Partition(m, fl, base, live, core) && bp in live
    requires k < |fl| && fl[k] < bp && (k + 1 < |fl| ==> bp < fl[k + 1])
    ensures InGap(m, fl, base, k, bp)
  {
    if fl[k] + m[fl[k]].size > bp {
      assert Covers(m, bp, bp);
      FreeAt(m, fl, k, bp);
    }
    if k + 1 < |fl| && bp + m[bp].size > fl[k + 1] {
      assert Covers(m, bp, fl[k + 1]);
      FreeAt(m, fl, k + 1, fl[k + 1]);
    }
  }

  lemma FreePartition(m: Memory, fl: seq<int>, base: int, live: map<int, nat>, core: set<int>, m': Memory,
                      fl': seq<int>, bp: int)
    requires Partition(m, fl, base, live, core) && bp in live
    requires forall a :: a in live && a != bp ==> a in m' && m'[a] == m[a]
    requires forall u :: IsFree(m', fl', u) <==> IsFree(m, fl, u) || Covers(m, bp, u)
    ensures Partition(m', fl', base, live - {bp}, core)
  {
    hide IsFree;
    var live' := live - {bp};
    forall a, u | a in live' && Covers(m', a, u)
      ensures Covers(m, a, u) && !Covers(m, bp, u)
    {
    }
    forall u
      ensures u in core <==> IsFree(m', fl', u) || IsLive(m', live', u)
    {
      if IsLive(m, live, u) && !Covers(m, bp, u) {
        var a :| a in live && Covers(m, a, u);
        assert a in live' && Covers(m', a, u);
      }
      if IsLive(m', live', u) {
        var a :| a in live' && Covers(m', a, u);
        assert Covers(m, a, u);
      }
    }
  }

  // ------------------------------------------------------------------ malloc

  /** An exact fit leaves the list. */
  lemma TakeWhole(m: Memory, fl: seq<int>, base: int, r: nat)
    requires Ring(m, fl, base) && 0 < r < |fl|
    ensures Ring(m[fl[r - 1] := Header(m[fl[r]].ptr, m[fl[r - 1]].size)], fl[..r] + fl[r + 1..], base)
  {
    hide Blocks;
    OnlyHere(m, fl, base, r - 1);
    var fl' := fl[..r] + fl[r + 1..];
    var m' := m[fl[r - 1] := Header(m[fl[r]].ptr, m[fl[r - 1]].size)];
    assert forall i :: 0 <= i < |fl'| ==> fl'[i] == fl[if i < r then i else i + 1];
    BlocksWithout(m, fl, base, r);
    Relink(m, fl', base, fl[r - 1], m[fl[r]].ptr);
    forall i | 0 <= i < |fl'|
      ensures LinkAt(m', fl', i)
    {
      if i != r - 1 { assert LinkAt(m, fl, if i < r then i else i + 1); } else { assert LinkAt(m, fl, r); }
    }
  }

  /** A larger block keeps its head on the list; its tail is handed out. */
  lemma TakeTail(m: Memory, fl: seq<int>, base: int, r: nat, n: nat, ptr: int)
    requires Ring(m, fl, base) && 0 < r < |fl| && 0 < n < m[fl[r]].size
    ensures var p := fl[r]; var q := p + (m[p].size - n);
            q !in fl && Ring(m[p := Header(m[p].ptr, m[p].size - n)][q := Header(ptr, n)], fl, base)
  {
    var p := fl[r];
    var q := p + (m[p].size - n);
    OnlyHere(m, fl, base, r);
    forall i | 0 <= i < |fl|
      ensures fl[i] != q
    {
      if i < r { assert Before(m, fl[i], fl[r]); } else if i > r { assert Before(m, fl[r], fl[i]); }
    }
    var m' := m[p := Header(m[p].ptr, m[p].size - n)][q := Header(ptr, n)];
    forall i, j | 0 <= i < j < |fl|
      ensures Before(m', fl[i], fl[j])
    {
      assert Before(m, fl[i], fl[j]);
    }
    forall i | 0 <= i < |fl|
      ensures LinkAt(m', fl, i)
    {
      assert LinkAt(m, fl, i);
    }
  }

  /** The units left free are those of other blocks and of the kept head. */
  lemma TakenUnits(m: Memory, fl: seq<int>, base: int, r: nat, m': Memory, fl': seq<int>, a: int, n: nat, u: int)
    requires Ring(m, fl, base) && 0 < r < |fl| && 0 < n <= m[fl[r]].size && a == fl[r] + (m[fl[r]].size - n)
    requires if n == m[fl[r]].size then fl' == fl[..r] + fl[r + 1..] else fl' == fl
    requires forall i :: 0 <= i < |fl| && i != r ==> fl[i] in m' && m'[fl[i]].size == m[fl[i]].size
    requires fl[r] in m' && (n < m[fl[r]].size ==> m'[fl[r]].size == m[fl[r]].size - n)
    ensures IsFree(m', fl', u) <==> IsFree(m, fl, u) && !(a <= u < a + n)
  {
    hide Blocks;
    OnlyHere(m, fl, base, r);
    var whole := n == m[fl[r]].size;
    assert forall i :: 0 <= i < |fl'| ==> fl'[i] == fl[if whole && i >= r then i + 1 else i];
    if IsFree(m', fl', u) {
      var i :| 0 <= i < |fl'| && Covers(m', fl'[i], u);
      var j := if whole && i >= r then i + 1 else i;
      FreeAt(m, fl, j, u);
      if j < r { InOrder(m, fl, base, j, r); } else if j > r { InOrder(m, fl, base, r, j); }
    }
    if IsFree(m, fl, u) && !(a <= u < a + n) {
      var i :| 0 <= i < |fl| && Covers(m, fl[i], u);
      FreeAt(m', fl', if whole && i > r then i - 1 else i, u);
    }
  }

  lemma TakePartition(m: Memory, fl: seq<int>, base: int, live: map<int, nat>, core: set<int>, m': Memory,
                      fl': seq<int>, a: int, n: nat)
    requires Partition(m, fl, base, live, core) && base < a && 0 < n && a !in live
    requires a in m' && m'[a].size == n
    requires forall b :: b in live ==> b in m' && m'[b] == m[b]
    requires forall u :: a <= u < a + n ==> IsFree(m, fl, u)
    requires forall u :: IsFree(m', fl', u) <==> IsFree(m, fl, u) && !(a <= u < a + n)
    ensures Partition(m', fl', base, live[a := n], core)
  {
    hide IsFree;
    var live' := live[a := n];
    forall b, u | b in live' && Covers(m', b, u)
      ensures !IsFree(m', fl', u) && (b != a ==> Covers(m, b, u) && !(a <= u < a + n))
    {
    }
    forall u
      ensures u in core <==> IsFree(m', fl', u) || IsLive(m', live', u)
    {
      if IsLive(m, live, u) {
        var b :| b in live && Covers(m, b, u);
        assert b in live' && Covers(m', b, u);
      }
      if a <= u < a + n { assert a in live' && Covers(m', a, u); }
      if IsLive(m', live', u) {
        var b :| b in live' && Covers(m', b, u);
        assert b != a ==> b in live && Covers(m, b, u);
      }
    }
  }
}

/** Physical pages and user address spaces (vm.c, kalloc.c). */
module Vm {
  import opened Options
  import opened PageTables
  import opened Mappings

  const PGSIZE: nat := 4096
  const HEAPLIMIT: nat := 0x7F000000

  /** The contents of a page. */
  type Page = seq<nat>

  function ZeroPage(): (p: Page)
    ensures |p| == PGSIZE && forall i :: 0 <= i < PGSIZE ==> p[i] == 0
  {
    seq(PGSIZE, _ => 0)
  }

  /** What kfree leaves in a page. */
  function JunkPage(): (p: Page)
    ensures |p| == PGSIZE && forall i :: 0 <= i < PGSIZE ==> p[i] == 1
  {
    seq(PGSIZE, _ => 1)
  }

  function PageOf(data: map<nat, Page>, f: nat): Page { if f in data then data[f] else [] }

  /** The numbers from hi - 1 down to lo. */
  function Down(lo: nat, hi: nat): (s: seq<nat>)
    ensures |s| == (if lo < hi then hi - lo else 0) && forall f :: f in s <==> lo <= f < hi
    ensures forall i :: 0 <= i < |s| ==> s[i] == hi - 1 - i
    decreases hi
  {
    if lo < hi then [hi - 1] + Down(lo, hi - 1) else []
  }

  ghost function AllHeld(lo: nat, hi: nat): (role: map<nat, Role>)
    ensures forall f :: f in role <==> lo <= f < hi
    ensures forall f :: f in role ==> role[f].Held?
  {
    map f | f in Down(lo, hi) :: Held
  }

  /** A kernel that holds every page owns them all. */
  lemma NothingFree(ts: Tables, role: map<nat, Role>)
    requires forall f :: f in role ==> role[f].Held?
    ensures Owned(ts, [], role, 0, 0)
  {
  }

  /** The pages lo..hi-1, held before, have been freed and filled with junk. */
  ghost predicate Freed(role: map<nat, Role>, data: map<nat, Page>, role': map<nat, Role>, data': map<nat, Page>,
                        lo: nat, hi: nat) {
    && role'.Keys == role.Keys
    && (forall f :: f in role ==> role'[f] == if lo <= f < hi then Free else role[f])
    && (forall f :: f in role ==> PageOf(data', f) == if lo <= f < hi then JunkPage() else PageOf(data, f))
  }

  lemma FreedStart(role: map<nat, Role>, data: map<nat, Page>, lo: nat)
    ensures Freed(role, data, role, data, lo, lo)
  {
  }

  lemma FreedNext(role0: map<nat, Role>, data0: map<nat, Page>, role: map<nat, Role>, data: map<nat, Page>, lo: nat,
                  p: nat)
    requires Freed(role0, data0, role, data, lo, p) && lo <= p && p in role0
    ensures p in role && role[p] == role0[p]
    ensures Freed(role0, data0, role[p := Free], data[p := JunkPage()], lo, p + 1)
  {
    hide JunkPage;
    assert p in role.Keys;
  }

  lemma RangesMeet(start: nat, mid: nat, stop: nat)
    requires 0 < start <= mid <= stop && mid % PGSIZE == 0
    ensures 0 < Up(start) <= Up(mid) == mid / PGSIZE <= stop / PGSIZE
  {
    UpOrder(start, mid);
  }

  lemma FreedPast(role0: map<nat, Role>, data0: map<nat, Page>, role: map<nat, Role>, data: map<nat, Page>, lo: nat,
                  p: nat, hi: nat)
    requires Freed(role0, data0, role, data, lo, p) && (p == hi || (p == lo && hi <= lo))
    ensures Freed(role0, data0, role, data, lo, hi) && Down(lo, p) == Down(lo, hi)
  {
  }

  /** What is freed of a held range, and what is not. */
  lemma FreedPart(role0: map<nat, Role>, data0: map<nat, Page>, role: map<nat, Role>, data: map<nat, Page>,
                  lo: nat, mid: nat, hi: nat)
    requires Freed(role0, data0, role, data, lo, mid) && lo <= mid <= hi
    requires forall f :: f in role0 <==> lo <= f < hi
    requires forall f :: f in role0 ==> role0[f].Held?
    ensures forall f :: f in role <==> lo <= f < hi
    ensures forall f :: f in role ==> role[f] == if f < mid then Free else Held
    ensures forall f :: f in role && f < mid ==> PageOf(data, f) == JunkPage()
  {
    hide JunkPage;
    assert role.Keys == role0.Keys;
  }

  /** The number of pages that cover sz bytes. */
  function Up(sz: nat): (n: nat)
    ensures forall a: nat :: a * PGSIZE < sz <==> a < n
  {
    (sz + PGSIZE - 1) / PGSIZE
  }

  lemma UpOrder(m: nat, n: nat)
    requires m <= n
    ensures Up(m) <= Up(n) && Up(HEAPLIMIT) == USERPAGES
  {
  }

  /** What copyuvm returns; Absent stands for its panics. */
  datatype Copy = Made(c: nat) | Short | Absent

  datatype MapResult = Mapped | NoMemory | Remap

  /** How many page tables the pages first..first+k-1 lie in. */
  function Spanned(first: nat, k: nat): (n: nat)
    ensures n <= k && forall w :: first <= w < first + k ==> w / NPT < first / NPT + n
  {
    if k == 0 then 0 else (first + k - 1) / NPT - first / NPT + 1
  }

  /** Page first + k needs a table of its own unless it shares that of the page before. */
  lemma SpanNext(first: nat, k: nat)
    ensures Spanned(first, k + 1) == Spanned(first, k) + if k > 0 && (first + k) / NPT == (first + k - 1) / NPT then 0
            else 1
  {
  }

  lemma GivenFewer(role: map<nat, Role>, first: nat, k: nat, n: nat, pa: nat)
    requires Given(role, first, n, pa) && k <= n
    ensures Given(role, first, k, pa)
  {
  }

  lemma SpanGrows(first: nat, k: nat, n: nat)
    requires k <= n
    ensures Spanned(first, k) <= Spanned(first, n)
  {
  }

  /** An upper bound on the pages that a new address space takes: a directory, and
      at most 66 page tables for the rows of kmap. */
  const NEWSPACE: nat := 67

  /** What the first j rows of kmap take of it. */
  function RowPages(kdata: nat, j: nat): nat
    requires LINKPAGE < kdata < STOPPAGE && j <= 4
  {
    if j == 0 then 1 else RowPages(kdata, j - 1) + Spanned(Kmap(kdata, j - 1).first, Kmap(kdata, j - 1).n)
  }

  lemma RowsFit(kdata: nat, j: nat)
    requires LINKPAGE < kdata < STOPPAGE && j <= 4
    ensures RowPages(kdata, j) <= NEWSPACE && RowPages(kdata, 0) == 1
    ensures j > 0 ==>
              RowPages(kdata, j) == RowPages(kdata, j - 1) + Spanned(Kmap(kdata, j - 1).first, Kmap(kdata, j - 1).n)
  {
    hide Spanned;
    RowSpans(kdata);
  }

  lemma RowSpans(kdata: nat)
    requires LINKPAGE < kdata < STOPPAGE
    ensures RowPages(kdata, 1) == 2
    ensures RowPages(kdata, 3) <= 59 && RowPages(kdata, 2) <= 59
    ensures RowPages(kdata, 4) == RowPages(kdata, 3) + 8
  {
  }

  /** The pages that users still own have kept their contents. */
  ghost predicate KeepsPages(data: map<nat, Page>, data': map<nat, Page>, role': map<nat, Role>) {
    forall f :: f in role' && role'[f].User? ==> PageOf(data', f) == PageOf(data, f)
  }

  lemma SamePages(data: map<nat, Page>, role: map<nat, Role>)
    ensures KeepsPages(data, data, role)
  {
  }

  lemma FreedPage(data: map<nat, Page>, data': map<nat, Page>, role': map<nat, Role>, f: nat)
    requires KeepsPages(data, data', role')
    ensures KeepsPages(data, data'[f := JunkPage()], role'[f := Free])
  {
  }

  lemma FilledPage(data: map<nat, Page>, data': map<nat, Page>, role: map<nat, Role>, f: nat, p: Page)
    requires KeepsPages(data, data', role) && f in role && !role[f].User?
    ensures KeepsPages(data, data'[f := p], role)
  {
  }

  lemma KeepsTrans(data0: map<nat, Page>, data1: map<nat, Page>, data2: map<nat, Page>, role: map<nat, Role>)
    requires KeepsPages(data0, data1, role) && KeepsPages(data1, data2, role)
    ensures KeepsPages(data0, data2, role)
  {
  }

  lemma KeepsFewer(data: map<nat, Page>, data': map<nat, Page>, role0: map<nat, Role>, role: map<nat, Role>)
    requires KeepsPages(data, data', role) && forall f :: f in role0 && role0[f].User? ==> f in role && role[f].User?
    ensures KeepsPages(data, data', role0)
  {
  }

  /** Page w of c has its own frame, with the contents and permissions of page w of d. */
  predicate CopiedPage(ts: Tables, data: map<nat, Page>, d: nat, c: nat, w: nat) {
    && Pte(ts, c, w).present && Pte(ts, c, w).flags == Pte(ts, d, w).flags
    && PageOf(data, Pte(ts, c, w).frame) == PageOf(data, Pte(ts, d, w).frame)
  }

  /** The first n pages of c are copies of those of d; above them c has the kernel's part only. */
  ghost predicate Copied(ts: Tables, data: map<nat, Page>, d: nat, c: nat, n: nat, kdata: nat) {
    && (forall w :: 0 <= w < n ==> CopiedPage(ts, data, d, c, w))
    && (forall w :: n <= w < ALLPAGES ==> Pte(ts, c, w) == KernelEntry(kdata, w))
  }

  lemma CopyStart(ts: Tables, data: map<nat, Page>, d: nat, c: nat, kdata: nat)
    requires LINKPAGE < kdata < STOPPAGE && KernelPart(ts, c, kdata, 4)
    ensures Copied(ts, data, d, c, 0, kdata)
  {
    hide Pte;
  }

  /** The frame of a mapped user page is not one the kernel holds. */
  lemma NotHeld(ts: Tables, freelist: seq<nat>, role: map<nat, Role>, d: nat, w: nat, f: nat)
    requires Owned(ts, freelist, role, 0, 0) && d in role && role[d].Dir? && w < USERPAGES && f in role && role[f].Held?
    ensures Pte(ts, d, w).present ==> Pte(ts, d, w).frame != f
  {
    hide Pte;
    assert UserRole(ts, role, d, w);
  }

  lemma CopyStep(ts: Tables, ts': Tables, freelist: seq<nat>, role: map<nat, Role>, data: map<nat, Page>,
                 d: nat, c: nat, v: nat, f: nat, kdata: nat)
    requires Owned(ts, freelist, role, 0, 0) && d in role && role[d].Dir? && c in role && role[c].Dir? && d != c
    requires f in role && role[f].Held? && v < USERPAGES && Pte(ts, d, v).present
    requires forall w :: 0 <= w < v ==> Pte(ts, d, w).present
    requires Copied(ts, data, d, c, v, kdata) && MapView(ts, ts', role, c, v, 1, f, Pte(ts, d, v).flags)
    ensures Copied(ts', data[f := PageOf(data, Pte(ts, d, v).frame)], d, c, v + 1, kdata)
  {
    hide Owned;
    hide Pte;
    hide Pde;
    var data' := data[f := PageOf(data, Pte(ts, d, v).frame)];
    forall w | 0 <= w < v + 1
      ensures CopiedPage(ts', data', d, c, w)
    {
      NotHeld(ts, freelist, role, d, w, f);
      NotHeld(ts, freelist, role, c, w, f);
      if w < v {
        assert CopiedPage(ts, data, d, c, w);
      }
    }
  }

  lemma CopyAbsent(ts: Tables, data: map<nat, Page>, d: nat, c: nat, v: nat, kdata: nat)
    requires Copied(ts, data, d, c, v, kdata) && v < USERPAGES
    ensures !Pte(ts, c, v).present
  {
    hide Pte;
  }

  /** The pages of d are still mapped, as they were. */
  lemma SourcePages(ts0: Tables, ts: Tables, role: map<nat, Role>, d: nat, c: nat, n: nat)
    requires SameElsewhere(ts0, ts, role, c) && d in role && role[d].Dir? && d != c && n <= ALLPAGES
    ensures forall w :: 0 <= w < n ==> Pte(ts, d, w) == Pte(ts0, d, w)
  {
    hide Pte;
    hide Pde;
  }

  /** Pages lo..v-1 of d are new, writable by the user and zero; nothing else differs. */
  ghost predicate Grown(ts: Tables, ts': Tables, role: map<nat, Role>, data': map<nat, Page>, d: nat, lo: nat, v: nat) {
    && (forall x, i :: x in role && role[x].Dir? && (x != d || Pde(ts, x, i).present) ==>
          Pde(ts', x, i) == Pde(ts, x, i))
    && (forall x, w :: x in role && role[x].Dir? && 0 <= w < ALLPAGES && !(x == d && lo <= w < v) ==>
          Pte(ts', x, w) == Pte(ts, x, w))
    && (forall w :: lo <= w < v ==> NewPage(ts', data', d, w))
  }

  predicate NewPage(ts: Tables, data: map<nat, Page>, d: nat, w: nat) {
    Pte(ts, d, w).present && Pte(ts, d, w).flags == PTE_W + PTE_U && PageOf(data, Pte(ts, d, w).frame) == ZeroPage()
  }

  lemma GrowStart(ts: Tables, role: map<nat, Role>, data: map<nat, Page>, d: nat, lo: nat)
    ensures Grown(ts, ts, role, data, d, lo, lo)
  {
    hide Pte;
    hide Pde;
  }

  lemma GrowStep(ts0: Tables, ts: Tables, ts': Tables, freelist: seq<nat>, role0: map<nat, Role>, role: map<nat, Role>,
                 data: map<nat, Page>, d: nat, lo: nat, v: nat, k: nat, f: nat)
    requires Owned(ts, freelist, role, 0, 0) && d in role0 && role0[d].Dir? && f in role && role[f].Held?
             && lo <= v < USERPAGES && k <= 1
    requires forall x :: x in role0 && role0[x].Dir? ==> x in role && role[x].Dir?
    requires Grown(ts0, ts, role0, data, d, lo, v) && MapView(ts, ts', role, d, v, k, f, PTE_W + PTE_U)
    ensures Grown(ts0, ts', role0, data[f := ZeroPage()], d, lo, v + k)
  {
    hide Owned;
    hide Pte;
    hide Pde;
    hide ZeroPage;
    var data' := data[f := ZeroPage()];
    forall w | lo <= w < v + k
      ensures NewPage(ts', data', d, w)
    {
      NotHeld(ts, freelist, role, d, w, f);
      if w < v {
        assert NewPage(ts, data, d, w);
      }
    }
  }

  /** No page of d in lo..hi-1 is mapped; every other page is as it was. */
  ghost predicate Restored(ts: Tables, ts': Tables, role: map<nat, Role>, d: nat, lo: nat, hi: nat) {
    && (forall x, i :: x in role && role[x].Dir? && (x != d || Pde(ts, x, i).present) ==>
          Pde(ts', x, i) == Pde(ts, x, i))
    && (forall x, w :: x in role && role[x].Dir? && 0 <= w < ALLPAGES && !(x == d && lo <= w < hi) ==>
          Pte(ts', x, w) == Pte(ts, x, w))
    && (forall w :: lo <= w < hi ==> !Pte(ts', d, w).present)
  }

  lemma RestoreFailed(ts0: Tables, ts: Tables, ts': Tables, role0: map<nat, Role>, role: map<nat, Role>,
                      role': map<nat, Role>, data: map<nat, Page>, d: nat, lo: nat, v: nat, hi: nat)
    requires Grown(ts0, ts, role0, data, d, lo, v) && Unmapping(ts, ts', role, role', d, lo, hi)
             && lo <= v <= hi <= ALLPAGES
    requires d in role0 && role0[d].Dir? && forall x :: x in role0 && role0[x].Dir? ==> x in role && role[x].Dir?
    ensures Restored(ts0, ts', role0, d, lo, hi)
  {
    hide Pte;
    hide Pde;
    hide NewPage;
    forall w | lo <= w < hi
      ensures !Pte(ts', d, w).present
    {
      assert Pte(ts', d, w) == if Pte(ts, d, w).present then NONE else Pte(ts, d, w);
    }
  }

  lemma GrowAbsent(ts0: Tables, ts: Tables, role: map<nat, Role>, data: map<nat, Page>, d: nat, lo: nat, v: nat)
    requires Grown(ts0, ts, role, data, d, lo, v) && d in role && role[d].Dir? && v < ALLPAGES
             && !Pte(ts0, d, v).present
    ensures !Pte(ts, d, v).present
  {
    hide Pte;
    hide Pde;
  }

  /** The directories that remain once a space is dropped were there before. */
  lemma DroppedDirBack(role: map<nat, Role>, role0: map<nat, Role>, c: nat)
    requires Dropped(role, c) == role0
    ensures forall x :: x in role0 && role0[x].Dir? ==> x in role && role[x].Dir?
  {
    forall x | x in role0 && role0[x].Dir?
      ensures x in role && role[x].Dir?
    {
      assert x in Dropped(role, c);
    }
  }

  lemma FreeTwice(freelist: seq<nat>, role: map<nat, Role>, f: nat)
    requires FreeListed(freelist, role) && f in role
    ensures FreeListed([f] + freelist, role[f := Free]) <==> !role[f].Free?
  {
    if role[f].Free? {
      var i :| 0 <= i < |freelist| && freelist[i] == f;
      assert ([f] + freelist)[0] == ([f] + freelist)[i + 1];
    } else {
      FreeOne(freelist, role, f);
    }
  }

  class Vm {
    var freelist: seq<nat>
    var tables: Tables
    var data: map<nat, Page>
    ghost var role: map<nat, Role>

    ghost predicate Valid()
      reads this
    {
      Owned(tables, freelist, role, 0, 0) && 0 !in role
    }

    ghost predicate IsDir(d: nat)
      reads this
    {
      d in role && role[d].Dir?
    }

    /** The kernel holds every page that can be allocated; kinit1 hands over those up to
        mid, and kinit2 later, by another Freerange, the rest. The bounds are physical
        addresses. */
    constructor (start: nat, mid: nat, stop: nat)
      requires 0 < start <= mid <= stop && mid % PGSIZE == 0
      ensures Valid() && tables == map[] && freelist == Down(Up(start), mid / PGSIZE)
      ensures forall f :: f in role <==> Up(start) <= f < stop / PGSIZE
      ensures forall f :: f in role ==> role[f] == if f < mid / PGSIZE then Free else Held
      ensures forall f :: f in role && f < mid / PGSIZE ==> PageOf(data, f) == JunkPage()
    {
      freelist, tables, data := [], map[], map[];
      role := AllHeld(Up(start), stop / PGSIZE);
      new;
      hide Owned;
      hide Freed;
      hide PageOf;
      hide Down;
      hide AllHeld;
      hide Up;
      ghost var role0, data0 := role, data;
      RangesMeet(start, mid, stop);
      NothingFree(tables, role);
      Freerange(start, mid);
      FreedPart(role0, data0, role, data, Up(start), mid / PGSIZE, stop / PGSIZE);
    }

    /** Frees the pages that lie within the addresses start..stop-1. */
    method Freerange(start: nat, stop: nat)
      requires Valid() && forall f :: Up(start) <= f < stop / PGSIZE ==> f in role && role[f].Held?
      modifies `freelist, `data, `role
      ensures Valid() && freelist == Down(Up(start), stop / PGSIZE) + old(freelist)
      ensures Freed(old(role), old(data), role, data, Up(start), stop / PGSIZE)
    {
      hide Owned;
      hide Freed;
      ghost var lo, hi := Up(start), stop / PGSIZE;
      FreedStart(role, data, lo);
      var p := Up(start);
      while p * PGSIZE + PGSIZE <= stop
        invariant lo <= p && (p <= hi || p == lo)
        invariant Valid() && freelist == Down(lo, p) + old(freelist) && Freed(old(role), old(data), role, data, lo, p)
      {
        FreedNext(old(role), old(data), role, data, lo, p);
        KfreeHeld(tables, freelist, role, p);
        Kfree(p);
        role := role[p := Free];
        p := p + 1;
      }
      FreedPast(old(role), old(data), role, data, lo, p, hi);
    }

    method Kalloc() returns (r: Option<nat>)
      requires Valid()
      modifies `freelist, `role
      ensures Valid()
      ensures r.None? ==> old(freelist) == [] && freelist == [] && role == old(role)
      ensures r.Some? ==> old(freelist) != [] && r.value == old(freelist)[0] && freelist == old(freelist)[1..]
      ensures r.Some? ==> r.value in old(role) && old(role)[r.value].Free? && role == old(role)[r.value := Held]
    {
      hide Owned;
      if freelist == [] {
        return None;
      }
      KallocOwned(tables, freelist, role, 0, 0);
      r := Some(freelist[0]);
      role := role[freelist[0] := Held];
      freelist := freelist[1..];
    }

    /** Pushes an allocatable page; kfree panics on any other address. Each free page
        is listed once afterwards just when the page was not free already. */
    method Kfree(f: nat)
      requires f in role
      modifies `freelist, `data
      ensures freelist == [f] + old(freelist) && data == old(data)[f := JunkPage()]
      ensures FreeListed(old(freelist), role) ==> (FreeListed(freelist, role[f := Free]) <==> !role[f].Free?)
    {
      if FreeListed(freelist, role) {
        FreeTwice(freelist, role, f);
      }
      data := data[f := JunkPage()];
      freelist := [f] + freelist;
    }

    /** Whether page v of d has a page table, adding one if asked to and able to. */
    method Walkpgdir(d: nat, v: nat, alloc: bool) returns (ok: bool)
      requires Valid() && IsDir(d) && v < ALLPAGES
      modifies `freelist, `role, `tables
      ensures Valid() && IsDir(d) && ok == Pde(tables, d, v / NPT).present
      ensures old(Pde(tables, d, v / NPT)).present || !alloc || !ok ==>
                freelist == old(freelist) && role == old(role) && tables == old(tables)
      ensures !ok && alloc ==> freelist == []
      ensures ok && !old(Pde(tables, d, v / NPT)).present ==>
                && old(freelist) != [] && freelist == old(freelist)[1..] && d in old(tables)
                   && v / NPT < |old(tables)[d]|
                && tables == WithTable(old(tables), d, v / NPT, old(freelist)[0])
                && role == old(role)[old(freelist)[0] := Table(d, v / NPT)]
    {
      hide Owned;
      if Pde(tables, d, v / NPT).present {
        return true;
      }
      if !alloc {
        return false;
      }
      label before:
      var page := Kalloc();
      if page.None? {
        return false;
      }
      AddTable(tables, freelist, role, d, v / NPT, page.value);
      assert tables[d] == old@before(tables)[d];
      assert role[page.value := Table(d, v / NPT)] == old@before(role)[page.value := Table(d, v / NPT)];
      tables := WithTable(tables, d, v / NPT, page.value);
      role := role[page.value := Table(d, v / NPT)];
      return true;
    }

    /** Maps the pages of va..va+size-1 to consecutive frames. k is how many it maps. */
    method Mappages(d: nat, va: nat, size: nat, pa: nat, perm: nat) returns (r: MapResult, ghost k: nat)
      requires Valid() && IsDir(d) && size > 0 && va + size <= ALLPAGES * PGSIZE
      requires Given(role, va / PGSIZE, (va + size - 1) / PGSIZE - va / PGSIZE + 1, pa)
      modifies `freelist, `role, `tables
      ensures Valid() && IsDir(d) && k <= (va + size - 1) / PGSIZE - va / PGSIZE + 1
      ensures MapRoles(old(role), role, d, va / PGSIZE, k, pa)
      ensures MapView(old(tables), tables, old(role), d, va / PGSIZE, k, pa, perm)
      ensures r.Mapped? <==> k == (va + size - 1) / PGSIZE - va / PGSIZE + 1
      ensures r.Remap? ==> Pte(old(tables), d, va / PGSIZE + k).present
      ensures r.NoMemory? ==> freelist == [] && !Pde(tables, d, (va / PGSIZE + k) / NPT).present
      ensures |old(freelist)| <= |freelist| + Spanned(va / PGSIZE, if r.Remap? then k + 1 else k)
    {
      hide Owned;
      hide MapRoles;
      hide MapView;
      hide Given;
      hide Pte;
      hide Pde;
      hide Spanned;
      var a, last := va / PGSIZE, (va + size - 1) / PGSIZE;
      ghost var first := va / PGSIZE;
      var frame := pa;
      k := 0;
      MapStart(tables, role, d, first, pa, perm);
      while true
        invariant Valid() && IsDir(d) && a == first + k && frame == pa + k && first <= a <= last < ALLPAGES
        invariant MapRoles(old(role), role, d, first, k, pa)
        invariant MapView(old(tables), tables, old(role), d, first, k, pa, perm)
        invariant |old(freelist)| <= |freelist| + Spanned(first, k) && (k > 0 ==> Pde(tables, d, (a - 1) / NPT).present)
        decreases last - a
      {
        SpanNext(first, k);
        GivenFewer(old(role), first, k + 1, last - first + 1, pa);
        r := MapPage(d, a, frame, perm, old(tables), old(role), first, k, pa);
        if !r.Mapped? {
          return r, k;
        }
        k := k + 1;
        if a == last {
          return Mapped, k;
        }
        a := a + 1;
        frame := frame + 1;
      }
    }

    /** The body of mappages' loop, after k pages. */
    method MapPage(d: nat, a: nat, frame: nat, perm: nat, ghost ts0: Tables, ghost role0: map<nat, Role>,
                   ghost first: nat, ghost k: nat, ghost pa: nat)
      returns (r: MapResult)
      requires Valid() && IsDir(d) && d in role0 && role0[d].Dir? && Given(role0, first, k + 1, pa)
      requires a == first + k < ALLPAGES && frame == pa + k
      requires MapRoles(role0, role, d, first, k, pa) && MapView(ts0, tables, role0, d, first, k, pa, perm)
      modifies `freelist, `role, `tables
      ensures Valid() && IsDir(d)
      ensures MapRoles(role0, role, d, first, if r.Mapped? then k + 1 else k, pa)
      ensures MapView(ts0, tables, role0, d, first, if r.Mapped? then k + 1 else k, pa, perm)
      ensures r.Remap? ==> Pte(ts0, d, a).present
      ensures if r.NoMemory? then freelist == [] == old(freelist) && !Pde(tables, d, a / NPT).present
              else Pde(tables, d, a / NPT).present
      ensures |old(freelist)| <= |freelist| + if old(Pde(tables, d, a / NPT)).present then 0 else 1
    {
      hide Owned;
      hide MapRoles;
      hide MapView;
      hide Given;
      hide Pte;
      hide Pde;
      ghost var ts, free, was := tables, freelist, role;
      var ok := Walkpgdir(d, a, true);
      if !ok {
        return NoMemory;
      }
      if !Pde(ts, d, a / NPT).present {
        MapTable(ts0, ts, free, role0, was, d, first, k, pa, perm, a / NPT);
      }
      if Pte(tables, d, a).present {
        MapAbsent(ts0, tables, role0, d, first, k, pa, perm);
        return Remap;
      }
      if a < USERPAGES {
        MapUserPage(ts0, tables, freelist, role0, role, d, first, k, pa, perm);
        role := role[frame := User(d, a)];
      } else {
        MapKernelPage(ts0, tables, freelist, role0, role, d, first, k, pa, perm);
      }
      tables := Stored(tables, d, a, Entry(true, frame, perm));
      return Mapped;
    }

    /** Unmaps and frees the pages from newsz up to oldsz. Skipping whole directory
        entries makes no difference to the page-by-page result. */
    method Deallocuvm(d: nat, oldsz: nat, newsz: nat) returns (sz: nat)
      requires Valid() && IsDir(d) && (newsz < oldsz ==> oldsz <= HEAPLIMIT)
      modifies this
      ensures Valid() && IsDir(d) && sz == if newsz >= oldsz then oldsz else newsz
      ensures (tables, freelist) == Unmapped(old(tables), old(freelist), d, Up(newsz), Up(oldsz))
      ensures Up(newsz) <= Up(oldsz) ==> Unmapping(old(tables), tables, old(role), role, d, Up(newsz), Up(oldsz))
      ensures newsz >= oldsz ==>
                tables == old(tables) && freelist == old(freelist) && role == old(role) && data == old(data)
      ensures KeepsPages(old(data), data, role)
    {
      hide Owned;
      hide Unmapping;
      hide Pte;
      hide Pde;
      hide KeepsPages;
      hide Unmapped;
      hide Stored;
      hide StoreView;
      if newsz >= oldsz {
        UpOrder(oldsz, newsz);
        UnmapPast(tables, freelist, d, Up(newsz), Up(oldsz));
        UnmapStart(tables, role, d, Up(newsz));
        SamePages(data, role);
        return oldsz;
      }
      UpOrder(newsz, oldsz);
      UpOrder(oldsz, HEAPLIMIT);
      var a := Up(newsz);
      ghost var lo, hi, done := a, Up(oldsz), a;
      UnmapStart(tables, role, d, lo);
      SamePages(data, role);
      while a * PGSIZE < oldsz
        invariant Valid() && IsDir(d) && lo <= done <= hi && done == if a < hi then a else hi
        invariant Unmapped(tables, freelist, d, done, hi) == Unmapped(old(tables), old(freelist), d, lo, hi)
        invariant Unmapping(old(tables), tables, old(role), role, d, lo, done)
        invariant KeepsPages(old(data), data, role)
        decreases oldsz - a * PGSIZE
      {
        var ok := Walkpgdir(d, a, false);
        if !ok || !Pte(tables, d, a).present {
          UnmapSkip(old(tables), tables, freelist, old(role), role, d, lo, a, hi);
        }
        if !ok {
          a := (a / NPT + 1) * NPT - 1;
        } else if Pte(tables, d, a).present {
          var f := Pte(tables, d, a).frame;
          UnmapUser(tables, freelist, role, d, a);
          UnmapOne(old(tables), tables, freelist, old(role), role, d, lo, a);
          UnmapNext(tables, freelist, d, a, hi);
          FreedPage(old(data), data, role, f);
          assert f != 0;
          Kfree(f);
          tables := Stored(tables, d, a, NONE);
          role := role[f := Free];
        }
        a := a + 1;
        done := if a < hi then a else hi;
      }
      UnmapPast(tables, freelist, d, hi, hi);
      return newsz;
    }

    /** Frees every page of the address space d. */
    method Freevm(d: nat)
      requires Valid() && IsDir(d)
      modifies this
      ensures Valid() && role == Dropped(old(role), d)
      ensures SameElsewhere(old(tables), tables, old(role), d) && KeepsPages(old(data), data, role)
    {
      hide Owned;
      hide SameElsewhere;
      hide KeepsPages;
      hide Unmapping;
      hide Unmapped;
      hide Pte;
      hide Pde;
      OwnedTables(tables, freelist, role);
      UpOrder(0, HEAPLIMIT);
      var _ := Deallocuvm(d, HEAPLIMIT, 0);
      UnmapElsewhere(old(tables), tables, old(role), role, d, 0, USERPAGES);
      UnmapRoles(old(tables), tables, old(role), role, d);
      NothingGone(tables, freelist, role, d);
      var i := 0;
      while i < NPT
        invariant 0 <= i <= NPT && Owned(tables, freelist, role, d, i) && 0 !in role && IsDir(d)
        invariant role == DroppedTables(old(role), d, i)
        invariant SameElsewhere(old(tables), tables, old(role), d) && KeepsPages(old(data), data, role)
      {
        DropOne(tables, freelist, old(role), role, d, i);
        DroppedDirs(old(role), d, i);
        if Pde(tables, d, i).present {
          var f := Pde(tables, d, i).frame;
          FreeTable(tables, freelist, role, d, i);
          ElsewhereTrans(old(tables), tables, tables - {f}, old(role), role, d);
          FreedPage(old(data), data, role, f);
          Kfree(f);
          tables := tables - {f};
          role := role[f := Free];
        } else {
          SkipTable(tables, freelist, role, d, i);
        }
        i := i + 1;
      }
      DropEnd(old(role), role, d);
      DroppedDirs(old(role), d, NPT);
      FreeDir(tables, freelist, role, d);
      ElsewhereTrans(old(tables), tables, tables - {d}, old(role), role, d);
      FreedPage(old(data), data, role, d);
      Kfree(d);
      tables := tables - {d};
      role := role[d := Free];
    }

    /** The way out of setupkvm and copyuvm when memory is short: give the new space up. */
    method Abandon(c: nat, ghost n: nat, ghost ts0: Tables, ghost free0: seq<nat>, ghost role0: map<nat, Role>,
                   ghost data0: map<nat, Page>)
      requires Valid() && IsDir(c) && Owned(ts0, free0, role0, 0, 0) && c in role0 && role0[c].Free?
               && Extends(role0[c := Dir], role, c, 0, n)
      requires SameElsewhere(ts0, tables, role0, c) && KeepsPages(data0, data, role0)
      modifies this
      ensures Valid() && role == role0 && SameSpaces(ts0, tables, role0) && KeepsPages(data0, data, role0)
    {
      hide Owned;
      hide SameSpaces;
      hide SameElsewhere;
      hide KeepsPages;
      hide Extends;
      hide Dropped;
      DropRestores(ts0, free0, role0, role, c, n);
      ExtendedDirs(role0[c := Dir], role, c, 0, n);
      ghost var ts, was, pages := tables, role, data;
      Freevm(c);
      ElsewhereTrans(ts0, ts, tables, role0, was, c);
      ElsewhereAll(ts0, tables, role0, c);
      KeepsTrans(data0, pages, data, role0);
    }

    /** A new address space with the kernel's mappings, or no change to any. */
    method Setupkvm(kdata: nat) returns (r: Option<nat>)
      requires Valid() && LINKPAGE < kdata < STOPPAGE
      modifies this
      ensures Valid() && SameSpaces(old(tables), tables, old(role)) && KeepsPages(old(data), data, old(role))
      ensures r.None? ==> role == old(role)
      ensures r.Some? ==>
                r.value in old(role) && old(role)[r.value].Free?
                  && Extends(old(role)[r.value := Dir], role, r.value, 0, 0)
      ensures r.Some? ==> IsDir(r.value) && KernelPart(tables, r.value, kdata, 4)
      ensures |old(freelist)| <= NEWSPACE + if r.None? then 0 else |freelist|
    {
      hide Owned;
      hide SameElsewhere;
      hide SameSpaces;
      hide KeepsPages;
      hide Extends;
      hide KernelPart;
      hide MapView;
      hide MapRoles;
      hide Given;
      hide Dropped;
      hide Pte;
      hide Pde;
      hide Spanned;
      hide RowPages;
      SamePages(data, role);
      SpacesStart(tables, role);
      var page := Kalloc();
      if page.None? {
        return None;
      }
      var d := page.value;
      NewSpace(tables, freelist, old(role), d, kdata);
      tables := tables[d := EmptyTable()];
      role := role[d := Dir];
      ghost var role1 := role;
      RowsFit(kdata, 0);
      var j := 0;
      while j < 4
        invariant 0 <= j <= 4 && Valid() && IsDir(d) && data == old(data) && d in old(role) && old(role)[d].Free?
        invariant Extends(role1, role, d, 0, 0) && KernelPart(tables, d, kdata, j)
        invariant SameElsewhere(old(tables), tables, old(role), d)
        invariant |old(freelist)| <= |freelist| + RowPages(kdata, j)
      {
        var row := Kmap(kdata, j);
        GivenKernel(role, row.first, row.n, row.pa);
        ghost var ts, was := tables, role;
        var res, k := Mappages(d, row.first * PGSIZE, row.n * PGSIZE, row.pa, row.perm);
        ExtendKernel(role1, was, role, d, row.first, k, row.pa);
        ExtendedDirs(role1, was, d, 0, 0);
        MapElsewhere(ts, tables, was, d, row.first, k, row.pa, row.perm);
        ElsewhereTrans(old(tables), ts, tables, old(role), was, d);
        if res.Remap? {
          KernelAbsent(ts, d, kdata, j, k);
          assert false;
        }
        RowsFit(kdata, j + 1);
        SpanGrows(row.first, k, row.n);
        if res.NoMemory? {
          Abandon(d, 0, old(tables), old(freelist), old(role), old(data));
          return None;
        }
        KernelRow(ts, tables, was, d, kdata, j);
        j := j + 1;
      }
      ElsewhereAll(old(tables), tables, old(role), d);
      RowsFit(kdata, 4);
      return Some(d);
    }

    /** allocuvm's way out when memory is short: unmap what was added, and free the
        page not yet mapped, if any. */
    method UndoGrowth(d: nat, oldsz: nat, newsz: nat, mem: Option<nat>, ghost v: nat, ghost ts0: Tables,
                      ghost role0: map<nat, Role>, ghost data0: map<nat, Page>, ghost grown: map<nat, Page>)
      requires Valid() && IsDir(d) && oldsz < newsz < HEAPLIMIT && Up(oldsz) <= v <= Up(newsz)
      requires mem.Some? ==> mem.value in role && role[mem.value].Held? && mem.value in role0 && role0[mem.value].Free?
      requires d in role0 && role0[d].Dir? && forall f :: f in role0 && role0[f].User? && role0[f].d == d ==>
                 !(Up(oldsz) <= role0[f].v < Up(newsz))
      requires Grown(ts0, tables, role0, grown, d, Up(oldsz), v) && KeepsPages(data0, data, role0)
      requires Extends(role0, if mem.Some? then role[mem.value := Free] else role, d, Up(oldsz), v)
      modifies this
      ensures Valid() && IsDir(d) && KeepsPages(data0, data, role0)
      ensures Restored(ts0, tables, role0, d, Up(oldsz), Up(newsz)) && Extends(role0, role, d, 0, 0)
    {
      hide Owned;
      hide KeepsPages;
      hide Extends;
      hide Released;
      hide Unmapped;
      hide Unmapping;
      hide Grown;
      hide Restored;
      hide Pte;
      hide Pde;
      UpOrder(oldsz, newsz);
      UpOrder(newsz, HEAPLIMIT);
      ghost var lo, hi := Up(oldsz), Up(newsz);
      ghost var was, ts, pages := role, tables, data;
      ghost var back := if mem.Some? then role[mem.value := Free] else role;
      ExtendedDirs(role0, back, d, lo, v);
      var _ := Deallocuvm(d, newsz, oldsz);
      RestoreFailed(ts0, ts, tables, role0, was, role, grown, d, lo, v, hi);
      ReleaseExtended(role0, back, d, lo, v, hi);
      UnmapIsRelease(ts, tables, was, role, d, lo, hi);
      if mem.Some? {
        ReleaseThenFree(was, d, lo, hi, mem.value);
        KfreeHeld(tables, freelist, role, mem.value);
      }
      ExtendedUsers(role0, Released(back, d, lo, hi), d, 0, 0);
      KeepsFewer(pages, data, role0, role);
      KeepsTrans(data0, pages, data, role0);
      if mem.Some? {
        FilledPage(data0, data, role0, mem.value, JunkPage());
        Kfree(mem.value);
        role := role[mem.value := Free];
      }
    }

    /** Adds zeroed pages to grow the user part from oldsz to newsz bytes. If memory
        runs out the user mapping is what it was. */
    method Allocuvm(d: nat, oldsz: nat, newsz: nat) returns (sz: nat)
      requires Valid() && IsDir(d)
      requires newsz < HEAPLIMIT ==> forall w :: Up(oldsz) <= w < Up(newsz) ==> !Pte(tables, d, w).present
      modifies this
      ensures Valid() && IsDir(d) && KeepsPages(old(data), data, old(role))
      ensures newsz >= HEAPLIMIT || newsz < oldsz ==>
                sz == (if newsz >= HEAPLIMIT then 0 else oldsz) && tables == old(tables) && freelist == old(freelist)
                  && role == old(role)
      ensures oldsz <= newsz < HEAPLIMIT && sz == newsz ==>
                && Grown(old(tables), tables, old(role), data, d, Up(oldsz), Up(newsz))
                && Extends(old(role), role, d, Up(oldsz), Up(newsz))
      ensures oldsz <= newsz < HEAPLIMIT && sz != newsz ==>
                sz == 0 && Restored(old(tables), tables, old(role), d, Up(oldsz), Up(newsz))
                  && Extends(old(role), role, d, 0, 0)
      ensures oldsz <= newsz < HEAPLIMIT && sz != newsz ==> |old(freelist)| < 2 * (Up(newsz) - Up(oldsz))
    {
      hide Owned;
      hide KeepsPages;
      hide Extends;
      hide Released;
      hide Unmapped;
      hide Grown;
      hide Restored;
      hide MapView;
      hide MapRoles;
      hide Given;
      hide Pte;
      hide Pde;
      SamePages(data, role);
      if newsz >= HEAPLIMIT {
        return 0;
      }
      if newsz < oldsz {
        return oldsz;
      }
      UpOrder(oldsz, newsz);
      UpOrder(newsz, HEAPLIMIT);
      ghost var lo, hi := Up(oldsz), Up(newsz);
      NoneThere(tables, freelist, role, d, lo, hi);
      GrowStart(tables, role, data, d, lo);
      ExtendStart(role, d, lo, lo);
      var a := Up(oldsz);
      while a * PGSIZE < newsz
        invariant lo <= a <= hi && Valid() && IsDir(d) && KeepsPages(old(data), data, old(role))
        invariant Grown(old(tables), tables, old(role), data, d, lo, a) && Extends(old(role), role, d, lo, a)
        invariant |old(freelist)| <= |freelist| + 2 * (a - lo)
      {
        ghost var ts, was, was0 := tables, role, data;
        ExtendedDirs(old(role), role, d, lo, a);
        var mem := Kalloc();
        if mem.None? {
          UndoGrowth(d, oldsz, newsz, mem, a, old(tables), old(role), old(data), data);
          return 0;
        }
        ghost var free := freelist;
        FreshFrame(old(role), was, d, lo, a, mem.value);
        FilledPage(old(data), data, old(role), mem.value, ZeroPage());
        data := data[mem.value := ZeroPage()];
        GivenOne(role, a, mem.value);
        var res, k := Mappages(d, a * PGSIZE, PGSIZE, mem.value, PTE_W + PTE_U);
        if res.Remap? {
          GrowAbsent(old(tables), ts, old(role), was0, d, lo, a);
          assert false;
        }
        GrowStep(old(tables), ts, tables, free, old(role), was[mem.value := Held], was0, d, lo, a, k, mem.value);
        if res.NoMemory? {
          ExtendNothing(old(role), was, role, d, lo, a, mem.value);
          UndoGrowth(d, oldsz, newsz, mem, a, old(tables), old(role), old(data), data);
          return 0;
        }
        ExtendPage(old(role), was, role, d, lo, a, mem.value);
        a := a + 1;
      }
      return newsz;
    }

    /** A copy of the first sz bytes of the address space d, or no change to any
        address space. Dropping the copy gives back exactly the pages it took. A page
        that is absent below sz is a panic. */
    method Copyuvm(d: nat, sz: nat, kdata: nat) returns (r: Copy)
      requires Valid() && IsDir(d) && sz <= HEAPLIMIT && LINKPAGE < kdata < STOPPAGE
      modifies this
      ensures r.Absent? ==> exists w :: 0 <= w < Up(sz) && !Pte(old(tables), d, w).present
      ensures r.Made? ==> forall w :: 0 <= w < Up(sz) ==> Pte(old(tables), d, w).present
      ensures !r.Absent? ==>
                Valid() && SameSpaces(old(tables), tables, old(role)) && KeepsPages(old(data), data, old(role))
      ensures r.Short? ==> role == old(role) && |old(freelist)| <= NEWSPACE + 2 * Up(sz)
      ensures |old(freelist)| > NEWSPACE + 2 * Up(sz) ==>
                (r.Made? <==> forall w :: 0 <= w < Up(sz) ==> Pte(old(tables), d, w).present)
      ensures r.Made? ==> |old(freelist)| <= |freelist| + NEWSPACE + 2 * Up(sz)
      ensures r.Made? ==>
                && IsDir(r.c) && r.c in old(role) && old(role)[r.c].Free? && Dropped(role, r.c) == old(role)
                && Copied(tables, data, d, r.c, Up(sz), kdata)
    {
      hide Owned;
      hide SameSpaces;
      hide SameElsewhere;
      hide KeepsPages;
      hide Extends;
      hide KernelPart;
      hide Copied;
      hide Dropped;
      hide MapView;
      hide MapRoles;
      hide Given;
      hide Pte;
      hide Pde;
      var space := Setupkvm(kdata);
      if space.None? {
        return Short;
      }
      var c := space.value;
      UpOrder(sz, HEAPLIMIT);
      CopyStart(tables, data, d, c, kdata);
      ghost var n, role1 := Up(sz), old(role)[c := Dir];
      SpacesElsewhere(old(tables), tables, old(role), c);
      var i := 0;
      while i * PGSIZE < sz
        invariant 0 <= i <= n && Valid() && IsDir(c) && KeepsPages(old(data), data, old(role))
        invariant Extends(role1, role, c, 0, i) && Copied(tables, data, d, c, i, kdata)
        invariant SameElsewhere(old(tables), tables, old(role), c)
        invariant forall w :: 0 <= w < i ==> Pte(old(tables), d, w).present
        invariant |old(freelist)| <= |freelist| + NEWSPACE + 2 * i
      {
        ghost var ts, was := tables, role;
        ExtendedDirs(role1, role, c, 0, i);
        SourcePages(old(tables), tables, old(role), d, c, n);
        var pte := Pte(tables, d, i);
        if !pte.present {
          return Absent;
        }
        var mem := Kalloc();
        if mem.None? {
          Abandon(c, i, old(tables), old(freelist), old(role), old(data));
          return Short;
        }
        FreshFrame(role1, was, c, 0, i, mem.value);
        ghost var free, was0 := freelist, data;
        FilledPage(old(data), data, old(role), mem.value, PageOf(data, pte.frame));
        data := data[mem.value := PageOf(data, pte.frame)];
        GivenOne(role, i, mem.value);
        var res, k := Mappages(c, i * PGSIZE, PGSIZE, mem.value, pte.flags);
        MapElsewhere(ts, tables, was[mem.value := Held], c, i, k, mem.value, pte.flags);
        ElsewhereTrans(old(tables), ts, tables, old(role), was[mem.value := Held], c);
        if res.Remap? {
          CopyAbsent(ts, was0, d, c, i, kdata);
          assert false;
        }
        if res.NoMemory? {
          ExtendNothing(role1, was, role, c, 0, i, mem.value);
          KfreeHeld(tables, freelist, role, mem.value);
          FilledPage(old(data), data, old(role), mem.value, JunkPage());
          Kfree(mem.value);
          role := role[mem.value := Free];
          Abandon(c, i, old(tables), old(freelist), old(role), old(data));
          return Short;
        }
        CopyStep(ts, tables, free, was[mem.value := Held], was0, d, c, i, mem.value, kdata);
        ExtendPage(role1, was, role, c, 0, i, mem.value);
        i := i + 1;
      }
      DropRestores(old(tables), old(freelist), old(role), role, c, n);
      ElsewhereAll(old(tables), tables, old(role), c);
      return Made(c);
    }

    /** fork followed by the child's end: a copy of d is made and freed. Each page is
        back where it was, and the free list holds what it held. */
    method CopyAndFree(d: nat, sz: nat, kdata: nat) returns (r: Copy)
      requires Valid() && IsDir(d) && sz <= HEAPLIMIT && LINKPAGE < kdata < STOPPAGE
      modifies this
      ensures r.Absent? ==> exists w :: 0 <= w < Up(sz) && !Pte(old(tables), d, w).present
      ensures |old(freelist)| > NEWSPACE + 2 * Up(sz) ==>
                (r.Made? <==> forall w :: 0 <= w < Up(sz) ==> Pte(old(tables), d, w).present)
      ensures !r.Absent? ==>
                && Valid() && role == old(role) && multiset(freelist) == multiset(old(freelist))
                && SameSpaces(old(tables), tables, old(role)) && KeepsPages(old(data), data, old(role))
    {
      hide Owned;
      hide SameSpaces;
      hide SameElsewhere;
      hide KeepsPages;
      hide Copied;
      hide Dropped;
      hide Pte;
      r := Copyuvm(d, sz, kdata);
      if r.Absent? {
        return;
      }
      if r.Made? {
        ghost var ts, was, pages := tables, role, data;
        SpacesElsewhere(old(tables), tables, old(role), r.c);
        DroppedDirBack(was, old(role), r.c);
        Freevm(r.c);
        ElsewhereTrans(old(tables), ts, tables, old(role), was, r.c);
        ElsewhereAll(old(tables), tables, old(role), r.c);
        KeepsTrans(old(data), pages, data, old(role));
      }
      FreeSetRestored(old(tables), old(freelist), tables, freelist, role);
    }
  }
}

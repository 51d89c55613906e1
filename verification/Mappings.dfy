/** What unmapping, mapping and dropping do to page tables and to page ownership,
    as relations between two states (vm.c). */
module Mappings {
  import opened PageTables

  // --------------------------------------------------------------- unmapping

  /** The pages of d in lo..hi-1 go back to the free list. */
  ghost function Released(role: map<nat, Role>, d: nat, lo: nat, hi: nat): map<nat, Role> {
    map f | f in role :: if role[f].User? && role[f].d == d && lo <= role[f].v < hi then Free else role[f]
  }

  /** Pages lo..hi-1 of directory d, and nothing else, have been unmapped. */
  ghost predicate Unmapping(ts: Tables, ts': Tables, role: map<nat, Role>, role': map<nat, Role>, d: nat, lo: nat,
                            hi: nat) {
    && role' == Released(role, d, lo, hi)
    && (forall x, i :: x in role && role[x].Dir? ==> Pde(ts', x, i) == Pde(ts, x, i))
    && (forall x, w :: x in role && role[x].Dir? && 0 <= w < ALLPAGES ==>
                         Pte(ts', x, w) == if x == d && lo <= w < hi && Pte(ts, x, w).present then NONE
                           else Pte(ts, x, w))
  }

  /** Unmapping page by page, each freed frame pushed on the free list. */
  function Unmapped(ts: Tables, freelist: seq<nat>, d: nat, v: nat, hi: nat): (Tables, seq<nat>)
    decreases hi - v
  {
    if v >= hi then (ts, freelist)
    else if Pte(ts, d, v).present then
      Unmapped(Stored(ts, d, v, NONE), [Pte(ts, d, v).frame] + freelist, d, v + 1, hi)
    else Unmapped(ts, freelist, d, v + 1, hi)
  }

  /** A run of absent pages can be skipped. */
  lemma {:induction false} SkipAbsent(ts: Tables, freelist: seq<nat>, d: nat, v: nat, w: nat, hi: nat)
    requires v <= w <= hi && forall x: nat :: v <= x < w ==> !Pte(ts, d, x).present
    ensures Unmapped(ts, freelist, d, v, hi) == Unmapped(ts, freelist, d, w, hi)
    decreases w - v
  {
    hide Pte;
    if v < w {
      SkipAbsent(ts, freelist, d, v + 1, w, hi);
    }
  }

  /** Without its table, a directory entry's pages are all absent. */
  lemma AbsentDirectory(ts: Tables, d: nat, v: nat, w: nat)
    requires !Pde(ts, d, v / NPT).present && v <= w < (v / NPT + 1) * NPT
    ensures !Pte(ts, d, w).present
  {
    assert w / NPT == v / NPT;
  }

  lemma UnmapStart(ts: Tables, role: map<nat, Role>, d: nat, lo: nat)
    ensures Unmapping(ts, ts, role, role, d, lo, lo)
  {
    hide Pte;
    hide Pde;
    assert Released(role, d, lo, lo) == role;
  }

  lemma UnmapOne(ts0: Tables, ts: Tables, freelist: seq<nat>, role0: map<nat, Role>, role: map<nat, Role>, d: nat,
                 lo: nat, v: nat)
    requires Unmapping(ts0, ts, role0, role, d, lo, v) && Owned(ts, freelist, role, 0, 0)
    requires d in role0 && role0[d].Dir? && lo <= v < USERPAGES && Pte(ts, d, v).present
    ensures var f := Pte(ts, d, v).frame;
            f in role && Unmapping(ts0, Stored(ts, d, v, NONE), role0, role[f := Free], d, lo, v + 1)
  {
    hide Stored;
    hide Pte;
    hide Pde;
    hide TablesOwned;
    hide FreeListed;
    UnmapUser(ts, freelist, role, d, v);
    var f := Pte(ts, d, v).frame;
    var role' := role[f := Free];
    forall g | g in role0
      ensures role'[g] == Released(role0, d, lo, v + 1)[g]
    {
      SoleOwner(ts, role, d, v, g);
    }
    assert role' == Released(role0, d, lo, v + 1);
  }

  /** A frame owned by page v of d is the one its entry names. */
  lemma SoleOwner(ts: Tables, role: map<nat, Role>, d: nat, v: nat, g: nat)
    requires UsersOwned(ts, role, 0, 0)
    ensures g in role && role[g] == User(d, v) ==> Pte(ts, d, v).present && Pte(ts, d, v).frame == g
  {
    hide Pte;
  }

  lemma UnmapNext(ts: Tables, freelist: seq<nat>, d: nat, v: nat, hi: nat)
    requires v < hi && Pte(ts, d, v).present
    ensures Unmapped(ts, freelist, d, v, hi) ==
              Unmapped(Stored(ts, d, v, NONE), [Pte(ts, d, v).frame] + freelist, d, v + 1, hi)
  {
    hide Pte;
    hide Stored;
  }

  lemma UnmapPast(ts: Tables, freelist: seq<nat>, d: nat, v: nat, hi: nat)
    requires v >= hi
    ensures Unmapped(ts, freelist, d, v, hi) == (ts, freelist)
  {
  }

  lemma UnmapAbsent(ts0: Tables, ts: Tables, role0: map<nat, Role>, role: map<nat, Role>, d: nat, lo: nat, v: nat,
                    w: nat)
    requires Unmapping(ts0, ts, role0, role, d, lo, v) && UsersOwned(ts, role, 0, 0) && lo <= v <= w <= USERPAGES
    requires d in role0 && role0[d].Dir?
    requires forall x: nat :: v <= x < w ==> !Pte(ts, d, x).present
    ensures Unmapping(ts0, ts, role0, role, d, lo, w)
  {
    hide Pte;
    hide Pde;
    forall g | g in role0
      ensures role[g] == Released(role0, d, lo, w)[g]
    {
    }
    assert role == Released(role0, d, lo, w);
  }

  /** The rest of a directory entry without a table, or one absent page, is skipped. */
  lemma UnmapSkip(ts0: Tables, ts: Tables, freelist: seq<nat>, role0: map<nat, Role>, role: map<nat, Role>, d: nat,
                  lo: nat, v: nat, hi: nat)
    requires Unmapping(ts0, ts, role0, role, d, lo, v) && Owned(ts, freelist, role, 0, 0) && lo <= v < hi <= USERPAGES
    requires d in role0 && role0[d].Dir? && !(Pde(ts, d, v / NPT).present && Pte(ts, d, v).present)
    ensures var next := if Pde(ts, d, v / NPT).present then v + 1 else (v / NPT + 1) * NPT;
            var w := if next < hi then next else hi;
            && Unmapping(ts0, ts, role0, role, d, lo, w)
            && Unmapped(ts, freelist, d, v, hi) == Unmapped(ts, freelist, d, w, hi)
  {
    hide Unmapping;
    hide UsersOwned;
    hide TablesOwned;
    hide Pte;
    hide Pde;
    hide Unmapped;
    var next := if Pde(ts, d, v / NPT).present then v + 1 else (v / NPT + 1) * NPT;
    var w := if next < hi then next else hi;
    forall x: nat | v <= x < w
      ensures !Pte(ts, d, x).present
    {
      if !Pde(ts, d, v / NPT).present {
        AbsentDirectory(ts, d, v, x);
      }
    }
    SkipAbsent(ts, freelist, d, v, w, hi);
    UnmapAbsent(ts0, ts, role0, role, d, lo, v, w);
  }

  // ----------------------------------------------------------------- mapping

  predicate MapRole(r: Role, r': Role, d: nat, first: nat, k: nat, pa: nat, f: nat) {
    if pa <= f < pa + k && first + (f - pa) < USERPAGES then r.Held? && r' == User(d, first + (f - pa))
    else r' == r || (r.Free? && r'.Table? && r'.d == d)
  }

  ghost predicate MapRoles(role: map<nat, Role>, role': map<nat, Role>, d: nat, first: nat, k: nat, pa: nat) {
    role'.Keys == role.Keys && forall f :: f in role ==> MapRole(role[f], role'[f], d, first, k, pa, f)
  }

  /** Pages first..first+k-1 of directory d, absent before, now name the frames from
      pa on; tables were added to d where needed; nothing else has changed. */
  ghost predicate MapView(ts: Tables, ts': Tables, role: map<nat, Role>, d: nat, first: nat, k: nat, pa: nat,
                          perm: nat) {
    && (forall x, i :: x in role && role[x].Dir? && (x != d || Pde(ts, x, i).present) ==>
          Pde(ts', x, i) == Pde(ts, x, i))
    && (forall x, w :: x in role && role[x].Dir? && 0 <= w < ALLPAGES ==>
                         Pte(ts', x, w) == if x == d && first <= w < first + k then Entry(true, pa + (w - first), perm)
                           else Pte(ts, x, w))
    && (forall w :: first <= w < first + k ==> !Pte(ts, d, w).present)
  }

  /** The kernel holds the frames that user pages in the range are to own. */
  ghost predicate Given(role: map<nat, Role>, first: nat, n: nat, pa: nat) {
    forall f :: pa <= f < pa + n && first + (f - pa) < USERPAGES ==> f in role && role[f].Held?
  }

  lemma MapStart(ts: Tables, role: map<nat, Role>, d: nat, first: nat, pa: nat, perm: nat)
    ensures MapRoles(role, role, d, first, 0, pa) && MapView(ts, ts, role, d, first, 0, pa, perm)
  {
    hide Pte;
    hide Pde;
  }

  /** A page past those mapped is as it was. */
  lemma MapAbsent(ts0: Tables, ts: Tables, role0: map<nat, Role>, d: nat, first: nat, k: nat, pa: nat, perm: nat)
    requires MapView(ts0, ts, role0, d, first, k, pa, perm) && d in role0 && role0[d].Dir? && first + k < ALLPAGES
    ensures Pte(ts, d, first + k) == Pte(ts0, d, first + k)
  {
    hide Pte;
    hide Pde;
  }

  lemma MapTable(ts0: Tables, ts: Tables, freelist: seq<nat>, role0: map<nat, Role>, role: map<nat, Role>,
                 d: nat, first: nat, k: nat, pa: nat, perm: nat, i: nat)
    requires MapRoles(role0, role, d, first, k, pa) && MapView(ts0, ts, role0, d, first, k, pa, perm)
    requires Owned(ts, freelist, role, 0, 0) && freelist != [] && d in role0 && role0[d].Dir? && i < NPT
             && !Pde(ts, d, i).present
    ensures d in ts && i < |ts[d]| && freelist[0] in role && role[freelist[0]].Free?
    ensures var f, ts', role' := freelist[0], WithTable(ts, d, i, freelist[0]), role[freelist[0] := Table(d, i)];
            && Owned(ts', freelist[1..], role', 0, 0) && TableView(ts, ts', role, d, i, f)
            && MapRoles(role0, role', d, first, k, pa) && MapView(ts0, ts', role0, d, first, k, pa, perm)
  {
    hide TablesOwned;
    hide UsersOwned;
    hide FreeListed;
    hide Pte;
    hide Pde;
    hide WithTable;
    var f := freelist[0];
    KallocOwned(ts, freelist, role, 0, 0);
    SameDirs(role0, role, d, first, k, pa);
    AddTable(ts, freelist[1..], role[f := Held], d, i, f);
    assert role[f := Held][f := Table(d, i)] == role[f := Table(d, i)];
  }

  lemma SameDirs(role0: map<nat, Role>, role: map<nat, Role>, d: nat, first: nat, k: nat, pa: nat)
    requires MapRoles(role0, role, d, first, k, pa)
    ensures forall x :: x in role0 && role0[x].Dir? <==> x in role && role[x].Dir?
  {
    forall x | x in role0 || x in role
      ensures x in role0 && role0[x].Dir? <==> x in role && role[x].Dir?
    {
      assert x in role.Keys && x in role0.Keys;
    }
  }

  lemma MapUserPage(ts0: Tables, ts: Tables, freelist: seq<nat>, role0: map<nat, Role>, role: map<nat, Role>,
                    d: nat, first: nat, k: nat, pa: nat, perm: nat)
    requires MapRoles(role0, role, d, first, k, pa) && MapView(ts0, ts, role0, d, first, k, pa, perm)
    requires Owned(ts, freelist, role, 0, 0) && d in role0 && role0[d].Dir? && Given(role0, first, k + 1, pa)
    requires first + k < USERPAGES && Pde(ts, d, (first + k) / NPT).present && !Pte(ts, d, first + k).present
    ensures pa + k in role && role[pa + k].Held?
    ensures var ts', role' := Stored(ts, d, first + k, Entry(true, pa + k, perm)), role[pa + k := User(d, first + k)];
            && Owned(ts', freelist, role', 0, 0) && Pde(ts', d, (first + k) / NPT).present
            && MapRoles(role0, role', d, first, k + 1, pa) && MapView(ts0, ts', role0, d, first, k + 1, pa, perm)
  {
    hide TablesOwned;
    hide UsersOwned;
    hide FreeListed;
    hide Pte;
    hide Pde;
    hide Stored;
    SameDirs(role0, role, d, first, k, pa);
    assert pa + k in role0 && role0[pa + k].Held?;
    assert pa + k in role.Keys;
    MapUser(ts, freelist, role, d, first + k, pa + k, perm);
  }

  lemma MapKernelPage(ts0: Tables, ts: Tables, freelist: seq<nat>, role0: map<nat, Role>, role: map<nat, Role>,
                      d: nat, first: nat, k: nat, pa: nat, perm: nat)
    requires MapRoles(role0, role, d, first, k, pa) && MapView(ts0, ts, role0, d, first, k, pa, perm)
    requires Owned(ts, freelist, role, 0, 0) && d in role0 && role0[d].Dir?
    requires USERPAGES <= first + k < ALLPAGES && Pde(ts, d, (first + k) / NPT).present
             && !Pte(ts, d, first + k).present
    ensures var ts' := Stored(ts, d, first + k, Entry(true, pa + k, perm));
            && Owned(ts', freelist, role, 0, 0) && Pde(ts', d, (first + k) / NPT).present
            && MapRoles(role0, role, d, first, k + 1, pa) && MapView(ts0, ts', role0, d, first, k + 1, pa, perm)
  {
    hide TablesOwned;
    hide UsersOwned;
    hide FreeListed;
    hide Pte;
    hide Pde;
    hide Stored;
    SameDirs(role0, role, d, first, k, pa);
    MapKernel(ts, freelist, role, d, first + k, Entry(true, pa + k, perm));
  }

  // ---------------------------------------------------------------- dropping

  /** No page of d is mapped and its first i tables are free. */
  ghost function DroppedTables(role: map<nat, Role>, d: nat, i: nat): map<nat, Role> {
    map f | f in role ::
      if (role[f].User? && role[f].d == d) || (role[f].Table? && role[f].d == d && role[f].i < i) then Free else role[f]
  }

  /** Every page of the address space d is free: its user pages, tables and directory. */
  ghost function Dropped(role: map<nat, Role>, d: nat): map<nat, Role> {
    map f | f in role ::
      if f == d || (role[f].User? && role[f].d == d) || (role[f].Table? && role[f].d == d) then Free else role[f]
  }

  lemma UnmapRoles(ts: Tables, ts': Tables, role: map<nat, Role>, role': map<nat, Role>, d: nat)
    requires Unmapping(ts, ts', role, role', d, 0, USERPAGES)
    requires forall f :: f in role && role[f].User? ==> role[f].v < USERPAGES
    ensures role' == DroppedTables(role, d, 0)
  {
    hide Pte;
    hide Pde;
  }

  lemma OwnedTables(ts: Tables, freelist: seq<nat>, role: map<nat, Role>)
    requires Owned(ts, freelist, role, 0, 0)
    ensures forall f :: f in role && role[f].Table? ==> role[f].i < NPT
    ensures forall f :: f in role && role[f].User? ==> role[f].v < USERPAGES
  {
    hide Pte;
    hide Pde;
    hide FreeListed;
  }

  lemma NothingGone(ts: Tables, freelist: seq<nat>, role: map<nat, Role>, d: nat)
    requires Owned(ts, freelist, role, 0, 0)
    ensures Owned(ts, freelist, role, d, 0)
  {
    hide Pte;
    hide Pde;
    hide FreeListed;
  }

  lemma DropOne(ts: Tables, freelist: seq<nat>, role0: map<nat, Role>, role: map<nat, Role>, d: nat, i: nat)
    requires role == DroppedTables(role0, d, i) && Owned(ts, freelist, role, d, i) && i < NPT && d in role
             && role[d].Dir?
    ensures Pde(ts, d, i).present ==>
              Pde(ts, d, i).frame in role && role[Pde(ts, d, i).frame := Free] == DroppedTables(role0, d, i + 1)
    ensures !Pde(ts, d, i).present ==> role == DroppedTables(role0, d, i + 1)
    ensures NoUsers(role, d)
  {
    hide Pte;
    hide Pde;
    hide UsersOwned;
    hide FreeListed;
    assert TableRole(ts, role, d, i);
  }

  lemma DropEnd(role0: map<nat, Role>, role: map<nat, Role>, d: nat)
    requires role == DroppedTables(role0, d, NPT) && d in role
    requires forall f :: f in role0 && role0[f].Table? ==> role0[f].i < NPT
    ensures role[d := Free] == Dropped(role0, d) && NoUsers(role, d)
  {
  }

  /** Unmapping the user part of d leaves the other directories as they were. */
  lemma UnmapElsewhere(ts: Tables, ts': Tables, role: map<nat, Role>, role': map<nat, Role>, d: nat, lo: nat, hi: nat)
    requires Unmapping(ts, ts', role, role', d, lo, hi)
    ensures SameElsewhere(ts, ts', role, d)
  {
    hide Pte;
    hide Pde;
  }

  lemma ElsewhereTrans(ts0: Tables, ts1: Tables, ts2: Tables, role0: map<nat, Role>, role1: map<nat, Role>, d: nat)
    requires SameElsewhere(ts0, ts1, role0, d) && SameElsewhere(ts1, ts2, role1, d)
    requires forall x :: x in role0 && role0[x].Dir? && x != d ==> x in role1 && role1[x].Dir?
    ensures SameElsewhere(ts0, ts2, role0, d)
  {
    hide Pte;
    hide Pde;
  }

  lemma DroppedDirs(role: map<nat, Role>, d: nat, i: nat)
    ensures forall x :: x in role && role[x].Dir? ==>
              x in DroppedTables(role, d, i) && DroppedTables(role, d, i)[x].Dir?
  {
  }

  // ----------------------------------------------------------------- growing

  /** Free pages have become tables of d, or user pages lo..hi-1 of d; no other
      page has changed hands. */
  ghost predicate Extends(role: map<nat, Role>, role': map<nat, Role>, d: nat, lo: nat, hi: nat) {
    role'.Keys == role.Keys && forall f :: f in role ==> ExtendRole(role[f], role'[f], d, lo, hi)
  }

  predicate ExtendRole(r: Role, r': Role, d: nat, lo: nat, hi: nat) {
    r' == r || (r.Free? && ((r'.Table? && r'.d == d) || (r'.User? && r'.d == d && lo <= r'.v < hi)))
  }

  lemma ExtendStart(role: map<nat, Role>, d: nat, lo: nat, hi: nat)
    ensures Extends(role, role, d, lo, hi)
  {
  }

  /** One more user page, from a frame just allocated. */
  lemma ExtendPage(role0: map<nat, Role>, role: map<nat, Role>, role': map<nat, Role>, d: nat, lo: nat, v: nat, f: nat)
    requires Extends(role0, role, d, lo, v) && f in role && role[f].Free? && lo <= v < USERPAGES
    requires MapRoles(role[f := Held], role', d, v, 1, f)
    ensures Extends(role0, role', d, lo, v + 1)
  {
    forall g | g in role0
      ensures g in role' && ExtendRole(role0[g], role'[g], d, lo, v + 1)
    {
      assert g in role.Keys && g in role[f := Held].Keys;
    }
    assert role'.Keys == role0.Keys;
  }

  /** A frame allocated and freed again, with tables added in between. */
  lemma ExtendNothing(role0: map<nat, Role>, role: map<nat, Role>, role': map<nat, Role>, d: nat, lo: nat, v: nat,
                      f: nat)
    requires Extends(role0, role, d, lo, v) && f in role && role[f].Free?
    requires MapRoles(role[f := Held], role', d, v, 0, f)
    ensures f in role' && role'[f].Held? && Extends(role0, role'[f := Free], d, lo, v)
  {
    forall g | g in role0
      ensures g in role' && ExtendRole(role0[g], role'[f := Free][g], d, lo, v)
    {
      assert g in role.Keys && g in role[f := Held].Keys;
    }
    assert role'.Keys == role0.Keys;
  }

  /** Mappings above the user part only add tables. */
  lemma ExtendKernel(role0: map<nat, Role>, role: map<nat, Role>, role': map<nat, Role>, d: nat, first: nat, k: nat,
                     pa: nat)
    requires Extends(role0, role, d, 0, 0) && MapRoles(role, role', d, first, k, pa) && first >= USERPAGES
    ensures Extends(role0, role', d, 0, 0)
  {
    forall g | g in role0
      ensures g in role' && ExtendRole(role0[g], role'[g], d, 0, 0)
    {
      assert g in role.Keys;
    }
    assert role'.Keys == role0.Keys;
  }

  /** Releasing the pages added leaves only the added tables. */
  lemma ReleaseExtended(role0: map<nat, Role>, role: map<nat, Role>, d: nat, lo: nat, v: nat, hi: nat)
    requires Extends(role0, role, d, lo, v) && v <= hi
    requires forall f :: f in role0 && role0[f].User? && role0[f].d == d ==> !(lo <= role0[f].v < hi)
    ensures Extends(role0, Released(role, d, lo, hi), d, 0, 0)
  {
    var role' := Released(role, d, lo, hi);
    forall g | g in role0
      ensures g in role' && ExtendRole(role0[g], role'[g], d, 0, 0)
    {
      assert g in role.Keys;
    }
    assert role'.Keys == role0.Keys;
  }

  /** Dropping a new address space gives every one of its pages back. */
  lemma DropRestores(ts: Tables, freelist: seq<nat>, role0: map<nat, Role>, role: map<nat, Role>, d: nat, hi: nat)
    requires Owned(ts, freelist, role0, 0, 0) && d in role0 && role0[d].Free?
             && Extends(role0[d := Dir], role, d, 0, hi)
    ensures d in role && role[d].Dir? && Dropped(role, d) == role0
  {
    hide Pte;
    hide Pde;
    hide FreeListed;
    assert d in role0[d := Dir].Keys;
    forall g | g in role0
      ensures g in role && Dropped(role, d)[g] == role0[g]
    {
      assert g in role0[d := Dir].Keys;
    }
    assert Dropped(role, d).Keys == role0.Keys by {
      assert role0[d := Dir].Keys == role0.Keys;
    }
    assert Dropped(role, d) == role0;
  }

  // --------------------------------------------------------- the kernel's part

  const KERNPAGE: nat := 0x80000        // KERNBASE
  const LINKPAGE: nat := 0x80100        // KERNLINK: KERNBASE + EXTMEM
  const STOPPAGE: nat := 0x8E000        // KERNBASE + PHYSTOP
  const DEVPAGE: nat := 0xFE000         // DEVSPACE

  /** The entry every address space has for page w at or above HEAPLIMIT before any
      shared segment is attached; data is the page of the kernel's first data page. */
  function KernelEntry(data: nat, w: nat): (e: Entry)
    ensures e.present <==> KERNPAGE <= w < STOPPAGE || DEVPAGE <= w
    ensures e.present ==> e.frame == if w < STOPPAGE then w - KERNPAGE else w
    ensures e.present ==> e.flags == if LINKPAGE <= w < data && w < STOPPAGE then 0 else PTE_W
  {
    if DEVPAGE <= w then Entry(true, w, PTE_W)
    else if KERNPAGE <= w < STOPPAGE then Entry(true, w - KERNPAGE, if LINKPAGE <= w < data then 0 else PTE_W)
    else NONE
  }

  datatype Range = Range(first: nat, n: nat, pa: nat, perm: nat)

  /** The rows of kmap, in pages. */
  function Kmap(data: nat, j: nat): Range
    requires LINKPAGE < data < STOPPAGE
  {
    if j == 0 then Range(KERNPAGE, LINKPAGE - KERNPAGE, 0, PTE_W)
    else if j == 1 then Range(LINKPAGE, data - LINKPAGE, LINKPAGE - KERNPAGE, 0)
    else if j == 2 then Range(data, STOPPAGE - data, data - KERNPAGE, PTE_W)
    else Range(DEVPAGE, ALLPAGES - DEVPAGE, DEVPAGE, PTE_W)
  }

  /** The first j rows of kmap are mapped in d, and nothing else. */
  ghost predicate KernelPart(ts: Tables, d: nat, data: nat, j: nat)
    requires LINKPAGE < data < STOPPAGE
  {
    forall w :: 0 <= w < ALLPAGES ==>
                  Pte(ts, d, w) == if j < 4 && w >= Kmap(data, j).first then NONE else KernelEntry(data, w)
  }

  lemma KernelRow(ts: Tables, ts': Tables, role: map<nat, Role>, d: nat, data: nat, j: nat)
    requires LINKPAGE < data < STOPPAGE && j < 4 && d in role && role[d].Dir? && KernelPart(ts, d, data, j)
    requires var row := Kmap(data, j); MapView(ts, ts', role, d, row.first, row.n, row.pa, row.perm)
    ensures KernelPart(ts', d, data, j + 1)
  {
    hide Pte;
    hide Pde;
  }

  /** The rows of kmap do not overlap: the page at which a row stops is absent. */
  lemma KernelAbsent(ts: Tables, d: nat, data: nat, j: nat, k: nat)
    requires LINKPAGE < data < STOPPAGE && j < 4 && KernelPart(ts, d, data, j) && k < Kmap(data, j).n
    ensures !Pte(ts, d, Kmap(data, j).first + k).present
  {
    hide Pte;
  }

  lemma EmptyKernelPart(ts: Tables, d: nat, data: nat)
    requires LINKPAGE < data < STOPPAGE && EmptyDir(ts, d)
    ensures KernelPart(ts, d, data, 0)
  {
    hide Pde;
  }

  lemma MapElsewhere(ts: Tables, ts': Tables, role: map<nat, Role>, d: nat, first: nat, k: nat, pa: nat, perm: nat)
    requires MapView(ts, ts', role, d, first, k, pa, perm)
    ensures SameElsewhere(ts, ts', role, d)
  {
    hide Pte;
    hide Pde;
  }

  /** Every directory of role sees the same entries in ts and ts'. */
  ghost predicate SameSpaces(ts: Tables, ts': Tables, role: map<nat, Role>) {
    && (forall x, i :: x in role && role[x].Dir? ==> Pde(ts', x, i) == Pde(ts, x, i))
    && (forall x, w :: x in role && role[x].Dir? && 0 <= w < ALLPAGES ==> Pte(ts', x, w) == Pte(ts, x, w))
  }

  lemma ElsewhereAll(ts: Tables, ts': Tables, role: map<nat, Role>, d: nat)
    requires SameElsewhere(ts, ts', role, d) && (d in role ==> !role[d].Dir?)
    ensures SameSpaces(ts, ts', role)
  {
    hide Pte;
    hide Pde;
  }

  lemma SpacesElsewhere(ts: Tables, ts': Tables, role: map<nat, Role>, d: nat)
    requires SameSpaces(ts, ts', role)
    ensures SameElsewhere(ts, ts', role, d)
  {
    hide Pte;
    hide Pde;
  }

  lemma SpacesStart(ts: Tables, role: map<nat, Role>)
    ensures SameSpaces(ts, ts, role)
  {
    hide Pte;
    hide Pde;
  }

  /** A free page becomes an empty directory. */
  lemma NewSpace(ts: Tables, freelist: seq<nat>, role: map<nat, Role>, d: nat, data: nat)
    requires LINKPAGE < data < STOPPAGE && d in role && role[d].Free?
    requires Owned(ts, freelist, role[d := Held], 0, 0)
    ensures var ts', role' := ts[d := EmptyTable()], role[d := Dir];
            && Owned(ts', freelist, role[d := Held][d := Dir], 0, 0) && role[d := Held][d := Dir] == role'
            && SameElsewhere(ts, ts', role, d) && KernelPart(ts', d, data, 0) && Extends(role', role', d, 0, 0)
  {
    hide Owned;
    hide Pte;
    hide Pde;
    hide EmptyDir;
    hide KernelPart;
    NewDir(ts, freelist, role[d := Held], d);
    EmptyKernelPart(ts[d := EmptyTable()], d, data);
  }

  lemma GivenKernel(role: map<nat, Role>, first: nat, n: nat, pa: nat)
    requires first >= USERPAGES
    ensures Given(role, first, n, pa)
  {
  }

  lemma ExtendedDirs(role0: map<nat, Role>, role: map<nat, Role>, d: nat, lo: nat, hi: nat)
    requires Extends(role0, role, d, lo, hi)
    ensures forall x :: x in role0 && role0[x].Dir? ==> x in role && role[x].Dir?
  {
    forall x | x in role0 && role0[x].Dir?
      ensures x in role && role[x].Dir?
    {
      assert x in role0.Keys;
    }
  }

  lemma FreshFrame(role0: map<nat, Role>, role: map<nat, Role>, d: nat, lo: nat, hi: nat, f: nat)
    requires Extends(role0, role, d, lo, hi) && f in role && role[f].Free?
    ensures f in role0 && role0[f].Free?
  {
    assert f in role0.Keys;
  }

  lemma ExtendedUsers(role0: map<nat, Role>, role: map<nat, Role>, d: nat, lo: nat, hi: nat)
    requires Extends(role0, role, d, lo, hi)
    ensures forall f :: f in role0 && role0[f].User? ==> f in role && role[f] == role0[f]
  {
    forall f | f in role0 && role0[f].User?
      ensures f in role && role[f] == role0[f]
    {
      assert f in role0.Keys;
    }
  }

  lemma GivenOne(role: map<nat, Role>, v: nat, f: nat)
    requires f in role && role[f].Held?
    ensures Given(role, v, 1, f)
  {
  }

  lemma NoneThere(ts: Tables, freelist: seq<nat>, role: map<nat, Role>, d: nat, lo: nat, hi: nat)
    requires Owned(ts, freelist, role, 0, 0) && forall w :: lo <= w < hi ==> !Pte(ts, d, w).present
    ensures forall f :: f in role && role[f].User? && role[f].d == d ==> !(lo <= role[f].v < hi)
  {
    hide Pte;
    hide Pde;
    hide TablesOwned;
    hide FreeListed;
  }

  lemma UnmapIsRelease(ts: Tables, ts': Tables, role: map<nat, Role>, role': map<nat, Role>, d: nat, lo: nat, hi: nat)
    requires Unmapping(ts, ts', role, role', d, lo, hi)
    ensures role' == Released(role, d, lo, hi)
    ensures forall f :: f in role && !role[f].User? ==> f in role' && role'[f] == role[f]
  {
    hide Pte;
    hide Pde;
  }

  lemma ReleaseThenFree(role: map<nat, Role>, d: nat, lo: nat, hi: nat, f: nat)
    requires f in role && role[f].Held?
    ensures Released(role, d, lo, hi)[f := Free] == Released(role[f := Free], d, lo, hi)
  {
  }

  lemma {:induction false} ListedOnce(freelist: seq<nat>, f: nat)
    requires forall i, j :: 0 <= i < j < |freelist| ==> freelist[i] != freelist[j]
    ensures multiset(freelist)[f] == if f in freelist then 1 else 0
  {
    if freelist != [] {
      ListedOnce(freelist[1..], f);
      assert freelist == [freelist[0]] + freelist[1..];
    }
  }

  /** The roles of the pages determine the free list up to its order. */
  lemma FreeSetRestored(ts: Tables, freelist: seq<nat>, ts': Tables, freelist': seq<nat>, role: map<nat, Role>)
    requires Owned(ts, freelist, role, 0, 0) && Owned(ts', freelist', role, 0, 0)
    ensures multiset(freelist) == multiset(freelist')
  {
    hide TablesOwned;
    hide UsersOwned;
    forall f: nat
      ensures multiset(freelist)[f] == multiset(freelist')[f]
    {
      ListedOnce(freelist, f);
      ListedOnce(freelist', f);
    }
  }
}

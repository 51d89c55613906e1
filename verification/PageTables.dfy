/** Two-level page tables and the ownership of physical pages (vm.c, kalloc.c).
    Pages are numbered: a virtual page number v is va / 4096, its directory index
    v / 1024 and its table index v % 1024. */
module PageTables {

  const NPT: nat := 1024                 // entries per directory and per table
  const USERPAGES: nat := 0x7F000        // HEAPLIMIT / 4096: pages below own their frames
  const ALLPAGES: nat := 0x100000
  const PTE_W: nat := 2
  const PTE_U: nat := 4

  datatype Entry = Entry(present: bool, frame: nat, flags: nat)

  const NONE: Entry := Entry(false, 0, 0)

  /** The contents of the frames in use as directories or tables. */
  type Tables = map<nat, seq<Entry>>

  /** What a physical page is used for. Held pages belong to kernel code: stacks,
      pipes, shared segments, or a page just allocated. */
  datatype Role = Free | Held | Dir | Table(d: nat, i: nat) | User(d: nat, v: nat)

  function EmptyTable(): (t: seq<Entry>)
    ensures |t| == NPT && forall k :: 0 <= k < NPT ==> t[k] == NONE
  {
    seq(NPT, _ => NONE)
  }

  function Pde(ts: Tables, d: nat, i: nat): Entry {
    if d in ts && i < |ts[d]| then ts[d][i] else NONE
  }

  /** The entry for page v of directory d: what walkpgdir finds without allocating. */
  function Pte(ts: Tables, d: nat, v: nat): Entry {
    var e := Pde(ts, d, v / NPT);
    if e.present then Pde(ts, e.frame, v % NPT) else NONE
  }

  predicate Gone(gd: nat, gone: nat, d: nat, i: nat) { d == gd && i < gone }

  /** Page tables and directories are whole pages with the roles they need. The
      first `gone` tables of directory gd, which freevm has freed, are exempt. */
  ghost predicate TablesOwned(ts: Tables, role: map<nat, Role>, gd: nat, gone: nat) {
    && (forall d :: d in role && role[d].Dir? ==> d in ts && |ts[d]| == NPT)
    && (forall f :: f in role && role[f].Table? ==>
                      && f in ts && |ts[f]| == NPT && !Gone(gd, gone, role[f].d, role[f].i) && role[f].i < NPT
                      && role[f].d in role && role[role[f].d].Dir?
                      && Pde(ts, role[f].d, role[f].i).present && Pde(ts, role[f].d, role[f].i).frame == f)
    && (forall d, i :: d in role && role[d].Dir? && 0 <= i < NPT && !Gone(gd, gone, d, i) ==> TableRole(ts, role, d, i))
  }

  predicate TableRole(ts: Tables, role: map<nat, Role>, d: nat, i: nat) {
    var e := Pde(ts, d, i);
    e.present ==> e.frame in role && role[e.frame] == Table(d, i)
  }

  /** Each present user entry owns its frame, and no frame has two owners. */
  ghost predicate UsersOwned(ts: Tables, role: map<nat, Role>, gd: nat, gone: nat) {
    && (forall f :: f in role && role[f].User? ==>
                      && role[f].v < USERPAGES && role[f].d in role && role[role[f].d].Dir?
                      && !Gone(gd, gone, role[f].d, role[f].v / NPT)
                      && Pte(ts, role[f].d, role[f].v).present && Pte(ts, role[f].d, role[f].v).frame == f)
    && (forall d, v :: d in role && role[d].Dir? && 0 <= v < USERPAGES && !Gone(gd, gone, d, v / NPT) ==>
          UserRole(ts, role, d, v))
  }

  predicate UserRole(ts: Tables, role: map<nat, Role>, d: nat, v: nat) {
    var e := Pte(ts, d, v);
    e.present ==> e.frame in role && role[e.frame] == User(d, v)
  }

  /** The free list holds each free page once. */
  ghost predicate FreeListed(freelist: seq<nat>, role: map<nat, Role>) {
    && (forall i, j :: 0 <= i < j < |freelist| ==> freelist[i] != freelist[j])
    && (forall f :: f in freelist <==> f in role && role[f].Free?)
  }

  /** Every physical page is in exactly one of: the free list, one user entry, a
      page table, a directory, or kernel use. */
  ghost predicate Owned(ts: Tables, freelist: seq<nat>, role: map<nat, Role>, gd: nat, gone: nat) {
    FreeListed(freelist, role) && TablesOwned(ts, role, gd, gone) && UsersOwned(ts, role, gd, gone)
  }

  // ---------------------------------------------------------------- table entries

  /** A table belongs to one directory entry, so a store in it is seen at one page. */
  lemma PteAfterStore(ts: Tables, role: map<nat, Role>, gd: nat, gone: nat, d: nat, v: nat, e: Entry, d2: nat, v2: nat)
    requires TablesOwned(ts, role, gd, gone) && d in role && role[d].Dir? && d2 in role && role[d2].Dir?
    requires v < ALLPAGES && v2 < ALLPAGES && Pde(ts, d, v / NPT).present
    requires !Gone(gd, gone, d, v / NPT) && !Gone(gd, gone, d2, v2 / NPT)
    ensures var t := Pde(ts, d, v / NPT).frame;
            && t in ts && |ts[t]| == NPT && t in role && role[t] == Table(d, v / NPT)
            && var ts' := ts[t := ts[t][v % NPT := e]];
               && (forall x, i :: x in role && role[x].Dir? ==> Pde(ts', x, i) == Pde(ts, x, i))
               && Pte(ts', d2, v2) == if d2 == d && v2 == v then e else Pte(ts, d2, v2)
  {
    assert TableRole(ts, role, d, v / NPT);
    assert TableRole(ts, role, d2, v2 / NPT);
    var t := Pde(ts, d, v / NPT).frame;
    if d2 == d && v2 / NPT == v / NPT {
      assert v2 % NPT == v % NPT ==> v2 == v;
    }
  }

  /** The store of e at page v of directory d. */
  function Stored(ts: Tables, d: nat, v: nat, e: Entry): Tables {
    var t := Pde(ts, d, v / NPT).frame;
    if t in ts && v % NPT < |ts[t]| then ts[t := ts[t][v % NPT := e]] else ts
  }

  /** What a store leaves unchanged, and what it changes. */
  ghost predicate StoreView(ts: Tables, ts': Tables, role: map<nat, Role>, d: nat, v: nat, e: Entry) {
    && (forall x, i :: x in role && role[x].Dir? ==> Pde(ts', x, i) == Pde(ts, x, i))
    && (forall x, w :: x in role && role[x].Dir? && 0 <= w < ALLPAGES ==>
                         Pte(ts', x, w) == if x == d && w == v then e else Pte(ts, x, w))
    && (forall x :: x in ts <==> x in ts')
    && (forall x :: x in ts ==> |ts'[x]| == |ts[x]|)
  }

  lemma StoreViews(ts: Tables, role: map<nat, Role>, d: nat, v: nat, e: Entry)
    requires TablesOwned(ts, role, 0, 0) && d in role && role[d].Dir? && v < ALLPAGES && Pde(ts, d, v / NPT).present
    ensures StoreView(ts, Stored(ts, d, v, e), role, d, v, e)
  {
    hide TablesOwned;
    hide Pte;
    var ts' := Stored(ts, d, v, e);
    PteAfterStore(ts, role, 0, 0, d, v, e, d, v);
    forall x, w | x in role && role[x].Dir? && 0 <= w < ALLPAGES
      ensures Pte(ts', x, w) == if x == d && w == v then e else Pte(ts, x, w)
    {
      PteAfterStore(ts, role, 0, 0, d, v, e, x, w);
    }
  }

  lemma TablesAfterStore(ts: Tables, ts': Tables, role: map<nat, Role>, role': map<nat, Role>, d: nat, v: nat, e: Entry)
    requires TablesOwned(ts, role, 0, 0) && StoreView(ts, ts', role, d, v, e)
    requires forall f :: f in role <==> f in role'
    requires forall f :: f in role && (role[f].Dir? || role[f].Table? || role'[f].Dir? || role'[f].Table?) ==>
               role'[f] == role[f]
    ensures TablesOwned(ts', role', 0, 0)
  {
    hide Pte;
    forall x, i | x in role' && role'[x].Dir? && 0 <= i < NPT
      ensures TableRole(ts', role', x, i)
    {
      assert TableRole(ts, role, x, i);
    }
  }

  lemma UsersAfterStore(ts: Tables, ts': Tables, role: map<nat, Role>, d: nat, v: nat, e: Entry, f: nat, r: Role)
    requires UsersOwned(ts, role, 0, 0) && StoreView(ts, ts', role, d, v, e)
    requires d in role && role[d].Dir? && v < USERPAGES
    requires f in role && !role[f].Dir? && !r.Dir? && (role[f].User? ==> role[f] == User(d, v)) && r != role[f]
    requires if e.present then e.frame == f && r == User(d, v) && !Pte(ts, d, v).present
             else role[f] == User(d, v) && !r.User?
    ensures UsersOwned(ts', role[f := r], 0, 0)
  {
    var role' := role[f := r];
    forall x, w | x in role' && role'[x].Dir? && 0 <= w < USERPAGES
      ensures UserRole(ts', role', x, w)
    {
      assert UserRole(ts, role, x, w);
    }
    forall g | g in role' && role'[g].User?
      ensures role'[g].v < USERPAGES && role'[g].d in role' && role'[role'[g].d].Dir?
      ensures Pte(ts', role'[g].d, role'[g].v).present && Pte(ts', role'[g].d, role'[g].v).frame == g
    {
    }
  }

  // -------------------------------------------------------------- the steps

  predicate Spare(r: Role) { r.Free? || r.Held? }

  lemma SpareTables(ts: Tables, role: map<nat, Role>, gd: nat, gone: nat, f: nat, r: Role)
    requires TablesOwned(ts, role, gd, gone) && f in role && Spare(role[f]) && Spare(r)
    ensures TablesOwned(ts, role[f := r], gd, gone)
  {
    hide Pde;
    var role' := role[f := r];
    forall x, i | x in role' && role'[x].Dir? && 0 <= i < NPT && !Gone(gd, gone, x, i)
      ensures TableRole(ts, role', x, i)
    {
      assert TableRole(ts, role, x, i);
    }
  }

  lemma SpareUsers(ts: Tables, role: map<nat, Role>, gd: nat, gone: nat, f: nat, r: Role)
    requires UsersOwned(ts, role, gd, gone) && f in role && Spare(role[f]) && Spare(r)
    ensures UsersOwned(ts, role[f := r], gd, gone)
  {
    hide Pte;
    var role' := role[f := r];
    forall x, w | x in role' && role'[x].Dir? && 0 <= w < USERPAGES && !Gone(gd, gone, x, w / NPT)
      ensures UserRole(ts, role', x, w)
    {
      assert UserRole(ts, role, x, w);
    }
  }

  lemma TakeOne(freelist: seq<nat>, role: map<nat, Role>)
    requires FreeListed(freelist, role) && freelist != []
    ensures freelist[0] in role && role[freelist[0]].Free?
    ensures FreeListed(freelist[1..], role[freelist[0] := Held])
  {
    var f := freelist[0];
    assert f in freelist;
    assert freelist == [f] + freelist[1..];
  }

  lemma KallocOwned(ts: Tables, freelist: seq<nat>, role: map<nat, Role>, gd: nat, gone: nat)
    requires Owned(ts, freelist, role, gd, gone) && freelist != []
    ensures var f := freelist[0];
            f in role && role[f].Free? && Owned(ts, freelist[1..], role[f := Held], gd, gone)
  {
    hide TablesOwned;
    hide UsersOwned;
    hide FreeListed;
    TakeOne(freelist, role);
    SpareTables(ts, role, gd, gone, freelist[0], Held);
    SpareUsers(ts, role, gd, gone, freelist[0], Held);
  }

  lemma FreeOne(freelist: seq<nat>, role: map<nat, Role>, f: nat)
    requires FreeListed(freelist, role) && f in role && !role[f].Free?
    ensures FreeListed([f] + freelist, role[f := Free])
  {
  }

  lemma SameFree(freelist: seq<nat>, role: map<nat, Role>, f: nat, r: Role)
    requires FreeListed(freelist, role) && f in role && !role[f].Free? && !r.Free?
    ensures FreeListed(freelist, role[f := r])
  {
  }

  /** kfree of a page the kernel holds. */
  lemma KfreeHeld(ts: Tables, freelist: seq<nat>, role: map<nat, Role>, f: nat)
    requires Owned(ts, freelist, role, 0, 0) && f in role && role[f].Held?
    ensures Owned(ts, [f] + freelist, role[f := Free], 0, 0)
  {
    hide TablesOwned;
    hide UsersOwned;
    hide FreeListed;
    FreeOne(freelist, role, f);
    SpareTables(ts, role, 0, 0, f, Free);
    SpareUsers(ts, role, 0, 0, f, Free);
  }

  /** mappages gives an absent user page a held frame. */
  lemma MapUser(ts: Tables, freelist: seq<nat>, role: map<nat, Role>, d: nat, v: nat, f: nat, flags: nat)
    requires Owned(ts, freelist, role, 0, 0) && d in role && role[d].Dir? && v < USERPAGES
    requires Pde(ts, d, v / NPT).present && !Pte(ts, d, v).present && f in role && role[f].Held?
    ensures var e := Entry(true, f, flags);
            && Owned(Stored(ts, d, v, e), freelist, role[f := User(d, v)], 0, 0)
            && StoreView(ts, Stored(ts, d, v, e), role, d, v, e)
  {
    hide Pte;
    hide Pde;
    hide Stored;
    hide StoreView;
    var e := Entry(true, f, flags);
    var ts', role' := Stored(ts, d, v, e), role[f := User(d, v)];
    StoreViews(ts, role, d, v, e);
    SameFree(freelist, role, f, User(d, v));
    TablesAfterStore(ts, ts', role, role', d, v, e);
    UsersAfterStore(ts, ts', role, d, v, e, f, User(d, v));
  }

  /** deallocuvm frees a present user page. */
  lemma UnmapUser(ts: Tables, freelist: seq<nat>, role: map<nat, Role>, d: nat, v: nat)
    requires Owned(ts, freelist, role, 0, 0) && d in role && role[d].Dir? && v < USERPAGES && Pte(ts, d, v).present
    ensures var f := Pte(ts, d, v).frame;
            && f in role && role[f] == User(d, v)
            && Owned(Stored(ts, d, v, NONE), [f] + freelist, role[f := Free], 0, 0)
            && StoreView(ts, Stored(ts, d, v, NONE), role, d, v, NONE)
  {
    hide Stored;
    hide StoreView;
    assert UserRole(ts, role, d, v);
    var f := Pte(ts, d, v).frame;
    var ts', role' := Stored(ts, d, v, NONE), role[f := Free];
    StoreViews(ts, role, d, v, NONE);
    FreeOne(freelist, role, f);
    TablesAfterStore(ts, ts', role, role', d, v, NONE);
    UsersAfterStore(ts, ts', role, d, v, NONE, f, Free);
  }

  /** mappages stores an entry above the user part: it owns nothing. */
  lemma MapKernel(ts: Tables, freelist: seq<nat>, role: map<nat, Role>, d: nat, v: nat, e: Entry)
    requires Owned(ts, freelist, role, 0, 0) && d in role && role[d].Dir? && USERPAGES <= v < ALLPAGES
             && Pde(ts, d, v / NPT).present
    ensures Owned(Stored(ts, d, v, e), freelist, role, 0, 0)
    ensures StoreView(ts, Stored(ts, d, v, e), role, d, v, e)
  {
    hide Stored;
    hide Pte;
    hide Pde;
    var ts' := Stored(ts, d, v, e);
    StoreViews(ts, role, d, v, e);
    TablesAfterStore(ts, ts', role, role, d, v, e);
    forall x, w | x in role && role[x].Dir? && 0 <= w < USERPAGES
      ensures UserRole(ts', role, x, w)
    {
      assert UserRole(ts, role, x, w);
    }
  }

  // ------------------------------------------------------- directories and tables

  /** walkpgdir makes frame f the table for entry i of directory d. */
  function WithTable(ts: Tables, d: nat, i: nat, f: nat): Tables
    requires d in ts && i < |ts[d]|
  {
    ts[f := EmptyTable()][d := ts[d][i := Entry(true, f, PTE_W + PTE_U)]]
  }

  ghost predicate TableView(ts: Tables, ts': Tables, role: map<nat, Role>, d: nat, i: nat, f: nat) {
    && (forall x, j :: x in role && role[x].Dir? ==>
                         Pde(ts', x, j) == if x == d && j == i then Entry(true, f, PTE_W + PTE_U) else Pde(ts, x, j))
    && (forall x, w :: x in role && role[x].Dir? && 0 <= w < ALLPAGES ==> Pte(ts', x, w) == Pte(ts, x, w))
  }

  lemma PteAfterTable(ts: Tables, role: map<nat, Role>, d: nat, i: nat, f: nat, x: nat, w: nat)
    requires TablesOwned(ts, role, 0, 0) && d in role && role[d].Dir? && i < NPT && !Pde(ts, d, i).present
    requires f in role && Spare(role[f]) && x in role && role[x].Dir? && w < ALLPAGES
    ensures Pte(WithTable(ts, d, i, f), x, w) == Pte(ts, x, w)
  {
    assert TableRole(ts, role, x, w / NPT);
  }

  lemma TableViews(ts: Tables, role: map<nat, Role>, d: nat, i: nat, f: nat)
    requires TablesOwned(ts, role, 0, 0) && d in role && role[d].Dir? && i < NPT && !Pde(ts, d, i).present
    requires f in role && Spare(role[f])
    ensures d in ts && i < |ts[d]| && TableView(ts, WithTable(ts, d, i, f), role, d, i, f)
  {
    var ts' := WithTable(ts, d, i, f);
    forall x, w | x in role && role[x].Dir? && 0 <= w < ALLPAGES
      ensures Pte(ts', x, w) == Pte(ts, x, w)
    {
      PteAfterTable(ts, role, d, i, f, x, w);
    }
  }

  lemma TablesAfterTable(ts: Tables, role: map<nat, Role>, d: nat, i: nat, f: nat)
    requires TablesOwned(ts, role, 0, 0) && d in role && role[d].Dir? && i < NPT && !Pde(ts, d, i).present
    requires f in role && Spare(role[f])
    requires TableView(ts, WithTable(ts, d, i, f), role, d, i, f)
    ensures TablesOwned(WithTable(ts, d, i, f), role[f := Table(d, i)], 0, 0)
  {
    hide Pte;
    var ts', role' := WithTable(ts, d, i, f), role[f := Table(d, i)];
    forall x, j | x in role' && role'[x].Dir? && 0 <= j < NPT
      ensures TableRole(ts', role', x, j)
    {
      assert TableRole(ts, role, x, j);
    }
  }

  lemma UsersAfterTable(ts: Tables, ts': Tables, role: map<nat, Role>, d: nat, i: nat, f: nat)
    requires UsersOwned(ts, role, 0, 0) && TableView(ts, ts', role, d, i, f) && f in role && Spare(role[f])
    ensures UsersOwned(ts', role[f := Table(d, i)], 0, 0)
  {
    hide Pte;
    hide Pde;
    var role' := role[f := Table(d, i)];
    forall x, w | x in role' && role'[x].Dir? && 0 <= w < USERPAGES
      ensures UserRole(ts', role', x, w)
    {
      assert UserRole(ts, role, x, w);
    }
  }

  lemma AddTable(ts: Tables, freelist: seq<nat>, role: map<nat, Role>, d: nat, i: nat, f: nat)
    requires Owned(ts, freelist, role, 0, 0) && d in role && role[d].Dir? && i < NPT && !Pde(ts, d, i).present
    requires f in role && role[f].Held?
    ensures d in ts && i < |ts[d]|
    ensures Owned(WithTable(ts, d, i, f), freelist, role[f := Table(d, i)], 0, 0)
    ensures TableView(ts, WithTable(ts, d, i, f), role, d, i, f)
  {
    hide TablesOwned;
    hide UsersOwned;
    hide FreeListed;
    hide TableView;
    hide WithTable;
    TableViews(ts, role, d, i, f);
    TablesAfterTable(ts, role, d, i, f);
    UsersAfterTable(ts, WithTable(ts, d, i, f), role, d, i, f);
    SameFree(freelist, role, f, Table(d, i));
  }

  /** Directories other than d see the same entries in ts and ts'. */
  ghost predicate SameElsewhere(ts: Tables, ts': Tables, role: map<nat, Role>, d: nat) {
    && (forall x, i :: x in role && role[x].Dir? && x != d ==> Pde(ts', x, i) == Pde(ts, x, i))
    && (forall x, w :: x in role && role[x].Dir? && x != d && 0 <= w < ALLPAGES ==> Pte(ts', x, w) == Pte(ts, x, w))
  }

  ghost predicate NoUsers(role: map<nat, Role>, d: nat) {
    forall f :: f in role && role[f].User? ==> role[f].d != d
  }

  /** A frame that no other directory reaches can be dropped. */
  lemma DroppedElsewhere(ts: Tables, role: map<nat, Role>, d: nat, gone: nat, f: nat)
    requires TablesOwned(ts, role, d, gone) && f in role && d in role && role[d].Dir?
    requires f == d || (role[f].Table? && role[f].d == d)
    ensures SameElsewhere(ts, ts - {f}, role, d)
  {
    forall x, w | x in role && role[x].Dir? && x != d && 0 <= w < ALLPAGES
      ensures Pte(ts - {f}, x, w) == Pte(ts, x, w)
    {
      assert TableRole(ts, role, x, w / NPT);
    }
  }

  lemma TablesAfterDrop(ts: Tables, role: map<nat, Role>, d: nat, i: nat, f: nat)
    requires TablesOwned(ts, role, d, i) && d in role && role[d].Dir? && i < NPT
    requires Pde(ts, d, i).present && f == Pde(ts, d, i).frame
    ensures f in role && role[f] == Table(d, i) && TablesOwned(ts - {f}, role[f := Free], d, i + 1)
  {
    hide Pte;
    assert TableRole(ts, role, d, i);
    var ts', role' := ts - {f}, role[f := Free];
    forall x, j | x in role' && role'[x].Dir? && 0 <= j < NPT && !Gone(d, i + 1, x, j)
      ensures TableRole(ts', role', x, j)
    {
      assert TableRole(ts, role, x, j);
    }
  }

  lemma PteShrinks(ts: Tables, f: nat, d: nat, w: nat)
    ensures Pte(ts - {f}, d, w).present ==> Pte(ts - {f}, d, w) == Pte(ts, d, w)
  {
  }

  lemma UsersAfterDrop(ts: Tables, role: map<nat, Role>, d: nat, i: nat, gone: nat, f: nat)
    requires UsersOwned(ts, role, d, i) && SameElsewhere(ts, ts - {f}, role, d) && NoUsers(role, d)
    requires d in role && role[d].Dir? && f in role && (f == d || role[f].Table?) && (f == d || i <= gone)
    ensures UsersOwned(ts - {f}, role[f := Free], if f == d then 0 else d, if f == d then 0 else gone)
  {
    hide Pte;
    hide Pde;
    var ts', role' := ts - {f}, role[f := Free];
    var gd', gone' := if f == d then 0 else d, if f == d then 0 else gone;
    forall x, w | x in role' && role'[x].Dir? && 0 <= w < USERPAGES && !Gone(gd', gone', x, w / NPT)
      ensures UserRole(ts', role', x, w)
    {
      assert UserRole(ts, role, x, w);
      PteShrinks(ts, f, x, w);
    }
  }

  /** freevm frees one page table. */
  lemma FreeTable(ts: Tables, freelist: seq<nat>, role: map<nat, Role>, d: nat, i: nat)
    requires Owned(ts, freelist, role, d, i) && d in role && role[d].Dir? && i < NPT && Pde(ts, d, i).present
             && NoUsers(role, d)
    ensures var f := Pde(ts, d, i).frame;
            && f in role && role[f] == Table(d, i) && Owned(ts - {f}, [f] + freelist, role[f := Free], d, i + 1)
            && SameElsewhere(ts, ts - {f}, role, d) && (forall j :: Pde(ts, d, j) == Pde(ts - {f}, d, j))
  {
    hide TablesOwned;
    hide UsersOwned;
    hide FreeListed;
    hide SameElsewhere;
    hide Pte;
    var f := Pde(ts, d, i).frame;
    TablesAfterDrop(ts, role, d, i, f);
    DroppedElsewhere(ts, role, d, i, f);
    UsersAfterDrop(ts, role, d, i, i + 1, f);
    FreeOne(freelist, role, f);
  }

  lemma SkipTable(ts: Tables, freelist: seq<nat>, role: map<nat, Role>, d: nat, i: nat)
    requires Owned(ts, freelist, role, d, i) && d in role && role[d].Dir? && i < NPT && !Pde(ts, d, i).present
    ensures Owned(ts, freelist, role, d, i + 1)
  {
    hide FreeListed;
  }

  lemma TablesAfterDir(ts: Tables, role: map<nat, Role>, d: nat)
    requires TablesOwned(ts, role, d, NPT) && d in role && role[d].Dir?
    ensures TablesOwned(ts - {d}, role[d := Free], 0, 0)
  {
    hide Pte;
    var ts', role' := ts - {d}, role[d := Free];
    forall x, j | x in role' && role'[x].Dir? && 0 <= j < NPT
      ensures TableRole(ts', role', x, j)
    {
      assert TableRole(ts, role, x, j);
    }
  }

  /** freevm frees the directory once its tables are gone. */
  lemma FreeDir(ts: Tables, freelist: seq<nat>, role: map<nat, Role>, d: nat)
    requires Owned(ts, freelist, role, d, NPT) && d in role && role[d].Dir? && NoUsers(role, d)
    ensures Owned(ts - {d}, [d] + freelist, role[d := Free], 0, 0) && SameElsewhere(ts, ts - {d}, role, d)
  {
    hide TablesOwned;
    hide UsersOwned;
    hide FreeListed;
    hide SameElsewhere;
    TablesAfterDir(ts, role, d);
    DroppedElsewhere(ts, role, d, NPT, d);
    UsersAfterDrop(ts, role, d, NPT, NPT, d);
    FreeOne(freelist, role, d);
  }

  ghost predicate EmptyDir(ts: Tables, d: nat) {
    forall i :: Pde(ts, d, i) == NONE
  }

  lemma NewElsewhere(ts: Tables, role: map<nat, Role>, d: nat)
    requires TablesOwned(ts, role, 0, 0) && d in role && Spare(role[d])
    ensures SameElsewhere(ts, ts[d := EmptyTable()], role, d)
    ensures EmptyDir(ts[d := EmptyTable()], d)
  {
    forall x, w | x in role && role[x].Dir? && x != d && 0 <= w < ALLPAGES
      ensures Pte(ts[d := EmptyTable()], x, w) == Pte(ts, x, w)
    {
      assert TableRole(ts, role, x, w / NPT);
    }
  }

  lemma TablesAfterNew(ts: Tables, ts': Tables, role: map<nat, Role>, d: nat)
    requires TablesOwned(ts, role, 0, 0) && d in role && Spare(role[d]) && ts' == ts[d := EmptyTable()]
    ensures TablesOwned(ts', role[d := Dir], 0, 0)
  {
    hide Pte;
    var role' := role[d := Dir];
    forall x, j | x in role' && role'[x].Dir? && 0 <= j < NPT
      ensures TableRole(ts', role', x, j)
    {
      if x != d {
        assert TableRole(ts, role, x, j);
      }
    }
  }

  lemma UsersAfterNew(ts: Tables, ts': Tables, role: map<nat, Role>, d: nat)
    requires UsersOwned(ts, role, 0, 0) && SameElsewhere(ts, ts', role, d) && d in role && Spare(role[d])
    requires EmptyDir(ts', d)
    ensures UsersOwned(ts', role[d := Dir], 0, 0)
  {
    hide Pde;
    var role' := role[d := Dir];
    forall x, w | x in role' && role'[x].Dir? && 0 <= w < USERPAGES
      ensures UserRole(ts', role', x, w)
    {
      if x != d {
        assert UserRole(ts, role, x, w);
      }
    }
  }

  /** setupkvm clears a new directory. */
  lemma NewDir(ts: Tables, freelist: seq<nat>, role: map<nat, Role>, d: nat)
    requires Owned(ts, freelist, role, 0, 0) && d in role && role[d].Held?
    ensures Owned(ts[d := EmptyTable()], freelist, role[d := Dir], 0, 0)
    ensures SameElsewhere(ts, ts[d := EmptyTable()], role, d)
    ensures EmptyDir(ts[d := EmptyTable()], d)
  {
    hide TablesOwned;
    hide UsersOwned;
    hide FreeListed;
    hide SameElsewhere;
    hide Pde;
    NewElsewhere(ts, role, d);
    TablesAfterNew(ts, ts[d := EmptyTable()], role, d);
    UsersAfterNew(ts, ts[d := EmptyTable()], role, d);
    SameFree(freelist, role, d, Dir);
  }
}

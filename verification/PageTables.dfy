/** Physical pages and two-level page tables: kalloc.c and the user half of vm.c.
    Addresses are split into page numbers and offsets; page n of an address space is
    entry n % 1024 of the table in entry n / 1024 of the directory. */
module PageTables {

  const PGSIZE: nat := 4096
  const ENTRIES: nat := 1024
  /** The directory entries below KERNBASE. */
  const USER_DIR: nat := 512
  const USER_PAGES: nat := 524288
  const ALL_PAGES: nat := 1048576

  // PTE_P, PTE_W and PTE_U
  const P: nat := 1
  const W: nat := 2
  const U: nat := 4

  /** An entry of a directory or a table: a frame number and the low twelve bits. */
  datatype Pte = Pte(frame: nat, flags: nat)

  const NONE: Pte := Pte(0, 0)

  predicate Present(e: Pte) {
    e.flags % 2 == 1
  }

  predicate User(e: Pte) {
    e.flags / 4 % 2 == 1
  }

  /** flags | PTE_P. */
  function OrP(flags: nat): (r: nat)
    ensures r % 2 == 1 && r / 2 == flags / 2
  {
    if flags % 2 == 1 then flags else flags + 1
  }

  /** A physical page, as a directory or table or as plain bytes. */
  datatype Page = Words(w: seq<Pte>) | Bytes(b: seq<int>)

  /** `free` is the list that kmem.freelist heads. */
  datatype Mem = Mem(pages: seq<Page>, free: seq<nat>)

  /** Where a page is referenced: it is directory d, the table of entry i of d, or user
      page j of that table. */
  datatype Pos = Root(d: nat) | Tab(d: nat, i: nat) | Leaf(d: nat, i: nat, j: nat)

  predicate IsTable(m: Mem, f: nat) {
    f < |m.pages| && m.pages[f].Words? && |m.pages[f].w| == ENTRIES
  }

  predicate IsData(m: Mem, f: nat) {
    f < |m.pages| && m.pages[f].Bytes? && |m.pages[f].b| == PGSIZE
  }

  function Pde(m: Mem, d: nat, i: nat): (r: Pte)
    requires IsTable(m, d) && i < ENTRIES
  {
    m.pages[d].w[i]
  }

  /** The entry that the paging hardware finds. */
  function PteAt(m: Mem, d: nat, i: nat, j: nat): (r: Pte)
    requires IsTable(m, d) && i < ENTRIES && j < ENTRIES
  {
    var e := Pde(m, d, i);
    if Present(e) && IsTable(m, e.frame) then m.pages[e.frame].w[j] else NONE
  }

  function ZeroTable(): (r: Page) {
    Words(seq(ENTRIES, _ => NONE))
  }

  function ZeroData(): (r: Page) {
    Bytes(seq(PGSIZE, _ => 0))
  }

  /** kfree fills the page with junk. */
  function Junk(): (r: Page) {
    Bytes(seq(PGSIZE, _ => 1))
  }

  // ---------- ownership ----------

  predicate RootsOk(m: Mem, dirs: set<nat>, owner: map<nat, Pos>) {
    forall d | d in dirs :: IsTable(m, d) && d in owner && owner[d] == Root(d)
  }

  predicate TabOk(m: Mem, owner: map<nat, Pos>, d: nat, i: nat)
    requires IsTable(m, d) && i < ENTRIES
  {
    Present(Pde(m, d, i)) ==>
      var t := Pde(m, d, i).frame;
      IsTable(m, t) && t in owner && owner[t] == Tab(d, i) && Pde(m, d, i).flags == P + W + U
  }

  predicate LeafOk(m: Mem, owner: map<nat, Pos>, d: nat, i: nat, j: nat)
    requires IsTable(m, d) && i < ENTRIES && j < ENTRIES
  {
    var e := PteAt(m, d, i, j);
    if i >= USER_DIR then !User(e)
    else Present(e) ==> IsData(m, e.frame) && e.frame in owner && owner[e.frame] == Leaf(d, i, j)
  }

  /** Page f is where `owner` says. */
  predicate PlaceOk(m: Mem, dirs: set<nat>, f: nat, at: Pos) {
    && f > 0 && at.d in dirs && IsTable(m, at.d)
    && match at
       case Root(d) => f == d
       case Tab(d, i) => i < ENTRIES && Present(Pde(m, d, i)) && Pde(m, d, i).frame == f
       case Leaf(d, i, j) => i < USER_DIR && j < ENTRIES && Present(PteAt(m, d, i, j)) && PteAt(m, d, i, j).frame == f
  }

  /** Every page of every address space is referenced from exactly one place. */
  ghost predicate Owned(m: Mem, dirs: set<nat>, owner: map<nat, Pos>) {
    && RootsOk(m, dirs, owner)
    && (forall d, i | d in dirs && 0 <= i < ENTRIES :: TabOk(m, owner, d, i))
    && (forall d, i, j | d in dirs && 0 <= i < ENTRIES && 0 <= j < ENTRIES :: LeafOk(m, owner, d, i, j))
    && (forall f | f in owner :: PlaceOk(m, dirs, f, owner[f]))
  }

  /** The free list holds no page twice, none that an address space owns, and not page 0,
      which lies below the end of the kernel. */
  ghost predicate FreeOk(m: Mem, owner: map<nat, Pos>) {
    && (forall k | 0 <= k < |m.free| :: 0 < m.free[k] < |m.pages| && m.free[k] !in owner)
    && (forall k, l | 0 <= k < l < |m.free| :: m.free[k] != m.free[l])
  }

  function With(m: Mem, f: nat, page: Page): (r: Mem)
    requires f < |m.pages|
  {
    m.(pages := m.pages[f := page])
  }

  /** A page that no address space owns may be overwritten. */
  lemma FreshPage(m: Mem, dirs: set<nat>, owner: map<nat, Pos>, f: nat, page: Page)
    requires Owned(m, dirs, owner) && f < |m.pages| && f !in owner
    ensures Owned(With(m, f, page), dirs, owner)
    ensures SamePtes(m, With(m, f, page), dirs)
    ensures FreeOk(m, owner) ==> FreeOk(With(m, f, page), owner)
  {
    var m' := With(m, f, page);
    forall d, i | d in dirs && 0 <= i < ENTRIES
      ensures IsTable(m', d) && Pde(m', d, i) == Pde(m, d, i) && TabOk(m', owner, d, i)
    {
      assert TabOk(m, owner, d, i);
    }
    forall d, i, j | d in dirs && 0 <= i < ENTRIES && 0 <= j < ENTRIES
      ensures IsTable(m', d) && PteAt(m', d, i, j) == PteAt(m, d, i, j) && LeafOk(m', owner, d, i, j)
    {
      assert TabOk(m, owner, d, i) && LeafOk(m, owner, d, i, j);
    }
    forall g | g in owner
      ensures PlaceOk(m', dirs, g, owner[g])
    {
      assert PlaceOk(m, dirs, g, owner[g]);
    }
  }

  function SetEntry(m: Mem, t: nat, k: nat, e: Pte): (r: Mem)
    requires IsTable(m, t) && k < ENTRIES
  {
    With(m, t, Words(m.pages[t].w[k := e]))
  }

  ghost predicate AllTables(m: Mem, dirs: set<nat>) {
    forall d | d in dirs :: IsTable(m, d)
  }

  /** The entries of m' are those of m, but for entry j of table i of directory d. */
  ghost predicate PtesBut(m: Mem, m': Mem, dirs: set<nat>, d: nat, i: nat, j: nat, e: Pte) {
    && AllTables(m, dirs) && AllTables(m', dirs)
    && forall d', i', j' | d' in dirs && 0 <= i' < ENTRIES && 0 <= j' < ENTRIES ::
         PteAt(m', d', i', j') == if d' == d && i' == i && j' == j then e else PteAt(m, d', i', j')
  }

  ghost predicate SamePtes(m: Mem, m': Mem, dirs: set<nat>) {
    && AllTables(m, dirs) && AllTables(m', dirs)
    && forall d', i', j' | d' in dirs && 0 <= i' < ENTRIES && 0 <= j' < ENTRIES ::
         PteAt(m', d', i', j') == PteAt(m, d', i', j')
  }

  ghost predicate SameDirs(m: Mem, m': Mem, dirs: set<nat>) {
    forall d | d in dirs :: IsTable(m, d) && IsTable(m', d) && m'.pages[d] == m.pages[d]
  }

  lemma NewTableDirs(m: Mem, dirs: set<nat>, owner: map<nat, Pos>, d: nat, i: nat, t: nat, flags: nat, d': nat, i': nat)
    requires Owned(m, dirs, owner) && d in dirs && i < ENTRIES && IsTable(m, d) && !Present(Pde(m, d, i))
    requires 0 < t < |m.pages| && m.pages[t] == ZeroTable() && t !in owner && flags == P + W + U && d' in dirs &&
             i' < ENTRIES
    ensures var m' := SetEntry(m, d, i, Pte(t, flags));
            && IsTable(m, d') && IsTable(m', d') && TabOk(m', owner[t := Tab(d, i)], d', i')
            && Pde(m', d', i') == if d' == d && i' == i then Pte(t, flags) else Pde(m, d', i')
  {
    assert d in owner && owner[d] == Root(d);
    assert TabOk(m, owner, d', i');
  }

  /** walkpgdir puts a new, empty table in an empty directory entry. */
  lemma NewTable(m: Mem, dirs: set<nat>, owner: map<nat, Pos>, d: nat, i: nat, t: nat, flags: nat)
    requires Owned(m, dirs, owner) && d in dirs && i < ENTRIES && IsTable(m, d) && !Present(Pde(m, d, i))
    requires 0 < t < |m.pages| && m.pages[t] == ZeroTable() && t !in owner && flags == P + W + U
    ensures Owned(SetEntry(m, d, i, Pte(t, flags)), dirs, owner[t := Tab(d, i)])
    ensures SamePtes(m, SetEntry(m, d, i, Pte(t, flags)), dirs)
  {
    var m', owner' := SetEntry(m, d, i, Pte(t, flags)), owner[t := Tab(d, i)];
    forall d', i' | d' in dirs && 0 <= i' < ENTRIES
      ensures IsTable(m', d') && TabOk(m', owner', d', i')
      ensures Pde(m', d', i') == if d' == d && i' == i then Pte(t, flags) else Pde(m, d', i')
    {
      NewTableDirs(m, dirs, owner, d, i, t, flags, d', i');
    }
    assert d in owner && owner[d] == Root(d);
    forall d', i', j' | d' in dirs && 0 <= i' < ENTRIES && 0 <= j' < ENTRIES
      ensures IsTable(m', d') && PteAt(m', d', i', j') == PteAt(m, d', i', j') && LeafOk(m', owner', d', i', j')
    {
      assert TabOk(m, owner, d', i') && LeafOk(m, owner, d', i', j');
    }
    forall g | g in owner'
      ensures PlaceOk(m', dirs, g, owner'[g])
    {
      assert g != t ==> PlaceOk(m, dirs, g, owner[g]);
    }
  }

  /** Changing one entry of a table changes no other entry of any address space. */
  lemma EntryChanges(m: Mem, dirs: set<nat>, owner: map<nat, Pos>, d: nat, i: nat, j: nat, e: Pte)
    requires Owned(m, dirs, owner) && d in dirs && i < ENTRIES && j < ENTRIES && IsTable(m, d) && Present(Pde(m, d, i))
    ensures IsTable(m, Pde(m, d, i).frame)
    ensures PtesBut(m, SetEntry(m, Pde(m, d, i).frame, j, e), dirs, d, i, j, e)
    ensures SameDirs(m, SetEntry(m, Pde(m, d, i).frame, j, e), dirs)
  {
    assert TabOk(m, owner, d, i);
    var t := Pde(m, d, i).frame;
    var m' := SetEntry(m, t, j, e);
    assert SameDirs(m, m', dirs);
    forall d', i', j' | d' in dirs && 0 <= i' < ENTRIES && 0 <= j' < ENTRIES
      ensures IsTable(m, d') && IsTable(m', d')
      ensures PteAt(m', d', i', j') == if d' == d && i' == i && j' == j then e else PteAt(m, d', i', j')
    {
      assert TabOk(m, owner, d', i');
    }
  }

  lemma TabsStay(m: Mem, m': Mem, dirs: set<nat>, owner: map<nat, Pos>, owner': map<nat, Pos>, t: nat, j: nat, e: Pte)
    requires Owned(m, dirs, owner) && IsTable(m, t) && j < ENTRIES && m' == SetEntry(m, t, j, e)
    requires SameDirs(m, m', dirs)
    requires forall g | g in owner && !owner[g].Leaf? :: g in owner' && owner'[g] == owner[g]
    ensures RootsOk(m', dirs, owner') && (forall d', i' | d' in dirs && 0 <= i' < ENTRIES :: TabOk(m', owner', d', i'))
  {
    forall d', i' | d' in dirs && 0 <= i' < ENTRIES
      ensures TabOk(m', owner', d', i')
    {
      assert TabOk(m, owner, d', i');
    }
  }

  /** mappages puts page f in an empty entry. */
  lemma NewLeaf(m: Mem, dirs: set<nat>, owner: map<nat, Pos>, d: nat, i: nat, j: nat, f: nat, flags: nat)
    requires Owned(m, dirs, owner) && d in dirs && i < USER_DIR && j < ENTRIES && IsTable(m, d) &&
             Present(Pde(m, d, i)) && !Present(PteAt(m, d, i, j))
    requires IsData(m, f) && 0 < f && f !in owner && flags % 2 == 1
    ensures IsTable(m, Pde(m, d, i).frame)
    ensures Owned(SetEntry(m, Pde(m, d, i).frame, j, Pte(f, flags)), dirs, owner[f := Leaf(d, i, j)])
  {
    var e := Pte(f, flags);
    EntryChanges(m, dirs, owner, d, i, j, e);
    assert TabOk(m, owner, d, i);
    var t := Pde(m, d, i).frame;
    var m', owner' := SetEntry(m, t, j, e), owner[f := Leaf(d, i, j)];
    TabsStay(m, m', dirs, owner, owner', t, j, e);
    forall d', i', j' | d' in dirs && 0 <= i' < ENTRIES && 0 <= j' < ENTRIES
      ensures LeafOk(m', owner', d', i', j')
    {
      assert LeafOk(m, owner, d', i', j');
    }
    forall g | g in owner'
      ensures PlaceOk(m', dirs, g, owner'[g])
    {
      assert g != f ==> PlaceOk(m, dirs, g, owner[g]);
    }
  }

  /** deallocuvm clears an entry: its page is no longer owned. */
  lemma DropLeaf(m: Mem, dirs: set<nat>, owner: map<nat, Pos>, d: nat, i: nat, j: nat)
    requires Owned(m, dirs, owner) && d in dirs && i < USER_DIR && j < ENTRIES && IsTable(m, d) &&
             Present(PteAt(m, d, i, j))
    ensures Present(Pde(m, d, i)) && IsTable(m, Pde(m, d, i).frame)
    ensures PteAt(m, d, i, j).frame in owner && owner[PteAt(m, d, i, j).frame] == Leaf(d, i, j) &&
            IsData(m, PteAt(m, d, i, j).frame)
    ensures Owned(SetEntry(m, Pde(m, d, i).frame, j, NONE), dirs, owner - {PteAt(m, d, i, j).frame})
  {
    EntryChanges(m, dirs, owner, d, i, j, NONE);
    assert TabOk(m, owner, d, i) && LeafOk(m, owner, d, i, j);
    var t, f := Pde(m, d, i).frame, PteAt(m, d, i, j).frame;
    var m', owner' := SetEntry(m, t, j, NONE), owner - {f};
    TabsStay(m, m', dirs, owner, owner', t, j, NONE);
    forall d', i', j' | d' in dirs && 0 <= i' < ENTRIES && 0 <= j' < ENTRIES
      ensures LeafOk(m', owner', d', i', j')
    {
      assert LeafOk(m, owner, d', i', j');
    }
    forall g | g in owner'
      ensures PlaceOk(m', dirs, g, owner'[g])
    {
      assert PlaceOk(m, dirs, g, owner[g]);
    }
  }

  /** Kernel entries refer to pages that no address space owns. */
  lemma KernelEntry(m: Mem, dirs: set<nat>, owner: map<nat, Pos>, d: nat, i: nat, j: nat, e: Pte)
    requires Owned(m, dirs, owner) && d in dirs && USER_DIR <= i < ENTRIES && j < ENTRIES && IsTable(m, d) &&
             Present(Pde(m, d, i)) && !User(e)
    ensures IsTable(m, Pde(m, d, i).frame)
    ensures Owned(SetEntry(m, Pde(m, d, i).frame, j, e), dirs, owner)
  {
    EntryChanges(m, dirs, owner, d, i, j, e);
    assert TabOk(m, owner, d, i);
    var t := Pde(m, d, i).frame;
    var m' := SetEntry(m, t, j, e);
    TabsStay(m, m', dirs, owner, owner, t, j, e);
    forall d', i', j' | d' in dirs && 0 <= i' < ENTRIES && 0 <= j' < ENTRIES
      ensures LeafOk(m', owner, d', i', j')
    {
      assert LeafOk(m, owner, d', i', j');
    }
    forall g | g in owner
      ensures PlaceOk(m', dirs, g, owner[g])
    {
      assert PlaceOk(m, dirs, g, owner[g]);
    }
  }

  /** The bytes of a user page play no part in where pages are. */
  lemma WriteData(m: Mem, dirs: set<nat>, owner: map<nat, Pos>, f: nat, b: seq<int>)
    requires Owned(m, dirs, owner) && f in owner && owner[f].Leaf? && |b| == PGSIZE
    ensures IsData(m, f) && Owned(With(m, f, Bytes(b)), dirs, owner)
    ensures SamePtes(m, With(m, f, Bytes(b)), dirs)
  {
    assert PlaceOk(m, dirs, f, owner[f]);
    assert LeafOk(m, owner, owner[f].d, owner[f].i, owner[f].j);
    var m' := With(m, f, Bytes(b));
    forall d, i | d in dirs && 0 <= i < ENTRIES
      ensures IsTable(m', d) && Pde(m', d, i) == Pde(m, d, i) && TabOk(m', owner, d, i)
    {
      assert TabOk(m, owner, d, i);
    }
    forall d, i, j | d in dirs && 0 <= i < ENTRIES && 0 <= j < ENTRIES
      ensures IsTable(m', d) && PteAt(m', d, i, j) == PteAt(m, d, i, j) && LeafOk(m', owner, d, i, j)
    {
      assert TabOk(m, owner, d, i) && LeafOk(m, owner, d, i, j);
    }
    forall g | g in owner
      ensures PlaceOk(m', dirs, g, owner[g])
    {
      assert PlaceOk(m, dirs, g, owner[g]);
    }
  }

  // ---------- address spaces ----------

  /** What user page n of an address space holds. */
  datatype UPage = Absent | Mapped(flags: nat, bytes: seq<int>)

  function Look(m: Mem, d: nat, n: nat): (r: UPage)
    requires IsTable(m, d) && n < USER_PAGES
  {
    var e := PteAt(m, d, n / ENTRIES, n % ENTRIES);
    if Present(e) && IsData(m, e.frame) then Mapped(e.flags, m.pages[e.frame].b) else Absent
  }

  /** The address spaces in dirs hold what they did, but for pages lo to hi of d. */
  ghost predicate SameBut(m: Mem, m': Mem, dirs: set<nat>, d: nat, lo: nat, hi: nat) {
    && AllTables(m, dirs) && AllTables(m', dirs)
    && forall d', n | d' in dirs && 0 <= n < USER_PAGES && (d' == d ==> !(lo <= n < hi)) ::
         Look(m', d', n) == Look(m, d', n)
  }

  ghost predicate SameLeaves(m: Mem, m': Mem, owner: map<nat, Pos>) {
    |m'.pages| == |m.pages| && forall f | f in owner && owner[f].Leaf? && f < |m.pages| :: m'.pages[f] == m.pages[f]
  }

  /** The page tables that directory d has. */
  ghost function Have(m: Mem, d: nat): (r: set<nat>) {
    set i: nat | i < ENTRIES && IsTable(m, d) && Present(m.pages[d].w[i])
  }

  lemma HaveSame(m: Mem, m': Mem, dirs: set<nat>, owner: map<nat, Pos>, d: nat)
    requires Owned(m, dirs, owner) && d in dirs && |m'.pages| == |m.pages|
    requires forall f | f in owner && f < |m.pages| :: m'.pages[f] == m.pages[f]
    ensures Have(m', d) == Have(m, d)
  {
  }

  /** From m to m' directory d has got table i, at the price of a page if it had none. */
  ghost predicate Paid(m: Mem, m': Mem, d: nat, i: nat) {
    && Have(m', d) == Have(m, d) + {i}
    && |m'.free| + (if i in Have(m, d) then 0 else 1) == |m.free|
  }

  lemma PaidNothing(m: Mem, d: nat, i: nat)
    requires i < ENTRIES && IsTable(m, d) && Present(Pde(m, d, i))
    ensures i in Have(m, d) && Paid(m, m, d, i)
  {
    assert Have(m, d) + {i} == Have(m, d);
  }

  lemma PaidTable(m0: Mem, m: Mem, d: nat, i: nat, t: nat, e: Pte)
    requires i < ENTRIES && IsTable(m0, d) && !Present(Pde(m0, d, i)) && Present(e) && t != d && t < |m.pages|
    requires m.pages == m0.pages && |m.free| == |m0.free| - 1
    ensures IsTable(With(m, t, ZeroTable()), d) && Paid(m0, SetEntry(With(m, t, ZeroTable()), d, i, e), d, i)
    ensures i !in Have(m0, d)
  {
    var m' := SetEntry(With(m, t, ZeroTable()), d, i, e);
    forall j: nat | j < ENTRIES
      ensures j in Have(m', d) <==> j in Have(m0, d) + {i}
    {
      assert m'.pages[d].w[j] == if j == i then e else m0.pages[d].w[j];
    }
    assert Have(m', d) == Have(m0, d) + {i};
  }

  /** Other pages than the directory itself do not matter. */
  lemma PaidSame(m0: Mem, m: Mem, m': Mem, d: nat, i: nat)
    requires Paid(m0, m, d, i) && d < |m.pages| == |m'.pages| && m'.pages[d] == m.pages[d] && m'.free == m.free
    ensures Paid(m0, m', d, i)
  {
    assert Have(m', d) == Have(m, d);
  }

  /** The tables that k pages from page lo on lie in. */
  function Dirs(lo: nat, k: nat): (r: set<nat>) {
    if k == 0 then {} else Dirs(lo, k - 1) + {(lo + k - 1) / ENTRIES}
  }

  /** The tables among them that are missing when those in h are there. */
  function Missing(h: set<nat>, lo: nat, k: nat): (r: nat) {
    |Dirs(lo, k) - h|
  }

  /** From m0 to m, `pages` pages were taken besides the tables for k pages from lo on. */
  ghost predicate Spent(m0: Mem, m: Mem, d: nat, lo: nat, k: nat, pages: nat) {
    && Have(m, d) == Have(m0, d) + Dirs(lo, k)
    && |m.free| + pages + Missing(Have(m0, d), lo, k) == |m0.free|
  }

  lemma SpentNothing(m: Mem, d: nat, lo: nat)
    ensures Spent(m, m, d, lo, 0, 0)
  {
    assert Dirs(lo, 0) - Have(m, d) == {};
    assert Have(m, d) + Dirs(lo, 0) == Have(m, d);
  }

  lemma MissingNext(h: set<nat>, lo: nat, k: nat)
    ensures Missing(h, lo, k + 1) == Missing(h, lo, k) + if (lo + k) / ENTRIES in h + Dirs(lo, k) then 0 else 1
  {
    var i := (lo + k) / ENTRIES;
    if i in h + Dirs(lo, k) {
      assert Dirs(lo, k + 1) - h == Dirs(lo, k) - h;
    } else {
      assert Dirs(lo, k + 1) - h == (Dirs(lo, k) - h) + {i};
    }
  }

  lemma {:induction false} MissingGrows(h: set<nat>, lo: nat, k: nat, n: nat)
    requires k <= n
    ensures Missing(h, lo, k) <= Missing(h, lo, n)
    decreases n - k
  {
    if k < n {
      MissingNext(h, lo, k);
      MissingGrows(h, lo, k + 1, n);
    }
  }

  /** One more page, with its table. */
  lemma SpentNext(m0: Mem, m1: Mem, m2: Mem, m3: Mem, d: nat, lo: nat, k: nat, pages: nat)
    requires Spent(m0, m1, d, lo, k, pages) && Have(m2, d) == Have(m1, d) && Paid(m2, m3, d, (lo + k) / ENTRIES)
    requires |m2.free| <= |m1.free|
    ensures Spent(m0, m3, d, lo, k + 1, pages + (|m1.free| - |m2.free|))
  {
    MissingNext(Have(m0, d), lo, k);
    assert Have(m0, d) + Dirs(lo, k + 1) == Have(m0, d) + Dirs(lo, k) + {(lo + k) / ENTRIES};
  }

  lemma SpentEnds(m0: Mem, m: Mem, d: nat, lo: nat, k: nat, pages: nat)
    requires Spent(m0, m, d, lo, k, pages)
    ensures |m0.free| >= pages + Missing(Have(m0, d), lo, k)
  {
  }

  /** What is left does not do for the next page, with its table. */
  lemma SpentOut(m0: Mem, m: Mem, d: nat, lo: nat, k: nat, pages: nat, each: nat, n: nat)
    requires Spent(m0, m, d, lo, k, pages) && k < n
    requires |m.free| < each + if (lo + k) / ENTRIES in Have(m, d) then 0 else 1
    ensures |m0.free| < pages + each + Missing(Have(m0, d), lo, n)
  {
    MissingNext(Have(m0, d), lo, k);
    MissingGrows(Have(m0, d), lo, k + 1, n);
  }

  function Only(f: int): (r: set<nat>) {
    if f < 0 then {} else {f}
  }

  function FreeSet(m: Mem): (r: set<nat>) {
    set f | f in m.free
  }

  /** Pages that are in use elsewhere, or taken and not yet placed. */
  ghost predicate SameSpare(m: Mem, m': Mem, owner: map<nat, Pos>) {
    |m'.pages| == |m.pages| && forall f | 0 <= f < |m.pages| && f !in FreeSet(m) && f !in owner ::
        m'.pages[f] == m.pages[f]
  }

  lemma LookSame(m: Mem, m': Mem, dirs: set<nat>, owner: map<nat, Pos>, d: nat)
    requires Owned(m, dirs, owner) && SamePtes(m, m', dirs) && SameLeaves(m, m', owner)
    ensures SameBut(m, m', dirs, d, 0, 0)
  {
    forall d', n | d' in dirs && 0 <= n < USER_PAGES
      ensures IsTable(m, d') && IsTable(m', d') && Look(m', d', n) == Look(m, d', n)
    {
      assert LeafOk(m, owner, d', n / ENTRIES, n % ENTRIES);
      assert PteAt(m', d', n / ENTRIES, n % ENTRIES) == PteAt(m, d', n / ENTRIES, n % ENTRIES);
    }
  }

  lemma LookBut(m: Mem, m': Mem, dirs: set<nat>, owner: map<nat, Pos>, d: nat, n: nat, e: Pte)
    requires Owned(m, dirs, owner) && d in dirs && n < USER_PAGES &&
             PtesBut(m, m', dirs, d, n / ENTRIES, n % ENTRIES, e)
    requires SameLeaves(m, m', owner)
    ensures SameBut(m, m', dirs, d, n, n + 1)
    ensures IsTable(m', d) && PteAt(m', d, n / ENTRIES, n % ENTRIES) == e
  {
    forall d', k | d' in dirs && 0 <= k < USER_PAGES && (d' == d ==> k != n)
      ensures IsTable(m, d') && IsTable(m', d') && Look(m', d', k) == Look(m, d', k)
    {
      assert LeafOk(m, owner, d', k / ENTRIES, k % ENTRIES);
      assert PteAt(m', d', k / ENTRIES, k % ENTRIES) == PteAt(m, d', k / ENTRIES, k % ENTRIES);
    }
    assert PteAt(m', d, n / ENTRIES, n % ENTRIES) == e;
  }

  class Vm {
    var m: Mem
    /** The directories of the address spaces, and where each of their pages is. */
    ghost var dirs: set<nat>
    ghost var owner: map<nat, Pos>

    ghost predicate Valid()
      reads this
    {
      Owned(m, dirs, owner) && FreeOk(m, owner)
    }

    /** All pages that are free or belong to an address space. */
    ghost function Managed(): set<nat>
      reads this
    {
      FreeSet(m) + owner.Keys
    }

    /** Page f, unless it is -1, has been taken and not yet placed. */
    ghost predicate Loose(f: int)
      reads this
    {
      f == -1 || (0 < f < |m.pages| && f !in owner && f !in FreeSet(m))
    }

    /** freerange: pages lo to n of physical memory are free, and none is in use. */
    constructor (n: nat, lo: nat)
      requires 0 < lo <= n
      ensures Valid() && dirs == {} && owner == map[] && |m.pages| == n
      ensures (forall f: nat :: f in FreeSet(m) <==> lo <= f < n) && |m.free| == n - lo
    {
      m := Mem(seq(n, _ => Junk()), []);
      dirs, owner := {}, map[];
      new;
      var p := lo;
      while p < n
        invariant lo <= p <= n && |m.pages| == n && Valid() && dirs == {} && owner == map[]
        invariant forall f | f in m.free :: lo <= f < p
        invariant (forall f: nat | lo <= f < p :: f in m.free) && |m.free| == p - lo
      {
        Kfree(p);
        p := p + 1;
      }
    }

    /** kalloc: a page from the head of the free list, or -1. */
    method Kalloc() returns (r: int)
      requires Valid()
      modifies this`m
      ensures Valid() && m.pages == old(m).pages
      ensures r == -1 <==> old(m).free == []
      ensures r == -1 ==> m == old(m)
      ensures r != -1 ==> 0 < r < |m.pages| && r !in owner && r == old(m).free[0] && m.free == old(m).free[1..]
      ensures r != -1 ==> FreeSet(old(m)) == FreeSet(m) + {r} && r !in FreeSet(m) && |m.free| == |old(m).free| - 1
    {
      if m.free == [] {
        return -1;
      }
      r := m.free[0];
      FreeListIgnored(m, Mem(m.pages, m.free[1..]), dirs, owner);
      assert m.free == [r] + m.free[1..];
      m := Mem(m.pages, m.free[1..]);
      hide Owned;
    }

    /** kfree: the page goes to the head of the free list, filled with junk. */
    method Kfree(f: nat)
      requires Valid() && 0 < f < |m.pages| && f !in owner && f !in FreeSet(m)
      modifies this`m
      ensures Valid() && m == Mem(old(m).pages[f := Junk()], [f] + old(m).free)
      ensures FreeSet(m) == FreeSet(old(m)) + {f} && forall d: nat :: SameBut(old(m), m, dirs, d, 0, 0)
    {
      FreshPage(m, dirs, owner, f, Junk());
      m := Mem(m.pages[f := Junk()], [f] + m.free);
      FreeListIgnored(With(old(m), f, Junk()), m, dirs, owner);
      forall d: nat
        ensures SameBut(old(m), m, dirs, d, 0, 0)
      {
        LookSame(old(m), m, dirs, owner, d);
      }
      assert forall g :: g in m.free <==> g == f || g in old(m).free;
    }

    /** walkpgdir: the table for page n, made if need be and if `alloc`; -1 for none. */
    method Walk(d: nat, n: nat, alloc: bool) returns (t: int)
      requires Valid() && d in dirs && n < ALL_PAGES
      modifies this`m, this`owner
      ensures Valid() && Managed() == old(Managed()) && SamePtes(old(m), m, dirs) && SameLeaves(old(m), m, old(owner))
      ensures t >= 0 ==> IsTable(m, d) && Pde(m, d, n / ENTRIES) == Pte(t, P + W + U) && IsTable(m, t)
      ensures t < 0 ==> IsTable(m, d) && !Present(Pde(m, d, n / ENTRIES)) && (alloc ==> m.free == [])
      ensures t < 0 || !alloc ==> m == old(m) && owner == old(owner)
      ensures Extends(FreeSet(old(m)), old(owner), owner, d) && SameSpare(old(m), m, old(owner))
      ensures alloc ==> (t < 0 <==> n / ENTRIES !in Have(old(m), d) && old(m).free == [])
      ensures t >= 0 ==> Paid(old(m), m, d, n / ENTRIES) && t != d
    {
      var i := n / ENTRIES;
      assert IsTable(m, d);
      if Present(m.pages[d].w[i]) {
        assert TabOk(m, owner, d, i);
        PaidNothing(m, d, i);
        return m.pages[d].w[i].frame;
      }
      if !alloc {
        return -1;
      }
      hide Owned;
      t := MakeTable(d, i);
    }

    method MakeTable(d: nat, i: nat) returns (t: int)
      requires Valid() && d in dirs && i < ENTRIES && IsTable(m, d) && !Present(Pde(m, d, i))
      modifies this`m, this`owner
      ensures Valid() && Managed() == old(Managed()) && SamePtes(old(m), m, dirs) && SameLeaves(old(m), m, old(owner))
      ensures t >= 0 ==> IsTable(m, d) && Pde(m, d, i) == Pte(t, P + W + U) && IsTable(m, t)
      ensures t < 0 ==> m == old(m) && owner == old(owner) && m.free == []
      ensures Extends(FreeSet(old(m)), old(owner), owner, d) && SameSpare(old(m), m, old(owner))
      ensures i !in Have(old(m), d) && (t >= 0 ==> Paid(old(m), m, d, i) && old(m).free != [] && t != d)
    {
      PopKeepsPtes(m, m, dirs, owner);
      hide Owned, FreeOk, SamePtes, AllTables, FreeSet, Paid;
      t := Kalloc();
      if t < 0 {
        return;
      }
      RootOwned(m, dirs, owner, d);
      PaidTable(old(m), m, d, i, t, Pte(t, P + W + U));
      InstallTable(old(m), m, dirs, owner, d, i, t);
      m := SetEntry(With(m, t, ZeroTable()), d, i, Pte(t, P + W + U));
      owner := owner[t := Tab(d, i)];
      assert Managed() == old(Managed());
    }

    /** mappages for one user page, with page f; false when there is no page for a table. */
    method MapUser(d: nat, n: nat, f: nat, perm: nat) returns (ok: bool)
      requires Valid() && d in dirs && n < USER_PAGES && AllTables(m, dirs) && Look(m, d, n) == Absent
      requires IsData(m, f) && 0 < f && f !in owner && f !in FreeSet(m)
      modifies this`m, this`owner
      ensures Valid() && AllTables(m, dirs) && Extends(FreeSet(old(m)) + {f}, old(owner), owner, d)
      ensures ok <==> n / ENTRIES in Have(old(m), d) || old(m).free != []
      ensures ok ==> Paid(old(m), m, d, n / ENTRIES)
      ensures ok ==>
              Managed() == old(Managed()) + {f} && SameBut(old(m), m, dirs, d, n, n + 1) &&
                  Look(m, d, n) == Mapped(OrP(perm), old(m).pages[f].b)
      ensures !ok ==> m == old(m) && owner == old(owner) && m.free == []
    {
      hide Owned, FreeOk, PtesBut, Paid, Have;
      ghost var m0, owner0 := m, owner;
      var t := Walk(d, n, true);
      if t < 0 {
        return false;
      }
      LookSame(m0, m, dirs, owner0, d);
      assert f !in FreeSet(m) && f !in owner && IsData(m, f);
      assert Look(m, d, n) == Absent;
      InstallLeaf(m, dirs, owner, d, n, f, OrP(perm));
      ghost var m1 := m;
      m := SetEntry(m, t, n % ENTRIES, Pte(f, OrP(perm)));
      owner := owner[f := Leaf(d, n / ENTRIES, n % ENTRIES)];
      PaidSame(m0, m1, m, d, n / ENTRIES);
      SameButTrans(m0, m1, m, dirs, d, 0, 0, n, n + 1, n, n + 1);
      return true;
    }

    /** deallocuvm's body for page n of table t. */
    method DropPage(d: nat, n: nat, t: nat)
      requires Valid() && d in dirs && n < USER_PAGES && IsTable(m, d) && Present(Pde(m, d, n / ENTRIES)) &&
               Pde(m, d, n / ENTRIES).frame == t && IsTable(m, t)
      modifies this`m, this`owner
      ensures Valid() && Managed() == old(Managed()) && Shrinks(old(owner), owner, d, n, n + 1)
      ensures SameBut(old(m), m, dirs, d, n, n + 1) && Look(m, d, n) == Absent && |m.pages| == |old(m).pages|
    {
      hide Owned, FreeOk, SameBut, Look, FreeSet, AllTables;
      var e := m.pages[t].w[n % ENTRIES];
      OwnedTables(m, dirs, owner);
      LookNothing(m, dirs, owner, d, n);
      if Present(e) {
        RemoveLeaf(m, dirs, owner, d, n);
        ghost var m0, owner0 := m, owner;
        m := SetEntry(m, t, n % ENTRIES, NONE);
        owner := owner - {e.frame};
        ghost var m1 := m;
        Kfree(e.frame);
        SameButTrans(m0, m1, m, dirs, d, n, n + 1, 0, 0, n, n + 1);
        StaysAbsent(m1, m, dirs, d, n);
        assert Managed() == old(Managed());
      }
    }

    /** deallocuvm: pages from newsz up to oldsz are freed, and no other. */
    method Deallocuvm(d: nat, oldsz: nat, newsz: nat) returns (r: nat)
      requires Valid() && d in dirs && oldsz <= USER_PAGES * PGSIZE
      modifies this`m, this`owner
      ensures Valid() && Managed() == old(Managed()) && Shrinks(old(owner), owner, d, Pages(newsz), Pages(oldsz))
      ensures r == if newsz >= oldsz then oldsz else newsz
      ensures newsz >= oldsz ==> m == old(m) && owner == old(owner)
      ensures newsz < oldsz ==> Dropped(old(m), m, dirs, d, Pages(newsz), Pages(oldsz)) && |m.pages| == |old(m).pages|
      ensures newsz < oldsz ==> ReadsLess(old(m), m, d, oldsz, newsz)
    {
      if newsz >= oldsz {
        return oldsz;
      }
      var a, hi := Pages(newsz), Pages(oldsz);
      DroppedNone(m, dirs, owner, d, a);
      hide Owned, FreeOk, Dropped, Pages, ReadsLess;
      PagesBound(newsz, oldsz);
      while a < hi
        invariant Pages(newsz) <= a && hi <= USER_PAGES
        invariant Valid() && Managed() == old(Managed()) && Shrinks(old(owner), owner, d, Pages(newsz), hi)
        invariant |m.pages| == |old(m).pages|
        invariant Dropped(old(m), m, dirs, d, Pages(newsz), Min(a, hi))
      {
        a := DropRound(d, a, Pages(newsz), hi, old(m), old(owner));
      }
      DroppedReads(old(m), m, dirs, d, oldsz, newsz);
      return newsz;
    }

    /** One round of deallocuvm, which frees page a or skips to the next table. */
    method DropRound(d: nat, a: nat, ghost lo: nat, hi: nat, ghost m0: Mem, ghost owner0: map<nat, Pos>)
      returns (a': nat)
      requires Valid() && d in dirs && lo <= a < hi <= USER_PAGES && Shrinks(owner0, owner, d, lo, hi) &&
               Dropped(m0, m, dirs, d, lo, Min(a, hi))
      modifies this`m, this`owner
      ensures Valid() && Managed() == old(Managed()) && Shrinks(owner0, owner, d, lo, hi) && |m.pages| == |old(m).pages|
      ensures a < a' && Dropped(m0, m, dirs, d, lo, Min(a', hi))
    {
      hide Owned, FreeOk, Dropped, FreeSet;
      ghost var m1 := m;
      var t := Walk(d, a, false);
      if t < 0 {
        DroppedSkip(m0, m, dirs, owner, d, lo, a, hi);
        return (a / ENTRIES + 1) * ENTRIES - 1 + 1;
      }
      DropPage(d, a, t);
      DroppedNext(m0, m1, m, dirs, d, lo, a);
      return a + 1;
    }

    /** allocuvm: the pages between the two sizes are added, zeroed and writable; when a
        page or a table cannot be had, all of them are given back. */
    method Allocuvm(d: nat, oldsz: nat, newsz: nat) returns (r: nat, ok: bool)
      requires Valid() && d in dirs && AllTables(m, dirs)
      requires forall n | Pages(oldsz) <= n < Pages(newsz) && n < USER_PAGES :: Look(m, d, n) == Absent
      modifies this`m, this`owner
      ensures Valid() && Managed() == old(Managed())
      ensures newsz >= USER_PAGES * PGSIZE ==> r == 0 && !ok && m == old(m)
      ensures newsz < oldsz && newsz < USER_PAGES * PGSIZE ==> r == oldsz && ok && m == old(m)
      ensures oldsz <= newsz < USER_PAGES * PGSIZE && ok ==>
              r == newsz && Grown(old(m), m, dirs, d, Pages(oldsz), Pages(newsz)) &&
              ReadsZeros(old(m), m, d, oldsz, newsz)
      ensures oldsz <= newsz < USER_PAGES * PGSIZE && ok ==>
              Pages(oldsz) <= Pages(newsz) && var n := Pages(newsz) - Pages(oldsz);
              Spent(old(m), m, d, Pages(oldsz), n, n)
      ensures !ok ==> r == 0 && SameBut(old(m), m, dirs, d, 0, 0)
      ensures oldsz <= newsz < USER_PAGES * PGSIZE ==>
              Pages(oldsz) <= Pages(newsz) &&
              (ok <==> |old(m).free| >= Pages(newsz) - Pages(oldsz) +
                       Missing(Have(old(m), d), Pages(oldsz), Pages(newsz) - Pages(oldsz)))
    {
      hide Owned, FreeOk, Grown, Pages, SameBut, FreeSet, Missing, Have, Look, AllTables, Spent, ReadsZeros;
      if newsz >= USER_PAGES * PGSIZE {
        GrownNone(m, dirs, owner, d, 0);
        return 0, false;
      }
      if newsz < oldsz {
        return oldsz, true;
      }
      PagesBound(oldsz, newsz);
      ghost var a;
      var mem;
      ok, mem, a := AddPages(d, Pages(oldsz), Pages(newsz));
      if !ok {
        GiveBack(d, oldsz, newsz, mem, a, old(m));
        return 0, false;
      }
      GrownReads(old(m), m, dirs, d, oldsz, newsz);
      return newsz, true;
    }

    /** What allocuvm does when it stops at page a: the pages added go, and then the page that
        was not mapped. */
    method GiveBack(d: nat, oldsz: nat, newsz: nat, mem: int, ghost a: nat, ghost m0: Mem)
      requires Valid() && d in dirs && Loose(mem) && AllTables(m0, dirs) && newsz < USER_PAGES * PGSIZE
      requires Pages(oldsz) <= a < Pages(newsz) <= USER_PAGES && Grown(m0, m, dirs, d, Pages(oldsz), a)
      requires forall n | Pages(oldsz) <= n < Pages(newsz) :: Look(m0, d, n) == Absent
      modifies this`m, this`owner
      ensures Valid() && Managed() == old(Managed()) + Only(mem) && SameBut(m0, m, dirs, d, 0, 0)
    {
      hide Owned, FreeOk, Grown, SameBut, Dropped, Shrinks, Look;
      ghost var m1 := m;
      PagesOrder(oldsz, newsz);
      var _ := Deallocuvm(d, newsz, oldsz);
      ghost var m2 := m;
      Ungrown(m0, m1, m2, dirs, d, Pages(oldsz), a, Pages(newsz));
      if mem >= 0 {
        Kfree(mem);
        SameButTrans(m0, m2, m, dirs, d, 0, 0, 0, 0, 0, 0);
      }
    }

    /** The loop of allocuvm; a is where it stopped, and mem the page that it could not map,
        -1 for none. */
    method AddPages(d: nat, lo: nat, hi: nat) returns (ok: bool, mem: int, ghost a: nat)
      requires Valid() && d in dirs && AllTables(m, dirs) && lo <= hi <= USER_PAGES
      requires forall n | lo <= n < hi :: Look(m, d, n) == Absent
      modifies this`m, this`owner
      ensures Valid() && AllTables(m, dirs) && Loose(mem) && Managed() + Only(mem) == old(Managed()) &&
              (ok ==> mem == -1)
      ensures lo <= a <= hi && Grown(old(m), m, dirs, d, lo, a) && (if ok then a == hi else a < hi)
      ensures ok <==> |old(m).free| >= hi - lo + Missing(Have(old(m), d), lo, hi - lo)
      ensures ok ==> Spent(old(m), m, d, lo, hi - lo, hi - lo)
    {
      hide Owned, FreeOk, Grown, Spent, Missing, Have, SameBut, Look;
      GrownNone(m, dirs, owner, d, lo);
      SpentNothing(m, d, lo);
      var k := lo;
      a, ok, mem := lo, true, -1;
      while k < hi
        invariant a == k && lo <= k <= hi && ok && mem == -1
        invariant Valid() && Managed() == old(Managed()) && AllTables(m, dirs)
        invariant Grown(old(m), m, dirs, d, lo, k)
        invariant Spent(old(m), m, d, lo, k - lo, k - lo)
      {
        ghost var m1 := m;
        ok, mem := AddPage(d, k, lo, old(m), hi);
        if !ok {
          SpentOut(old(m), m1, d, lo, k - lo, k - lo, 1, hi - lo);
          return;
        }
        k := k + 1;
        a := k;
      }
      SpentEnds(old(m), m, d, lo, hi - lo, hi - lo);
    }

    /** freevm: exactly the pages of the address space go to the free list. */
    method Freevm(d: nat)
      requires Valid() && d in dirs
      modifies this
      ensures Valid() && Managed() == old(Managed())
      ensures dirs == old(dirs) - {d} && owner == old(owner) - TreeOf(old(owner), d)
      ensures SameBut(old(m), m, dirs, d, 0, 0)
    {
      ghost var owner0, dirs0 := owner, dirs;
      hide Owned, FreeOk, SameBut, TreeOf, TableFrames, Look;
      var _ := Deallocuvm(d, USER_PAGES * PGSIZE, 0);
      ghost var m1, tree := m, TreeOf(owner, d);
      Dismantle(old(m), m, dirs, owner0, owner, d);
      dirs, owner := dirs - {d}, owner - tree;
      hide Dropped, Shrinks;
      FreeTables(d, tree);
      SameButTrans(old(m), m1, m, dirs, d, 0, 0, 0, 0, 0, 0);
    }

    /** The tables of directory d, which is out of use, and then d itself are freed. */
    method FreeTables(d: nat, ghost tree: set<nat>)
      requires Valid() && IsTable(m, d) && d !in dirs && d !in TableFrames(m.pages[d].w, ENTRIES)
      requires tree == TableFrames(m.pages[d].w, ENTRIES) + {d}
      requires forall f | f in tree :: 0 < f < |m.pages| && f !in owner && f !in FreeSet(m)
      requires forall i, j | 0 <= i < j < ENTRIES && Present(m.pages[d].w[i]) && Present(m.pages[d].w[j]) ::
               m.pages[d].w[i].frame != m.pages[d].w[j].frame
      modifies this`m
      ensures Valid() && FreeSet(m) == FreeSet(old(m)) + tree && SameBut(old(m), m, dirs, d, 0, 0)
    {
      PopKeeps(m, m, dirs, owner, d);
      hide Owned, FreeOk, SameBut;
      ghost var w := m.pages[d].w;
      var i := 0;
      while i < ENTRIES
        invariant i <= ENTRIES && Valid() && |m.pages| == |old(m).pages| && IsTable(m, d) && m.pages[d].w == w
        invariant FreeSet(m) == FreeSet(old(m)) + TableFrames(w, i) && SameBut(old(m), m, dirs, d, 0, 0)
      {
        ghost var m1 := m;
        if Present(m.pages[d].w[i]) {
          var f := m.pages[d].w[i].frame;
          assert f in TableFrames(w, ENTRIES);
          FramesNext(w, i);
          Kfree(f);
          SameButTrans(old(m), m1, m, dirs, d, 0, 0, 0, 0, 0, 0);
        } else {
          FramesSkip(w, i);
        }
        i := i + 1;
      }
      ghost var m2 := m;
      Kfree(d);
      SameButTrans(old(m), m2, m, dirs, d, 0, 0, 0, 0, 0, 0);
    }

    /** A page becomes an empty directory. */
    method NewDirectory() returns (d: int)
      requires Valid()
      modifies this
      ensures Valid() && Managed() == old(Managed())
      ensures d >= 0 ==>
              d in FreeSet(old(m)) && d !in old(dirs) && d !in old(owner) && dirs == old(dirs) + {d} &&
                  owner == old(owner)[d := Root(d)]
      ensures d >= 0 ==> IsTable(m, d) && m.pages[d] == ZeroTable() && |m.free| == |old(m).free| - 1
      ensures d < 0 ==> d == -1 && m == old(m) && owner == old(owner) && dirs == old(dirs) && m.free == []
      ensures forall e: nat :: SameBut(old(m), m, old(dirs), e, 0, 0)
    {
      forall e: nat ensures SameBut(m, m, dirs, e, 0, 0) { PopKeeps(m, m, dirs, owner, e); }
      d := Kalloc();
      if d < 0 {
        return;
      }
      AddRoot(old(m), m, dirs, owner, d);
      hide Owned, FreeOk, SameBut;
      m := With(m, d, ZeroTable());
      dirs, owner := dirs + {d}, owner[d := Root(d)];
      assert Managed() == old(Managed());
    }

    /** One round of mappages, for a kernel page. */
    method MapKernel(d: nat, n: nat, frame: nat, perm: nat) returns (ok: bool)
      requires Valid() && d in dirs && USER_PAGES <= n < ALL_PAGES && IsTable(m, d) && !Present(Entry(m, d, n)) &&
               (perm == 0 || perm == W)
      modifies this`m, this`owner
      ensures Valid() && Managed() == old(Managed()) && Extends(FreeSet(old(m)), old(owner), owner, d)
      ensures ok ==>
              SameBut(old(m), m, dirs, d, 0, 0) && EntriesBut(old(m), m, d, n, n + 1) &&
                  Entry(m, d, n) == Pte(frame, OrP(perm))
      ensures ok <==> n / ENTRIES in Have(old(m), d) || old(m).free != []
      ensures ok ==> Paid(old(m), m, d, n / ENTRIES)
      ensures !ok ==> m == old(m) && owner == old(owner) && m.free == []
    {
      ghost var m0, owner0 := m, owner;
      hide Owned, FreeOk, SameBut, SamePtes, EntriesBut, PteAt, Paid, Have;
      var t := Walk(d, n, true);
      if t < 0 {
        return false;
      }
      KernelInstalled(m0, m, dirs, owner0, owner, d, n, Pte(frame, OrP(perm)));
      ghost var m1 := m;
      m := SetEntry(m, t, n % ENTRIES, Pte(frame, OrP(perm)));
      PaidSame(m0, m1, m, d, n / ENTRIES);
      return true;
    }

    /** mappages for a region of the kernel's mappings. */
    method Mappages(d: nat, first: nat, count: nat, phys: nat, perm: nat) returns (ok: bool)
      requires Valid() && d in dirs && USER_PAGES <= first && 0 < count && first + count <= ALL_PAGES &&
               (perm == 0 || perm == W)
      requires Unmapped(m, d, first, count)
      modifies this`m, this`owner
      ensures Valid() && Managed() == old(Managed()) && Extends(FreeSet(old(m)), old(owner), owner, d)
      ensures SameBut(old(m), m, dirs, d, 0, 0)
      ensures ok ==> Mapping(old(m), m, d, first, count, phys, perm) && Spent(old(m), m, d, first, count, 0)
      ensures ok <==> |old(m).free| >= Missing(Have(old(m), d), first, count)
    {
      hide Owned, FreeOk, SameBut, Extends, Mapping, EntriesBut, FreeSet, Entry, Unmapped, Spent, Missing, Have;
      SpentNothing(m, d, first);
      PopKeeps(m, m, dirs, owner, d);
      MappingStarts(m, d, first, count, phys, perm);
      ExtendsNothing(FreeSet(m), owner, d);
      var k := 0;
      while k < count
        invariant k <= count && Progress(old(m), old(owner), d, first, k, phys, perm)
      {
        ghost var m1 := m;
        ok := MapRound(d, first, count, k, phys, perm, old(m), old(owner));
        if !ok {
          SpentOut(old(m), m1, d, first, k, 0, 0, count);
          return;
        }
        k := k + 1;
      }
      SpentEnds(old(m), m, d, first, count, 0);
      return true;
    }

    ghost predicate Progress(m0: Mem, owner0: map<nat, Pos>, d: nat, first: nat, k: nat, phys: nat, perm: nat)
      reads this
    {
      && Valid() && Managed() == FreeSet(m0) + owner0.Keys && Extends(FreeSet(m0), owner0, owner, d)
      && SameBut(m0, m, dirs, d, 0, 0) && Mapping(m0, m, d, first, k, phys, perm)
      && Spent(m0, m, d, first, k, 0)
    }

    method MapRound(d: nat, first: nat, count: nat, k: nat, phys: nat, perm: nat, ghost m0: Mem,
                    ghost owner0: map<nat, Pos>) returns (ok: bool)
      requires d in dirs && USER_PAGES <= first && k < count && first + count <= ALL_PAGES && (perm == 0 || perm == W)
      requires Unmapped(m0, d, first, count) && Progress(m0, owner0, d, first, k, phys, perm)
      modifies this`m, this`owner
      ensures Progress(m0, owner0, d, first, if ok then k + 1 else k, phys, perm)
      ensures ok <==> (first + k) / ENTRIES in Have(old(m), d) || old(m).free != []
    {
      hide Owned, FreeOk, SameBut, Extends, Mapping, EntriesBut, FreeSet, Entry, Unmapped, Spent, Paid, Have;
      ghost var m1, owner1 := m, owner;
      MappingNext(m0, m1, d, first, count, k, phys, perm);
      ok := MapKernel(d, first + k, phys + k, perm);
      if ok {
        ExtendsTrans(FreeSet(m0) + owner0.Keys, FreeSet(m0), FreeSet(m1), owner0, owner1, owner, d);
        SameButTrans(m0, m1, m, dirs, d, 0, 0, 0, 0, 0, 0);
        MappingStep(m0, m1, m, d, first, k, phys, perm);
        SpentNext(m0, m1, m1, m, d, first, k, 0);
      }
    }

    /** setupkvm: a new address space without user pages and with the kernel's mappings, or
        -1 with all pages given back. */
    method Setupkvm(kmap: seq<Region>) returns (d: int)
      requires Valid() && KmapOk(kmap)
      modifies this
      ensures Valid() && Managed() == old(Managed())
      ensures d >= 0 ==>
              d in FreeSet(old(m)) && d !in old(dirs) && dirs == old(dirs) + {d} && Fresh(m, d) &&
                  KernelMapped(m, d, kmap, |kmap|)
      ensures d >= 0 ==> Extends(FreeSet(old(m)), old(owner), owner, d)
      ensures d >= 0 <==> |old(m).free| >= 1 + |Tables(kmap, |kmap|)|
      ensures d >= 0 ==> Furnished(old(m), m, d, kmap, |kmap|)
      ensures d < 0 ==> d == -1 && dirs == old(dirs) && owner == old(owner)
      ensures forall e: nat :: SameBut(old(m), m, old(dirs), e, 0, 0)
    {
      hide Owned, FreeOk, SameBut, Fresh, KernelMapped, KmapOk, Extends, EntriesBut, Furnished, Spent, Missing, Have;
      d := NewDirectory();
      if d < 0 {
        return;
      }
      FurnishedNone(old(m), m, d, kmap);
      ghost var m1 := m;
      EmptySpace(m, dirs, owner, d, kmap);
      RootExtends(FreeSet(old(m)), old(owner), owner, d);
      var k := 0;
      while k < |kmap|
        invariant k <= |kmap| && Valid() && Managed() == old(Managed()) && dirs == old(dirs) + {d} && d in dirs
        invariant SameBut(m1, m, dirs, d, 0, 0) && KernelMapped(m, d, kmap, k) &&
                  Extends(FreeSet(old(m)), old(owner), owner, d)
        invariant Furnished(old(m), m, d, kmap, k)
      {
        ghost var m2, owner2 := m, owner;
        RegionFree(m, d, kmap, k);
        var ok := Mappages(d, kmap[k].first, kmap[k].count, kmap[k].phys, kmap[k].perm);
        SameButTrans(m1, m2, m, dirs, d, 0, 0, 0, 0, 0, 0);
        ExtendsTrans(old(Managed()), FreeSet(old(m)), FreeSet(m2), old(owner), owner2, owner, d);
        if !ok {
          ghost var m3 := m;
          FurnishedOut(old(m), m2, d, kmap, k);
          AllGivenBack(old(m), FreeSet(old(m)), old(dirs), old(owner), owner, d);
          Freevm(d);
          assert dirs == old(dirs);
          forall e: nat
            ensures SameBut(old(m), m, old(dirs), e, 0, 0)
          {
            ThreeSteps(old(m), m1, m3, m, old(dirs), d, e);
          }
          return -1;
        }
        RegionMapped(m2, m, d, kmap, k);
        FurnishedNext(old(m), m2, m, d, kmap, k);
        k := k + 1;
      }
      FurnishedEnds(old(m), m, d, kmap, k);
      StaysFresh(m1, m, dirs, d);
      forall e: nat ensures SameBut(old(m), m, old(dirs), e, 0, 0) { TwoSteps(old(m), m1, m, old(dirs), d, e); }
    }

    /** copyuvm: a new address space with the pages of d, on pages of its own.  It needs a page
        for each of them, for each table and for the directory.  If memory is out just when a
        page has been taken and its table is still to come, that page is not given back. */
    method Copyuvm(d: nat, sz: nat, kmap: seq<Region>) returns (c: int, ghost leaked: set<nat>)
      requires Valid() && d in dirs && KmapOk(kmap) && sz <= USER_PAGES * PGSIZE && AllTables(m, dirs)
      requires forall n | 0 <= n < Pages(sz) && n < USER_PAGES :: Look(m, d, n).Mapped?
      modifies this
      ensures Valid() && Managed() + leaked == old(Managed()) && leaked !! Managed()
      ensures SameBut(old(m), m, old(dirs), d, 0, 0)
      ensures c >= 0 ==>
              c !in old(dirs) && dirs == old(dirs) + {c} && Copies(old(m), m, old(dirs), d, c, Pages(sz)) &&
              ReadsAlike(old(m), d, m, c, sz) && leaked == {}
      ensures c < 0 ==>
              c == -1 && dirs == old(dirs) && owner == old(owner) && |leaked| <= 1 && leaked <= FreeSet(old(m))
      ensures c >= 0 <==> |old(m).free| >= 1 + |Tables(kmap, |kmap|)| + CopyNeed(Pages(sz))
      ensures leaked != {} <==> Leaks(|old(m).free| - 1 - |Tables(kmap, |kmap|)|, Pages(sz))
    {
      leaked := {};
      hide Owned, FreeOk, SameBut, Fresh, KernelMapped, KmapOk, Extends, Copies, Look, Pages, FreeSet, Have, Leaks;
      hide CopyNeed, Furnished, Copying, Tables, ReadsAlike;
      PagesBound(0, sz);
      c := Setupkvm(kmap);
      if c < 0 {
        NothingLeaks(|old(m).free| - 1 - |Tables(kmap, |kmap|)|, Pages(sz));
        return;
      }
      FurnishedForUser(old(m), m, c, kmap);
      CopyStarts(old(m), old(dirs), old(owner), d, c);
      var ok;
      ok, leaked := CopyOrGiveUp(d, c, Pages(sz), old(m), old(dirs), old(owner));
      if ok { CopiesRead(old(m), m, old(dirs), d, c, sz); }
      c := if ok then c else -1;
    }

    /** copyuvm after its setupkvm. */
    method CopyOrGiveUp(d: nat, c: nat, n: nat, ghost m0: Mem, ghost dirs0: set<nat>, ghost owner0: map<nat, Pos>)
      returns (ok: bool, ghost leaked: set<nat>)
      requires Copying(m0, dirs0, owner0, d, c, 0, {}) && Owned(m0, dirs0, owner0) && FreeOk(m0, owner0)
      requires n <= USER_PAGES && AllTables(m0, dirs0) && d in dirs0
      requires (forall k | 0 <= k < n :: Look(m0, d, k).Mapped?) && forall i | i in Have(m, c) :: i >= USER_DIR
      modifies this
      ensures Valid() && Managed() + leaked == FreeSet(m0) + owner0.Keys && leaked !! Managed()
      ensures SameBut(m0, m, dirs0, d, 0, 0)
      ensures if ok then dirs == dirs0 + {c} && Copies(m0, m, dirs0, d, c, n) && leaked == {}
              else dirs == dirs0 && owner == owner0 && |leaked| <= 1 && leaked <= FreeSet(m0)
      ensures ok <==> |old(m).free| >= CopyNeed(n)
      ensures leaked != {} <==> Leaks(|old(m).free|, n)
    {
      hide Owned, FreeOk, SameBut, Copies, Look, FreeSet, Have, Leaks, CopyNeed, Copying;
      ghost var i;
      ok, i, leaked := CopyPages(d, c, n, m0, dirs0, owner0);
      CopySoFar(m0, dirs0, owner0, d, c, i, leaked);
      if !ok {
        Abandon(c, d, i, leaked, m0, dirs0, owner0);
      }
    }

    lemma CopyStarts(m0: Mem, dirs0: set<nat>, owner0: map<nat, Pos>, d: nat, c: nat)
      requires Valid() && dirs == dirs0 + {c} && c !in dirs0 && d in dirs0 && Managed() == FreeSet(m0) + owner0.Keys
      requires SameBut(m0, m, dirs0, d, 0, 0) && Fresh(m, c) && Extends(FreeSet(m0), owner0, owner, c)
      ensures Copying(m0, dirs0, owner0, d, c, 0, {})
    {
      CopiesNone(m0, m, dirs0, d, c);
    }

    lemma CopySoFar(m0: Mem, dirs0: set<nat>, owner0: map<nat, Pos>, d: nat, c: nat, i: nat, leaked: set<nat>)
      requires Copying(m0, dirs0, owner0, d, c, i, leaked)
      ensures Valid() && dirs == dirs0 + {c} && Managed() + leaked == FreeSet(m0) + owner0.Keys && leaked !! Managed()
      ensures Copies(m0, m, dirs0, d, c, i) && SameBut(m0, m, dirs0, d, 0, 0)
    {
      CopiesSame(m0, m, dirs0, d, c, i);
    }

    /** copyuvm gives up the new address space c. */
    method Abandon(c: nat, ghost d: nat, ghost i: nat, ghost leaked: set<nat>, ghost m0: Mem, ghost dirs0: set<nat>,
                   ghost owner0: map<nat, Pos>)
      requires Copying(m0, dirs0, owner0, d, c, i, leaked) && Owned(m0, dirs0, owner0) && FreeOk(m0, owner0)
      modifies this
      ensures Valid() && Managed() + leaked == FreeSet(m0) + owner0.Keys && leaked !! Managed()
      ensures SameBut(m0, m, dirs0, d, 0, 0)
      ensures dirs == dirs0 && owner == owner0
    {
      hide Owned, FreeOk, SameBut, Extends, Copies, Look, FreeSet;
      AllGivenBack(m0, FreeSet(m0), dirs0, owner0, owner, c);
      ghost var m1 := m;
      Freevm(c);
      assert dirs == dirs0;
      GaveUp(m0, m1, m, dirs0, d, c, i);
    }

    /** The new address space c has the first k pages of d; no other page was given away,
        but for those in `leaked`. */
    ghost predicate Copying(m0: Mem, dirs0: set<nat>, owner0: map<nat, Pos>, d: nat, c: nat, k: nat, leaked: set<nat>)
      reads this
    {
      && Valid() && dirs == dirs0 + {c} && c !in dirs0 && d in dirs0 && Managed() + leaked == FreeSet(m0) + owner0.Keys
      && Copies(m0, m, dirs0, d, c, k) && Extends(FreeSet(m0), owner0, owner, c) && leaked !! Managed()
    }

    /** The loop of copyuvm; i is where it stopped. */
    method CopyPages(d: nat, c: nat, count: nat, ghost m0: Mem, ghost dirs0: set<nat>, ghost owner0: map<nat, Pos>)
      returns (ok: bool, ghost i: nat, ghost leaked: set<nat>)
      requires Copying(m0, dirs0, owner0, d, c, 0, {}) && count <= USER_PAGES && AllTables(m0, dirs0) && d in dirs0
      requires (forall n | 0 <= n < count :: Look(m0, d, n).Mapped?) && forall i | i in Have(m, c) :: i >= USER_DIR
      modifies this`m, this`owner
      ensures i <= count && Copying(m0, dirs0, owner0, d, c, i, leaked)
      ensures if ok then i == count && leaked == {} else |leaked| <= 1 && leaked <= FreeSet(m0)
      ensures ok <==> |old(m).free| >= CopyNeed(count)
      ensures leaked != {} <==> Leaks(|old(m).free|, count)
    {
      hide Copying, Look, Spent, Have, Leaks, CopyNeed, Missing;
      SpentNothing(m, c, 0);
      var k := 0;
      i, ok, leaked := 0, true, {};
      while k < count
        invariant i == k <= count && ok && leaked == {} && Copying(m0, dirs0, owner0, d, c, k, {})
        invariant Spent(old(m), m, c, 0, k, k)
      {
        ghost var m1 := m;
        ok, leaked := CopyPage(d, c, k, m0, dirs0, owner0, old(m));
        if !ok {
          CopyStops(old(m), m1, c, k, count);
          return;
        }
        k := k + 1;
        i := k;
      }
      CopyEnds(old(m), m, c, count);
    }

    /** One round of copyuvm. */
    method CopyPage(d: nat, c: nat, n: nat, ghost m0: Mem, ghost dirs0: set<nat>, ghost owner0: map<nat, Pos>,
                    ghost m1: Mem) returns (ok: bool, ghost leaked: set<nat>)
      requires Copying(m0, dirs0, owner0, d, c, n, {}) && n < USER_PAGES && AllTables(m0, dirs0) && d in dirs0 &&
               Look(m0, d, n).Mapped?
      requires Spent(m1, m, c, 0, n, n)
      modifies this`m, this`owner
      ensures Copying(m0, dirs0, owner0, d, c, if ok then n + 1 else n, leaked)
      ensures if ok then leaked == {} else |leaked| <= 1 && leaked <= FreeSet(m0)
      ensures ok <==> |old(m).free| >= 1 + if n / ENTRIES in Have(old(m), c) then 0 else 1
      ensures ok ==> Spent(m1, m, c, 0, n + 1, n + 1)
      ensures leaked != {} <==> !ok && old(m).free != []
    {
      leaked := {};
      hide Copying, Spare, Look, Owned, FreeOk, Spent, Paid, Have;
      CopySource(m0, dirs0, owner0, d, c, n);
      var pde := m.pages[d].w[n / ENTRIES];
      var e := m.pages[pde.frame].w[n % ENTRIES];
      var f := TakeCopy(e.frame, e.flags, m0, dirs0, owner0, d, c, n);
      if f < 0 {
        return false, {};
      }
      ghost var m2 := m;
      ok := PlaceCopy(f, e.flags, m0, dirs0, owner0, d, c, n);
      leaked := if ok then {} else {f};
      if ok { SpentNext(m1, old(m), m2, m, c, 0, n, n); }
    }

    lemma CopySource(m0: Mem, dirs0: set<nat>, owner0: map<nat, Pos>, d: nat, c: nat, n: nat)
      requires Copying(m0, dirs0, owner0, d, c, n, {}) && n < USER_PAGES && AllTables(m0, dirs0) && d in dirs0 &&
               Look(m0, d, n).Mapped?
      ensures IsTable(m, d) && IsTable(m, Pde(m, d, n / ENTRIES).frame)
      ensures var e := m.pages[Pde(m, d, n / ENTRIES).frame].w[n % ENTRIES];
              Present(e) && IsData(m, e.frame) && Look(m0, d, n) == Mapped(e.flags, m.pages[e.frame].b)
    {
      PageToCopy(m0, m, dirs0, dirs, owner, d, c, n);
    }

    /** Page f is in use nowhere, and has what page n of d held. */
    ghost predicate Spare(f: int, flags: nat, m0: Mem, dirs0: set<nat>, d: nat, c: nat, n: nat)
      reads this
    {
      && 0 < f && IsData(m, f) && f !in owner && f !in FreeSet(m) && f in FreeSet(m0)
      && d in dirs0 && AllTables(m0, dirs0) && n < USER_PAGES && Look(m0, d, n) == Mapped(flags, m.pages[f].b) &&
           flags % 2 == 1
      && c in dirs && AllTables(m, dirs) && Look(m, c, n) == Absent
    }

    /** kalloc, and a copy of page `frame` in the new page. */
    method TakeCopy(frame: nat, ghost flags: nat, ghost m0: Mem, ghost dirs0: set<nat>, ghost owner0: map<nat, Pos>,
                    ghost d: nat, ghost c: nat, ghost n: nat) returns (f: int)
      requires Copying(m0, dirs0, owner0, d, c, n, {}) && IsData(m, frame) && n < USER_PAGES
      requires AllTables(m0, dirs0) && Look(m0, d, n) == Mapped(flags, m.pages[frame].b) && flags % 2 == 1
      modifies this`m
      ensures f < 0 ==> m == old(m) && m.free == []
      ensures f >= 0 ==>
              Copying(m0, dirs0, owner0, d, c, n, {f}) && Spare(f, flags, m0, dirs0, d, c, n) &&
                  |m.free| == |old(m).free| - 1 && Have(m, c) == Have(old(m), c)
    {
      hide Owned, FreeOk, Copies, Look, Extends, FreeSet, AllTables, PteAt, Have;
      OwnedTables(m, dirs, owner);
      ghost var m1 := m;
      f := Kalloc();
      if f < 0 {
        return;
      }
      FreeFromStart(FreeSet(m0), FreeSet(m1), owner0, owner, c, f);
      CopiesAgain(m0, m1, m, dirs0, dirs, owner, d, c, n, f, frame);
      m := With(m, f, m.pages[frame]);
      HaveSame(m1, m, dirs, owner, c);
    }

    /** mappages of the copied page. */
    method PlaceCopy(f: nat, flags: nat, ghost m0: Mem, ghost dirs0: set<nat>, ghost owner0: map<nat, Pos>,
                     ghost d: nat, c: nat, n: nat) returns (ok: bool)
      requires Copying(m0, dirs0, owner0, d, c, n, {f}) && Spare(f, flags, m0, dirs0, d, c, n)
      modifies this`m, this`owner
      ensures Copying(m0, dirs0, owner0, d, c, if ok then n + 1 else n, if ok then {} else {f})
      ensures f in FreeSet(m0) && (ok <==> n / ENTRIES in Have(old(m), c) || old(m).free != [])
      ensures ok ==> Paid(old(m), m, c, n / ENTRIES)
    {
      hide Owned, FreeOk, SameBut, Copies, Look, PteAt, FreeSet, Extends, Have, Paid;
      ghost var m1, owner1 := m, owner;
      ok := MapUser(c, n, f, flags);
      ExtendsMore(FreeSet(m0), FreeSet(m1) + {f}, owner0, owner1, owner, c);
      if ok {
        CopiesNext(m0, m1, m, dirs0, d, c, n);
      }
    }

    /** Where copyout may write page n: the frame, 0 when the page is not present or not
        for the user, -1 when there is no table to look in.  There walkpgdir returns 0, and
        uva2ka takes the word at address 0 of the running program for the entry. */
    method Uva2ka(d: nat, n: nat) returns (f: int)
      requires Valid() && d in dirs && n < ALL_PAGES && IsTable(m, d)
      ensures f == -1 <==> !Present(Pde(m, d, n / ENTRIES))
      ensures f >= 0 ==>
              var e := PteAt(m, d, n / ENTRIES, n % ENTRIES); f == (if Present(e) && User(e) then e.frame else 0)
      ensures f > 0 ==> n < USER_PAGES && f in owner && owner[f] == Leaf(d, n / ENTRIES, n % ENTRIES) && IsData(m, f)
      ensures f >= -1
    {
      var pde := m.pages[d].w[n / ENTRIES];
      if !Present(pde) {
        return -1;
      }
      assert TabOk(m, owner, d, n / ENTRIES) && LeafOk(m, owner, d, n / ENTRIES, n % ENTRIES);
      var e := m.pages[pde.frame].w[n % ENTRIES];
      if !Present(e) {
        return 0;
      }
      if !User(e) {
        return 0;
      }
      assert PlaceOk(m, dirs, e.frame, owner[e.frame]);
      return e.frame;
    }

    /** copyout: the bytes of `src` go to addresses va on, page by page; k is how many it
        wrote before it came to the first page that is not a present user page.  It is Done
        if and only if there is no such page; the first one decides between the error
        return and the unchecked read, at which the model stops. */
    method Copyout(d: nat, va: nat, src: seq<int>) returns (r: Copied, k: nat)
      requires Valid() && d in dirs && va < ALL_PAGES * PGSIZE
      modifies this`m
      ensures Valid() && k <= |src| && (r == Done ==> k == |src|)
      ensures Poked(old(m), m, dirs, d, va, src[..k])
      ensures AllOpen(old(m), d, va, k) && ReadsWritten(old(m), m, d, va, src[..k])
      ensures r != Done ==> k < |src| && r == Access(old(m), d, (va + k) / PGSIZE)
    {
      k := 0;
      r := Done;
      PokedNothing(m, dirs, owner, d, va, src);
      hide Owned, FreeOk, Poked, Access, AllOpen, SameAccess, ReadsWritten;
      NoneOpened(m, d, va);
      while k < |src|
        invariant k <= |src| && r == Done && Valid() && Poked(old(m), m, dirs, d, va, src[..k])
        invariant AllOpen(old(m), d, va, k) && SameAccess(old(m), m, d)
        invariant k < |src| ==> va + k < ALL_PAGES * PGSIZE
      {
        r, k := CopyRound(d, va, src, k, old(m));
        if r != Done {
          break;
        }
      }
      PokedReads(old(m), m, dirs, d, va, src[..k]);
    }

    /** One round of copyout, to the end of the page or of the bytes. */
    method CopyRound(d: nat, va: nat, src: seq<int>, k: nat, ghost m0: Mem) returns (r: Copied, k': nat)
      requires Valid() && d in dirs && k < |src| && va + k < ALL_PAGES * PGSIZE && Poked(m0, m, dirs, d, va, src[..k])
      requires AllOpen(m0, d, va, k) && SameAccess(m0, m, d)
      modifies this`m
      ensures k' <= |src| && Valid() && Poked(m0, m, dirs, d, va, src[..k'])
      ensures AllOpen(m0, d, va, k') && SameAccess(m0, m, d)
      ensures if r == Done then k < k' && (k' < |src| ==> va + k' < ALL_PAGES * PGSIZE)
              else k' == k && r == Access(m0, d, (va + k) / PGSIZE)
    {
      hide Owned, FreeOk, Poked, Poke, Access, AllOpen, SameAccess, PteAt;
      OwnedTables(m, dirs, owner);
      var a := va + k;
      var f := Uva2ka(d, a / PGSIZE);
      StopHere(m0, m, dirs, owner, d, a / PGSIZE, f);
      if f <= 0 {
        return (if f == 0 then Refused else Unchecked), k;
      }
      var n := Min(PGSIZE - a % PGSIZE, |src| - k);
      PokeKeeps(m0, m, dirs, owner, d, va, src, k, n, f);
      PokeKeepsAccess(m0, m, dirs, owner, d, f, Poke(m.pages[f].b, a % PGSIZE, src[k..k + n]));
      OneMoreOpen(m0, d, va, k, n);
      m := With(m, f, Bytes(Poke(m.pages[f].b, a % PGSIZE, src[k..k + n])));
      return Done, k + n;
    }

    /** One round of allocuvm: a zeroed page becomes page a of d; false when there is none for
        it, or for its table, when mem is the page. */
    method AddPage(d: nat, a: nat, ghost lo: nat, ghost m0: Mem, ghost hi: nat) returns (ok: bool, mem: int)
      requires Valid() && d in dirs && lo <= a < hi <= USER_PAGES && Grown(m0, m, dirs, d, lo, a) &&
               AllTables(m, dirs) && AllTables(m0, dirs) && Spent(m0, m, d, lo, a - lo, a - lo)
      requires forall n | lo <= n < hi :: Look(m0, d, n) == Absent
      modifies this`m, this`owner
      ensures Valid() && AllTables(m, dirs) && Loose(mem) && Managed() + Only(mem) == old(Managed()) &&
              (ok ==> mem == -1)
      ensures Grown(m0, m, dirs, d, lo, if ok then a + 1 else a)
      ensures ok <==> |old(m).free| >= 1 + if a / ENTRIES in Have(old(m), d) then 0 else 1
      ensures ok ==> Spent(m0, m, d, lo, a + 1 - lo, a + 1 - lo)
    {
      hide Owned, FreeOk, SameBut, Spent, Paid, Have;
      var f := Kalloc();
      if f < 0 {
        return false, -1;
      }
      ghost var m1 := m;
      PopKeeps(old(m), m, dirs, owner, d);
      FreshPage(m, dirs, owner, f, ZeroData());
      m := With(m, f, ZeroData());
      ghost var m2 := m;
      HaveSame(old(m), m2, dirs, owner, d);
      LookSame(m1, m2, dirs, owner, d);
      GrownSame(m0, old(m), m1, dirs, d, lo, a);
      GrownSame(m0, m1, m2, dirs, d, lo, a);
      GrownAbsent(m0, m, dirs, d, lo, a);
      ok := MapUser(d, a, f, W + U);
      mem := if ok then -1 else f;
      if ok {
        SpentNext(m0, old(m), m2, m, d, lo, a - lo, a - lo);
        GrownNext(m0, m2, m, dirs, d, lo, a);
      }
    }
  }

  // ---------- kernel mappings ----------

  /** An entry of kmap, in pages. */
  datatype Region = Region(first: nat, count: nat, phys: nat, perm: nat)

  /** The regions lie above KERNBASE in ascending order, and are not for the user. */
  predicate KmapOk(kmap: seq<Region>) {
    && (forall k | 0 <= k < |kmap| ::
        USER_PAGES <= kmap[k].first && 0 < kmap[k].count && kmap[k].first + kmap[k].count <= ALL_PAGES &&
            (kmap[k].perm == 0 || kmap[k].perm == W))
    && (forall k, l | 0 <= k < l < |kmap| :: kmap[k].first + kmap[k].count <= kmap[l].first)
  }

  /** The tables that the first k regions lie in. */
  function Tables(kmap: seq<Region>, k: nat): (r: set<nat>)
    requires k <= |kmap|
  {
    if k == 0 then {} else Tables(kmap, k - 1) + Dirs(kmap[k - 1].first, kmap[k - 1].count)
  }

  /** From m0 to m, directory d was made, with exactly the tables of the first k regions. */
  ghost predicate Furnished(m0: Mem, m: Mem, d: nat, kmap: seq<Region>, k: nat)
    requires k <= |kmap|
  {
    Have(m, d) == Tables(kmap, k) && |m.free| + 1 + |Tables(kmap, k)| == |m0.free|
  }

  lemma FurnishedNone(m0: Mem, m: Mem, d: nat, kmap: seq<Region>)
    requires IsTable(m, d) && m.pages[d] == ZeroTable() && |m.free| + 1 == |m0.free|
    ensures Furnished(m0, m, d, kmap, 0)
  {
    assert Have(m, d) == {};
  }

  lemma TablesNext(kmap: seq<Region>, k: nat)
    requires k < |kmap|
    ensures |Tables(kmap, k + 1)| == |Tables(kmap, k)| + Missing(Tables(kmap, k), kmap[k].first, kmap[k].count)
  {
    var more := Dirs(kmap[k].first, kmap[k].count) - Tables(kmap, k);
    assert Tables(kmap, k + 1) == Tables(kmap, k) + more;
  }

  lemma {:induction false} TablesGrow(kmap: seq<Region>, k: nat)
    requires k <= |kmap|
    ensures |Tables(kmap, k)| <= |Tables(kmap, |kmap|)|
    decreases |kmap| - k
  {
    if k < |kmap| {
      TablesNext(kmap, k);
      TablesGrow(kmap, k + 1);
    }
  }

  lemma FurnishedNext(m0: Mem, m1: Mem, m2: Mem, d: nat, kmap: seq<Region>, k: nat)
    requires k < |kmap| && Furnished(m0, m1, d, kmap, k) && Spent(m1, m2, d, kmap[k].first, kmap[k].count, 0)
    ensures Furnished(m0, m2, d, kmap, k + 1)
  {
    TablesNext(kmap, k);
  }

  lemma FurnishedOut(m0: Mem, m: Mem, d: nat, kmap: seq<Region>, k: nat)
    requires k < |kmap| && Furnished(m0, m, d, kmap, k)
    requires |m.free| < Missing(Have(m, d), kmap[k].first, kmap[k].count)
    ensures |m0.free| < 1 + |Tables(kmap, |kmap|)|
  {
    TablesNext(kmap, k);
    TablesGrow(kmap, k + 1);
  }

  lemma FurnishedEnds(m0: Mem, m: Mem, d: nat, kmap: seq<Region>, k: nat)
    requires k == |kmap| && Furnished(m0, m, d, kmap, k)
    ensures |m0.free| >= 1 + |Tables(kmap, |kmap|)|
  {
  }

  lemma {:induction false} DirsRange(lo: nat, k: nat)
    ensures forall i: nat :: i in Dirs(lo, k) <==> k > 0 && lo / ENTRIES <= i <= (lo + k - 1) / ENTRIES
  {
    if k > 0 {
      DirsRange(lo, k - 1);
    }
  }

  /** The kernel's mappings, in pages: I/O space, the kernel's text of `text` pages, its data
      with all other memory up to PHYSTOP, and the devices. */
  function KernelMap(text: nat): (r: seq<Region>)
    requires 0 < text < 0xDF00
  {
    [Region(0x80000, 0x100, 0, W), Region(0x80100, text, 0x100, 0),
     Region(0x80100 + text, 0xDF00 - text, 0x100 + text, W), Region(0xFE000, 0x2000, 0xFE000, W)]
  }

  /** The kernel's half maps memory up to PHYSTOP from KERNBASE on and the devices in place,
      each page once, all writable but the kernel's text; the user can reach none of it. */
  lemma KernelMapIs(text: nat, n: nat)
    requires 0 < text < 0xDF00
    ensures (exists l :: InRegion(KernelMap(text), l, n)) <==> 0x80000 <= n < 0x8E000 || 0xFE000 <= n < 0x100000
    ensures forall l, l' | InRegion(KernelMap(text), l, n) && InRegion(KernelMap(text), l', n) :: l == l'
    ensures forall l | InRegion(KernelMap(text), l, n) ::
              var r := KernelMap(text)[l];
              && r.phys + (n - r.first) == (if n < 0xFE000 then n - 0x80000 else n)
              && (r.perm == 0 || r.perm == W) && (r.perm == 0 <==> 0x80100 <= n < 0x80100 + text)
  {
    var kmap := KernelMap(text);
    var l := if n < 0x80100 then 0 else if n < 0x80100 + text then 1 else if n < 0xFE000 then 2 else 3;
    if 0x80000 <= n < 0x8E000 || 0xFE000 <= n < 0x100000 {
      assert InRegion(kmap, l, n);
    }
  }

  predicate InRegion(kmap: seq<Region>, l: int, n: nat) {
    0 <= l < |kmap| && kmap[l].first <= n < kmap[l].first + kmap[l].count
  }

  /** Wherever the linker puts the data, they lie in 64 tables. */
  lemma KernelTables(text: nat)
    requires 0 < text < 0xDF00
    ensures KmapOk(KernelMap(text)) && |Tables(KernelMap(text), 4)| == 64
  {
    hide Dirs, Interval, Tables;
    var kmap := KernelMap(text);
    IntervalSize(512, 568);
    IntervalSize(1016, 1024);
    forall i: nat
      ensures i in Tables(kmap, 4) <==> i in Interval(512, 568) + Interval(1016, 1024)
    {
      TablesStep(kmap, 0, i);
      TablesStep(kmap, 1, i);
      TablesStep(kmap, 2, i);
      TablesStep(kmap, 3, i);
      assert i in Tables(kmap, 3) <==> 512 <= i <= 567;
    }
    assert Tables(kmap, 4) == Interval(512, 568) + Interval(1016, 1024);
    assert Interval(512, 568) !! Interval(1016, 1024);
  }

  lemma TablesStep(kmap: seq<Region>, k: nat, i: nat)
    requires k < |kmap| && kmap[k].count > 0
    ensures Tables(kmap, 0) == {}
    ensures i in Tables(kmap, k + 1) <==>
            i in Tables(kmap, k) || kmap[k].first / ENTRIES <= i <= (kmap[k].first + kmap[k].count - 1) / ENTRIES
  {
    DirsRange(kmap[k].first, kmap[k].count);
  }

  function Interval(a: nat, b: nat): (r: set<nat>)
    decreases b
  {
    if a >= b then {} else Interval(a, b - 1) + {b - 1}
  }

  lemma {:induction false} IntervalSize(a: nat, b: nat)
    requires a <= b
    ensures |Interval(a, b)| == b - a && forall i: nat :: i in Interval(a, b) <==> a <= i < b
  {
    if a < b {
      IntervalSize(a, b - 1);
    }
  }

  function Entry(m: Mem, d: nat, n: nat): (r: Pte)
    requires IsTable(m, d) && n < ALL_PAGES
  {
    PteAt(m, d, n / ENTRIES, n % ENTRIES)
  }

  /** No user page is mapped. */
  ghost predicate Fresh(m: Mem, d: nat) {
    IsTable(m, d) && forall n | 0 <= n < USER_PAGES :: Look(m, d, n) == Absent
  }

  /** The page after the first k regions. */
  function Bound(kmap: seq<Region>, k: nat): nat
    requires k <= |kmap|
  {
    if k == 0 then USER_PAGES else kmap[k - 1].first + kmap[k - 1].count
  }

  /** The first k regions are mapped as they say, and nothing above them is. */
  ghost predicate KernelMapped(m: Mem, d: nat, kmap: seq<Region>, k: nat) {
    && IsTable(m, d) && k <= |kmap|
    && (forall l, n | 0 <= l < k && kmap[l].first <= n < kmap[l].first + kmap[l].count && n < ALL_PAGES ::
          Entry(m, d, n) == Pte(kmap[l].phys + (n - kmap[l].first), OrP(kmap[l].perm)))
    && (forall n | Bound(kmap, k) <= n < ALL_PAGES :: !Present(Entry(m, d, n)))
  }

  ghost predicate EntriesBut(m: Mem, m': Mem, d: nat, lo: nat, hi: nat) {
    && IsTable(m, d) && IsTable(m', d)
    && (forall n | 0 <= n < ALL_PAGES && !(lo <= n < hi) :: Entry(m', d, n) == Entry(m, d, n))
  }

  /** Pages first to first + k map phys on; the other entries are as they were. */
  ghost predicate Mapping(m: Mem, m': Mem, d: nat, first: nat, k: nat, phys: nat, perm: nat) {
    && first + k <= ALL_PAGES && EntriesBut(m, m', d, first, first + k)
    && (forall n | first <= n < first + k :: Entry(m', d, n) == Pte(phys + (n - first), OrP(perm)))
  }

  ghost predicate Unmapped(m: Mem, d: nat, first: nat, count: nat) {
    IsTable(m, d) && forall n | first <= n < first + count && n < ALL_PAGES :: !Present(Entry(m, d, n))
  }

  lemma MappingStarts(m: Mem, d: nat, first: nat, count: nat, phys: nat, perm: nat)
    requires Unmapped(m, d, first, count) && first <= ALL_PAGES
    ensures Mapping(m, m, d, first, 0, phys, perm)
  {
  }

  lemma MappingNext(m: Mem, m': Mem, d: nat, first: nat, count: nat, k: nat, phys: nat, perm: nat)
    requires Mapping(m, m', d, first, k, phys, perm) && k < count && first + count <= ALL_PAGES
    requires Unmapped(m, d, first, count)
    ensures IsTable(m', d) && !Present(Entry(m', d, first + k))
  {
    assert Entry(m', d, first + k) == Entry(m, d, first + k);
  }

  lemma MappingStep(m: Mem, m1: Mem, m2: Mem, d: nat, first: nat, k: nat, phys: nat, perm: nat)
    requires Mapping(m, m1, d, first, k, phys, perm) && first + k < ALL_PAGES
    requires EntriesBut(m1, m2, d, first + k, first + k + 1) && Entry(m2, d, first + k) == Pte(phys + k, OrP(perm))
    ensures Mapping(m, m2, d, first, k + 1, phys, perm)
  {
    assert forall n | 0 <= n < ALL_PAGES && n != first + k :: Entry(m2, d, n) == Entry(m1, d, n);
  }

  lemma ExtendsNothing(free: set<nat>, owner: map<nat, Pos>, d: nat)
    ensures Extends(free, owner, owner, d)
  {
  }

  lemma RootExtends(free: set<nat>, owner: map<nat, Pos>, owner': map<nat, Pos>, d: nat)
    requires d in free && d !in owner && owner' == owner[d := Root(d)]
    ensures Extends(free, owner, owner', d)
  {
  }

  lemma ExtendsTrans(managed: set<nat>, free0: set<nat>, free1: set<nat>, owner0: map<nat, Pos>, owner1: map<nat, Pos>,
                     owner2: map<nat, Pos>, d: nat)
    requires Extends(free0, owner0, owner1, d) && Extends(free1, owner1, owner2, d)
    requires free0 + owner0.Keys == managed == free1 + owner1.Keys
    ensures Extends(free0, owner0, owner2, d)
  {
    forall f | f in owner2 && f !in owner0
      ensures f in free0 && owner2[f].d == d
    {
      if f !in owner1 { assert f in managed; }
    }
  }

  lemma AddRoot(m0: Mem, m: Mem, dirs: set<nat>, owner: map<nat, Pos>, d: nat)
    requires Owned(m0, dirs, owner) && Owned(m, dirs, owner) && FreeOk(m, owner) && m.pages == m0.pages
    requires 0 < d < |m.pages| && d !in owner && d !in FreeSet(m)
    ensures d !in dirs && Owned(With(m, d, ZeroTable()), dirs + {d}, owner[d := Root(d)]) &&
            FreeOk(With(m, d, ZeroTable()), owner[d := Root(d)])
    ensures forall e: nat :: SameBut(m0, With(m, d, ZeroTable()), dirs, e, 0, 0)
  {
    var m', dirs', owner' := With(m, d, ZeroTable()), dirs + {d}, owner[d := Root(d)];
    FreshPage(m, dirs, owner, d, ZeroTable());
    forall e, i | e in dirs' && 0 <= i < ENTRIES
      ensures IsTable(m', e) && TabOk(m', owner', e, i)
    {
      assert e != d ==> TabOk(m', owner, e, i);
    }
    forall e, i, j | e in dirs' && 0 <= i < ENTRIES && 0 <= j < ENTRIES
      ensures LeafOk(m', owner', e, i, j)
    {
      assert e != d ==> LeafOk(m', owner, e, i, j);
    }
    forall f | f in owner'
      ensures PlaceOk(m', dirs', f, owner'[f])
    {
      assert f != d ==> PlaceOk(m', dirs, f, owner[f]);
    }
    forall e: nat ensures SameBut(m0, m', dirs, e, 0, 0) {
      LookSame(m, m', dirs, owner, e);
      PopKeeps(m0, m, dirs, owner, e);
      SameButTrans(m0, m, m', dirs, e, 0, 0, 0, 0, 0, 0);
    }
  }

  lemma KernelInstalled(m0: Mem, m: Mem, dirs: set<nat>, owner0: map<nat, Pos>, owner: map<nat, Pos>, d: nat, n: nat,
                        e: Pte)
    requires Owned(m0, dirs, owner0) && Owned(m, dirs, owner) && FreeOk(m, owner) && SamePtes(m0, m, dirs) &&
             SameLeaves(m0, m, owner0)
    requires d in dirs && USER_PAGES <= n < ALL_PAGES && IsTable(m, d) && IsTable(m0, d) &&
             Present(Pde(m, d, n / ENTRIES)) && !User(e)
    ensures IsTable(m, Pde(m, d, n / ENTRIES).frame)
    ensures var m' := SetEntry(m, Pde(m, d, n / ENTRIES).frame, n % ENTRIES, e);
            && Owned(m', dirs, owner) && FreeOk(m', owner) && EntriesBut(m0, m', d, n, n + 1) && Entry(m', d, n) == e
            && SameBut(m0, m', dirs, d, 0, 0)
  {
    var i, j := n / ENTRIES, n % ENTRIES;
    KernelEntry(m, dirs, owner, d, i, j, e);
    EntryChanges(m, dirs, owner, d, i, j, e);
    var m' := SetEntry(m, Pde(m, d, i).frame, j, e);
    assert TabOk(m, owner, d, i);
    LookSame(m0, m, dirs, owner0, d);
    KernelUnseen(m, m', dirs, owner, d, i, j, e, d);
    SameButTrans(m0, m, m', dirs, d, 0, 0, 0, 0, 0, 0);
    forall k | 0 <= k < ALL_PAGES && k != n ensures Entry(m', d, k) == Entry(m0, d, k) {
      assert PteAt(m', d, k / ENTRIES, k % ENTRIES) == PteAt(m, d, k / ENTRIES, k % ENTRIES);
      assert PteAt(m, d, k / ENTRIES, k % ENTRIES) == PteAt(m0, d, k / ENTRIES, k % ENTRIES);
    }
  }

  lemma KernelUnseen(m: Mem, m': Mem, dirs: set<nat>, owner: map<nat, Pos>, d: nat, i: nat, j: nat, e: Pte, x: nat)
    requires Owned(m, dirs, owner) && d in dirs && USER_DIR <= i < ENTRIES && j < ENTRIES &&
             PtesBut(m, m', dirs, d, i, j, e) && SameLeaves(m, m', owner)
    ensures SameBut(m, m', dirs, x, 0, 0)
  {
    forall d', n | d' in dirs && 0 <= n < USER_PAGES
      ensures Look(m', d', n) == Look(m, d', n)
    {
      assert LeafOk(m, owner, d', n / ENTRIES, n % ENTRIES);
      assert PteAt(m', d', n / ENTRIES, n % ENTRIES) == PteAt(m, d', n / ENTRIES, n % ENTRIES);
    }
  }

  lemma EmptySpace(m: Mem, dirs: set<nat>, owner: map<nat, Pos>, d: nat, kmap: seq<Region>)
    requires Owned(m, dirs, owner) && d in dirs && IsTable(m, d) && m.pages[d] == ZeroTable()
    ensures Fresh(m, d) && KernelMapped(m, d, kmap, 0) && SameBut(m, m, dirs, d, 0, 0)
  {
    assert forall n | 0 <= n < ALL_PAGES :: Entry(m, d, n) == NONE;
    PopKeeps(m, m, dirs, owner, d);
  }

  lemma RegionFree(m: Mem, d: nat, kmap: seq<Region>, k: nat)
    requires KernelMapped(m, d, kmap, k) && KmapOk(kmap) && k < |kmap|
    ensures USER_PAGES <= kmap[k].first && 0 < kmap[k].count && kmap[k].first + kmap[k].count <= ALL_PAGES &&
            (kmap[k].perm == 0 || kmap[k].perm == W)
    ensures Unmapped(m, d, kmap[k].first, kmap[k].count)
  {
  }

  lemma RegionMapped(m: Mem, m': Mem, d: nat, kmap: seq<Region>, k: nat)
    requires KernelMapped(m, d, kmap, k) && KmapOk(kmap) && k < |kmap|
    requires Mapping(m, m', d, kmap[k].first, kmap[k].count, kmap[k].phys, kmap[k].perm)
    ensures KernelMapped(m', d, kmap, k + 1)
  {
    forall l, n | 0 <= l < k + 1 && kmap[l].first <= n < kmap[l].first + kmap[l].count && n < ALL_PAGES
      ensures Entry(m', d, n) == Pte(kmap[l].phys + (n - kmap[l].first), OrP(kmap[l].perm))
    {
      if l < k { assert kmap[l].first + kmap[l].count <= kmap[k].first; }
    }
    forall n | Bound(kmap, k + 1) <= n < ALL_PAGES
      ensures !Present(Entry(m', d, n))
    {
      assert Bound(kmap, k) <= kmap[k].first;
    }
  }

  /** freevm of a new address space leaves what there was before it. */
  lemma AllGivenBack(m: Mem, free: set<nat>, dirs: set<nat>, owner: map<nat, Pos>, owner': map<nat, Pos>, d: nat)
    requires Owned(m, dirs, owner) && d !in dirs && Extends(free, owner, owner', d)
    ensures owner' - TreeOf(owner', d) == owner
  {
    forall f | f in owner ensures owner[f].d != d { assert PlaceOk(m, dirs, f, owner[f]); }
  }

  lemma StaysFresh(m: Mem, m': Mem, dirs: set<nat>, d: nat)
    requires Fresh(m, d) && d in dirs && SameBut(m, m', dirs, d, 0, 0)
    ensures Fresh(m', d)
  {
    assert forall n | 0 <= n < USER_PAGES :: Look(m', d, n) == Look(m, d, n);
  }

  lemma TwoSteps(m0: Mem, m1: Mem, m2: Mem, dirs: set<nat>, d: nat, e: nat)
    requires SameBut(m0, m1, dirs, e, 0, 0) && SameBut(m1, m2, dirs + {d}, d, 0, 0)
    ensures SameBut(m0, m2, dirs, e, 0, 0)
  {
    forall x, n | x in dirs && 0 <= n < USER_PAGES
      ensures AllTables(m0, dirs) && AllTables(m2, dirs) && Look(m2, x, n) == Look(m0, x, n)
    {
      assert x in dirs + {d};
      assert Look(m1, x, n) == Look(m0, x, n);
      assert Look(m2, x, n) == Look(m1, x, n);
    }
  }

  lemma ThreeSteps(m0: Mem, m1: Mem, m2: Mem, m3: Mem, dirs: set<nat>, d: nat, e: nat)
    requires SameBut(m0, m1, dirs, e, 0, 0) && SameBut(m1, m2, dirs + {d}, d, 0, 0) && SameBut(m2, m3, dirs, d, 0, 0)
    ensures SameBut(m0, m3, dirs, e, 0, 0)
  {
    TwoSteps(m0, m1, m2, dirs, d, e);
    forall x, n | x in dirs && 0 <= n < USER_PAGES
      ensures AllTables(m0, dirs) && AllTables(m3, dirs) && Look(m3, x, n) == Look(m0, x, n)
    {
      assert Look(m2, x, n) == Look(m0, x, n);
      assert Look(m3, x, n) == Look(m2, x, n);
    }
  }

  // ---------- copyuvm ----------

  /** Address space c has the first k pages of d, with the same bytes and flags, and no
      more; the address spaces there were before are as they were. */
  ghost predicate Copies(m0: Mem, m: Mem, dirs: set<nat>, d: nat, c: nat, k: nat) {
    && d in dirs && SameBut(m0, m, dirs, d, 0, 0) && IsTable(m, c)
    && (forall n | 0 <= n < USER_PAGES :: Look(m, c, n) == if n < k then Look(m0, d, n) else Absent)
  }

  /** The pages that a copy of n pages needs, with the tables for them. */
  function CopyNeed(n: nat): (r: nat) {
    n + (n + ENTRIES - 1) / ENTRIES
  }

  /** With so many pages a copy comes to a page that needs its (t + 1)-th table and has taken
      the last free page for it. */
  function LeakPoint(t: nat): (r: nat) {
    t * (ENTRIES + 1) + 1
  }

  ghost predicate Leaks(free: int, n: nat) {
    exists t: nat :: LeakPoint(t) == free && t * ENTRIES < n
  }

  lemma NothingLeaks(free: int, n: nat)
    requires free <= 0
    ensures !Leaks(free, n)
  {
  }

  lemma LeakPointIsBetween(t: nat, k: nat)
    ensures k <= t * ENTRIES ==> CopyNeed(k) < LeakPoint(t)
    ensures k > t * ENTRIES ==> CopyNeed(k) > LeakPoint(t)
  {
  }

  /** The tables for the first n user pages. */
  lemma {:induction false} UserDirs(n: nat)
    ensures forall i: nat :: i in Dirs(0, n) <==> i * ENTRIES < n
    ensures |Dirs(0, n)| == (n + ENTRIES - 1) / ENTRIES
  {
    if n > 0 {
      UserDirs(n - 1);
      forall i: nat
        ensures i in Dirs(0, n) <==> i * ENTRIES < n
      {
        LastDir(i, n);
      }
      LastCount(n);
    }
  }

  lemma LastDir(i: nat, n: nat)
    requires n > 0
    ensures i * ENTRIES < n <==> i * ENTRIES < n - 1 || i == (n - 1) / ENTRIES
  {
  }

  lemma LastCount(n: nat)
    requires n > 0
    ensures (n + ENTRIES - 1) / ENTRIES ==
            (n + ENTRIES - 2) / ENTRIES + if (n - 1) / ENTRIES * ENTRIES < n - 1 then 0 else 1
  {
  }

  lemma UserMissing(h: set<nat>, n: nat)
    requires n <= USER_PAGES && forall i | i in h :: i >= USER_DIR
    ensures n + Missing(h, 0, n) == CopyNeed(n)
    ensures n < USER_PAGES ==> (n / ENTRIES in h + Dirs(0, n) <==> n % ENTRIES != 0)
  {
    UserDirs(n);
    assert Dirs(0, n) - h == Dirs(0, n);
  }

  lemma CopyStops(m0: Mem, m: Mem, c: nat, k: nat, n: nat)
    requires Spent(m0, m, c, 0, k, k) && k < n <= USER_PAGES && forall i | i in Have(m0, c) :: i >= USER_DIR
    requires |m.free| < 1 + if k / ENTRIES in Have(m, c) then 0 else 1
    ensures |m0.free| < CopyNeed(n)
    ensures Leaks(|m0.free|, n) <==> m.free != []
  {
    var h := Have(m0, c);
    SpentOut(m0, m, c, 0, k, k, 1, n);
    UserMissing(h, k);
    UserMissing(h, n);
    assert |m0.free| == |m.free| + CopyNeed(k);
    if m.free != [] {
      assert LeakPoint(k / ENTRIES) == |m0.free|;
    } else {
      forall t: nat ensures LeakPoint(t) != |m0.free| { LeakPointIsBetween(t, k); }
    }
  }

  lemma CopyEnds(m0: Mem, m: Mem, c: nat, n: nat)
    requires Spent(m0, m, c, 0, n, n) && n <= USER_PAGES && forall i | i in Have(m0, c) :: i >= USER_DIR
    ensures |m0.free| >= CopyNeed(n) && !Leaks(|m0.free|, n)
  {
    UserMissing(Have(m0, c), n);
    forall t: nat | t * ENTRIES < n ensures LeakPoint(t) != |m0.free| { LeakPointIsBetween(t, n); }
  }

  lemma {:induction false} DirsAbove(lo: nat, k: nat)
    requires lo >= USER_PAGES
    ensures forall i | i in Dirs(lo, k) :: i >= USER_DIR
  {
    if k > 0 {
      DirsAbove(lo, k - 1);
    }
  }

  lemma {:induction false} TablesAbove(kmap: seq<Region>, k: nat)
    requires KmapOk(kmap) && k <= |kmap|
    ensures forall i | i in Tables(kmap, k) :: i >= USER_DIR
  {
    if k > 0 {
      TablesAbove(kmap, k - 1);
      DirsAbove(kmap[k - 1].first, kmap[k - 1].count);
    }
  }

  lemma FurnishedForUser(m0: Mem, m: Mem, c: nat, kmap: seq<Region>)
    requires KmapOk(kmap) && Furnished(m0, m, c, kmap, |kmap|)
    ensures forall i | i in Have(m, c) :: i >= USER_DIR
    ensures |m.free| == |m0.free| - 1 - |Tables(kmap, |kmap|)|
  {
    TablesAbove(kmap, |kmap|);
  }

  /** A machine on which a copy loses a page: an address space with one page, and as many
      free pages as a new address space needs before its first page, and one more. */
  method CopyLosesPage(kmap: seq<Region>) returns (vm: Vm, ghost leaked: set<nat>)
    requires KmapOk(kmap)
    ensures vm.Valid() && |leaked| == 1 && leaked !! vm.Managed()
  {
    hide Owned, FreeOk, SameBut, KmapOk, Copies, Leaks, Tables, Look, FreeSet, Pages, AllTables;
    var d;
    vm, d := OnePageSpace(kmap, 2 + |Tables(kmap, |kmap|)|);
    FirstLeaks();
    OnePage();
    var c;
    c, leaked := vm.Copyuvm(d, 1, kmap);
  }

  /** A machine with one address space of one page, and `left` free pages. */
  method OnePageSpace(kmap: seq<Region>, left: nat) returns (vm: Vm, d: nat)
    requires KmapOk(kmap)
    ensures fresh(vm) && vm.Valid() && d in vm.dirs && AllTables(vm.m, vm.dirs) && Look(vm.m, d, 0).Mapped?
    ensures |vm.m.free| == left
  {
    hide Owned, FreeOk, SameBut, KernelMapped, KmapOk, Extends, Have, Missing, Spent, Tables, Furnished;
    hide Fresh, Grown, Look, FreeSet, Pages, AllTables;
    vm := new Vm(left + |Tables(kmap, |kmap|)| + 4, 1);
    ghost var m0 := vm.m;
    d := vm.Setupkvm(kmap);
    ghost var m1 := vm.m;
    FurnishedForUser(m0, m1, d, kmap);
    FreshSpace(m1, vm.dirs, vm.owner, d);
    OneMissing(m1, d);
    OnePage();
    var _, ok := vm.Allocuvm(d, 0, 1);
    OneMapped(m1, vm.m, vm.dirs, vm.owner, d);
  }

  lemma OnePage()
    ensures Pages(0) == 0 && Pages(1) == 1
  {
  }

  lemma FreshSpace(m: Mem, dirs: set<nat>, owner: map<nat, Pos>, d: nat)
    requires Owned(m, dirs, owner) && d in dirs && Fresh(m, d)
    ensures AllTables(m, dirs) && forall n | 0 <= n < USER_PAGES :: Look(m, d, n) == Absent
  {
    OwnedTables(m, dirs, owner);
  }

  lemma OneMissing(m: Mem, d: nat)
    requires forall i | i in Have(m, d) :: i >= USER_DIR
    ensures Missing(Have(m, d), 0, 1) == 1
  {
    UserMissing(Have(m, d), 1);
  }

  lemma OneMapped(m1: Mem, m: Mem, dirs: set<nat>, owner: map<nat, Pos>, d: nat)
    requires Owned(m, dirs, owner) && Grown(m1, m, dirs, d, 0, 1) && Spent(m1, m, d, 0, 1, 1)
    requires forall i | i in Have(m1, d) :: i >= USER_DIR
    ensures AllTables(m, dirs) && Look(m, d, 0).Mapped? && |m.free| == |m1.free| - 2
  {
    OneMissing(m1, d);
    OwnedTables(m, dirs, owner);
  }

  lemma FirstLeaks()
    ensures Leaks(1, 1)
  {
    assert LeakPoint(0) == 1;
  }

  /** copyout into an address space without user pages: there is no table to look in. */
  method CopyoutUnchecked(kmap: seq<Region>) returns (r: Copied)
    requires KmapOk(kmap)
    ensures r == Unchecked
  {
    hide Owned, FreeOk, SameBut, KernelMapped, KmapOk, Extends, Have, Tables, Furnished, Fresh, Look, FreeSet, Poked;
    hide AllOpen;
    var vm := new Vm(2 + |Tables(kmap, |kmap|)|, 1);
    ghost var m0 := vm.m;
    var d := vm.Setupkvm(kmap);
    FurnishedForUser(m0, vm.m, d, kmap);
    NoFirstTable(vm.m, d);
    var k;
    r, k := vm.Copyout(d, 0, [0]);
  }

  lemma NoFirstTable(m: Mem, d: nat)
    requires forall i | i in Have(m, d) :: i >= USER_DIR
    ensures Access(m, d, 0) == Unchecked && !AllOpen(m, d, 0, 1)
  {
    assert IsTable(m, d) && Present(m.pages[d].w[0]) ==> 0 in Have(m, d);
    assert Access(m, d, 0) == Unchecked;
  }

  lemma CopiesNone(m0: Mem, m: Mem, dirs: set<nat>, d: nat, c: nat)
    requires d in dirs && SameBut(m0, m, dirs, d, 0, 0) && Fresh(m, c)
    ensures Copies(m0, m, dirs, d, c, 0)
  {
  }

  lemma CopiesSame(m0: Mem, m: Mem, dirs: set<nat>, d: nat, c: nat, k: nat)
    requires Copies(m0, m, dirs, d, c, k)
    ensures SameBut(m0, m, dirs, d, 0, 0)
  {
  }

  /** The page to copy is present, in m as in m0. */
  lemma PageToCopy(m0: Mem, m: Mem, dirs0: set<nat>, dirs: set<nat>, owner: map<nat, Pos>, d: nat, c: nat, n: nat)
    requires Owned(m, dirs, owner) && dirs == dirs0 + {c} && Copies(m0, m, dirs0, d, c, n) && n < USER_PAGES &&
             AllTables(m0, dirs0) && Look(m0, d, n).Mapped?
    ensures IsTable(m, d) && Present(Pde(m, d, n / ENTRIES)) && IsTable(m, Pde(m, d, n / ENTRIES).frame)
    ensures var e := PteAt(m, d, n / ENTRIES, n % ENTRIES);
            Present(e) && IsData(m, e.frame) && Look(m0, d, n) == Mapped(e.flags, m.pages[e.frame].b)
  {
    assert d in dirs;
    assert Look(m, d, n) == Look(m0, d, n);
    assert TabOk(m, owner, d, n / ENTRIES);
  }

  lemma CopiesAgain(m0: Mem, m1: Mem, m2: Mem, dirs0: set<nat>, dirs: set<nat>, owner: map<nat, Pos>, d: nat, c: nat,
                    n: nat, f: nat, frame: nat)
    requires Owned(m1, dirs, owner) && m2.pages == m1.pages && dirs == dirs0 + {c} && Copies(m0, m1, dirs0, d, c, n) &&
             n < USER_PAGES
    requires f < |m2.pages| && f !in owner && IsData(m2, frame) && Owned(m2, dirs, owner) && FreeOk(m2, owner)
    ensures var m3 := With(m2, f, m2.pages[frame]);
            && Copies(m0, m3, dirs0, d, c, n) && AllTables(m3, dirs) && Look(m3, c, n) == Absent
            && Owned(m3, dirs, owner) && FreeOk(m3, owner) && FreeSet(m3) == FreeSet(m2)
  {
    var m3 := With(m2, f, m2.pages[frame]);
    PopKeeps(m1, m2, dirs, owner, d);
    FreshPage(m2, dirs, owner, f, m2.pages[frame]);
    LookSame(m2, m3, dirs, owner, d);
    SameButTrans(m1, m2, m3, dirs, d, 0, 0, 0, 0, 0, 0);
    assert c in dirs;
    assert forall k | 0 <= k < USER_PAGES :: Look(m3, c, k) == Look(m1, c, k);
    forall x, k | x in dirs0 && 0 <= k < USER_PAGES
      ensures Look(m3, x, k) == Look(m0, x, k)
    {
      assert x in dirs;
      assert Look(m1, x, k) == Look(m0, x, k);
      assert Look(m3, x, k) == Look(m1, x, k);
    }
  }

  lemma CopiesNext(m0: Mem, m: Mem, m': Mem, dirs0: set<nat>, d: nat, c: nat, n: nat)
    requires Copies(m0, m, dirs0, d, c, n) && n < USER_PAGES && c !in dirs0 && SameBut(m, m', dirs0 + {c}, c, n, n + 1)
    requires IsTable(m', c) && AllTables(m0, dirs0) && Look(m', c, n) == Look(m0, d, n)
    ensures Copies(m0, m', dirs0, d, c, n + 1)
  {
    forall x, k | x in dirs0 && 0 <= k < USER_PAGES
      ensures AllTables(m', dirs0) && Look(m', x, k) == Look(m0, x, k)
    {
      assert x in dirs0 + {c};
      assert Look(m, x, k) == Look(m0, x, k);
      assert Look(m', x, k) == Look(m, x, k);
    }
    forall k | 0 <= k < USER_PAGES
      ensures Look(m', c, k) == if k < n + 1 then Look(m0, d, k) else Absent
    {
      assert c in dirs0 + {c};
      if k != n { assert Look(m', c, k) == Look(m, c, k); }
    }
  }

  lemma FreeFromStart(free0: set<nat>, free1: set<nat>, owner0: map<nat, Pos>, owner1: map<nat, Pos>, c: nat, f: nat)
    requires Extends(free0, owner0, owner1, c) && free0 + owner0.Keys == free1 + owner1.Keys && f in free1 &&
             f !in owner1
    ensures f in free0
  {
    assert f in free1 + owner1.Keys;
  }

  lemma ExtendsMore(free0: set<nat>, avail: set<nat>, owner0: map<nat, Pos>, owner1: map<nat, Pos>,
                    owner2: map<nat, Pos>, c: nat)
    requires Extends(free0, owner0, owner1, c) && Extends(avail, owner1, owner2, c) && avail <= free0 + owner0.Keys
    ensures Extends(free0, owner0, owner2, c)
  {
    forall g | g in owner2 && g !in owner0
      ensures g in free0 && owner2[g].d == c
    {
      if g !in owner1 { assert g in free0 + owner0.Keys; }
    }
  }

  /** The frames of different pages, in one address space or in two, are different. */
  lemma FramesDisjoint(m: Mem, dirs: set<nat>, owner: map<nat, Pos>, d: nat, n: nat, d': nat, n': nat)
    requires Owned(m, dirs, owner) && d in dirs && d' in dirs && n < USER_PAGES && n' < USER_PAGES &&
             (d != d' || n != n')
    requires IsTable(m, d) && IsTable(m, d') && Present(Entry(m, d, n)) && Present(Entry(m, d', n'))
    ensures Entry(m, d, n).frame != Entry(m, d', n').frame
  {
    assert LeafOk(m, owner, d, n / ENTRIES, n % ENTRIES) && LeafOk(m, owner, d', n' / ENTRIES, n' % ENTRIES);
  }

  lemma GaveUp(m0: Mem, m1: Mem, m2: Mem, dirs: set<nat>, d: nat, c: nat, k: nat)
    requires Copies(m0, m1, dirs, d, c, k) && SameBut(m1, m2, dirs, c, 0, 0)
    ensures SameBut(m0, m2, dirs, d, 0, 0)
  {
    forall x, n | x in dirs && 0 <= n < USER_PAGES
      ensures AllTables(m0, dirs) && AllTables(m2, dirs) && Look(m2, x, n) == Look(m0, x, n)
    {
      assert Look(m1, x, n) == Look(m0, x, n);
      assert Look(m2, x, n) == Look(m1, x, n);
    }
  }

  // ---------- copyout ----------

  datatype Copied = Done | Refused | Unchecked

  function Poke(b: seq<int>, o: nat, part: seq<int>): (r: seq<int>)
    requires o + |part| <= |b|
    ensures |r| == |b|
  {
    b[..o] + part + b[o + |part|..]
  }

  /** The page that starts at address `base`, with src written at addresses va on. */
  function Overlay(b: seq<int>, base: nat, va: nat, src: seq<int>): (r: seq<int>) {
    seq(|b|, k requires 0 <= k < |b| => if va <= base + k < va + |src| then src[base + k - va] else b[k])
  }

  function OverlayPage(u: UPage, base: nat, va: nat, src: seq<int>): (r: UPage) {
    match u
    case Absent => Absent
    case Mapped(flags, b) => Mapped(flags, Overlay(b, base, va, src))
  }

  /** Address space d has src at addresses va on; all else is as it was. */
  ghost predicate Poked(m0: Mem, m: Mem, dirs: set<nat>, d: nat, va: nat, src: seq<int>) {
    && AllTables(m0, dirs) && AllTables(m, dirs)
    && forall d', n | d' in dirs && 0 <= n < USER_PAGES ::
         Look(m, d', n) == if d' == d then OverlayPage(Look(m0, d', n), n * PGSIZE, va, src) else Look(m0, d', n)
  }

  /** What uva2ka makes of page n; without a page table for it, uva2ka reads an entry through
      the 0 that walkpgdir returns. */
  function Access(m: Mem, d: nat, n: nat): (r: Copied) {
    if !IsTable(m, d) || n >= ALL_PAGES || !Present(Pde(m, d, n / ENTRIES)) then Unchecked
    else
      var e := PteAt(m, d, n / ENTRIES, n % ENTRIES);
      if Present(e) && User(e) then Done else Refused
  }

  ghost predicate SameAccess(m: Mem, m': Mem, d: nat) {
    forall n: nat :: Access(m', d, n) == Access(m, d, n)
  }

  /** The k bytes at addresses va on lie on present user pages. */
  ghost predicate AllOpen(m: Mem, d: nat, va: nat, k: nat) {
    k > 0 ==> forall n: nat | va / PGSIZE <= n <= (va + k - 1) / PGSIZE :: Access(m, d, n) == Done
  }

  lemma NoneOpened(m: Mem, d: nat, va: nat)
    ensures AllOpen(m, d, va, 0) && SameAccess(m, m, d)
  {
  }

  lemma OneMoreOpen(m: Mem, d: nat, va: nat, k: nat, n: nat)
    requires AllOpen(m, d, va, k) && 0 < n <= PGSIZE - (va + k) % PGSIZE && Access(m, d, (va + k) / PGSIZE) == Done
    ensures AllOpen(m, d, va, k + n)
  {
  }

  lemma StopHere(m0: Mem, m: Mem, dirs: set<nat>, owner: map<nat, Pos>, d: nat, n: nat, f: int)
    requires Owned(m, dirs, owner) && d in dirs && IsTable(m, d) && n < ALL_PAGES && -1 <= f && SameAccess(m0, m, d)
    requires f == -1 <==> !Present(Pde(m, d, n / ENTRIES))
    requires f >= 0 ==>
             var e := PteAt(m, d, n / ENTRIES, n % ENTRIES); f == (if Present(e) && User(e) then e.frame else 0)
    ensures Access(m0, d, n) == if f > 0 then Done else if f == 0 then Refused else Unchecked
  {
    assert Access(m, d, n) == Access(m0, d, n);
    assert LeafOk(m, owner, d, n / ENTRIES, n % ENTRIES);
    assert forall g | g in owner :: PlaceOk(m, dirs, g, owner[g]);
  }

  /** A write to a user page changes no table. */
  lemma PokeKeepsAccess(m0: Mem, m: Mem, dirs: set<nat>, owner: map<nat, Pos>, d: nat, f: nat, b: seq<int>)
    requires Owned(m, dirs, owner) && d in dirs && f in owner && owner[f].Leaf? && |b| == PGSIZE && SameAccess(m0, m, d)
    ensures IsData(m, f) && SameAccess(m0, With(m, f, Bytes(b)), d)
  {
    WriteData(m, dirs, owner, f, b);
    var m' := With(m, f, Bytes(b));
    forall n: nat
      ensures Access(m', d, n) == Access(m0, d, n)
    {
      assert Access(m, d, n) == Access(m0, d, n);
      assert m'.pages[d] == m.pages[d];
    }
  }

  lemma PokedNothing(m: Mem, dirs: set<nat>, owner: map<nat, Pos>, d: nat, va: nat, src: seq<int>)
    requires Owned(m, dirs, owner)
    ensures Poked(m, m, dirs, d, va, src[..0])
  {
    forall n | 0 <= n < USER_PAGES && d in dirs
      ensures Look(m, d, n) == OverlayPage(Look(m, d, n), n * PGSIZE, va, src[..0])
    {
      var u := Look(m, d, n);
      if u.Mapped? { assert Overlay(u.bytes, n * PGSIZE, va, []) == u.bytes; }
    }
  }

  /** The bytes written so far, and then n more on the same page. */
  lemma OverlayNext(b: seq<int>, base: nat, va: nat, src: seq<int>, k: nat, n: nat)
    requires k + n <= |src| && |b| == PGSIZE && base <= va + k && va + k + n <= base + PGSIZE
    ensures Poke(Overlay(b, base, va, src[..k]), va + k - base, src[k..k + n]) == Overlay(b, base, va, src[..k + n])
  {
  }

  lemma OverlayElsewhere(b: seq<int>, base: nat, va: nat, src: seq<int>, k: nat, n: nat)
    requires k + n <= |src| && |b| == PGSIZE && (base + PGSIZE <= va + k || va + k + n <= base)
    ensures Overlay(b, base, va, src[..k]) == Overlay(b, base, va, src[..k + n])
  {
  }

  lemma PokeKeeps(m0: Mem, m: Mem, dirs: set<nat>, owner: map<nat, Pos>, d: nat, va: nat, src: seq<int>, k: nat, n: nat,
                  f: nat)
    requires Owned(m, dirs, owner) && FreeOk(m, owner) && d in dirs && k + n <= |src| && n > 0 &&
             Poked(m0, m, dirs, d, va, src[..k])
    requires n <= PGSIZE - (va + k) % PGSIZE && (va + k) / PGSIZE < USER_PAGES
    requires f in owner && owner[f] == Leaf(d, (va + k) / PGSIZE / ENTRIES, (va + k) / PGSIZE % ENTRIES) && IsData(m, f)
    ensures var m' := With(m, f, Bytes(Poke(m.pages[f].b, (va + k) % PGSIZE, src[k..k + n])));
            Owned(m', dirs, owner) && FreeOk(m', owner) && Poked(m0, m', dirs, d, va, src[..k + n]) && IsTable(m', d)
  {
    var m' := With(m, f, Bytes(Poke(m.pages[f].b, (va + k) % PGSIZE, src[k..k + n])));
    WriteData(m, dirs, owner, f, m'.pages[f].b);
    forall d', p | d' in dirs && 0 <= p < USER_PAGES
      ensures Look(m', d', p) == if d' == d then OverlayPage(Look(m0, d', p), p * PGSIZE, va, src[..k + n])
                                else Look(m0, d', p)
    {
      PokeOne(m0, m, m', dirs, owner, d, va, src, k, n, f, d', p);
    }
  }

  lemma PokeOne(m0: Mem, m: Mem, m': Mem, dirs: set<nat>, owner: map<nat, Pos>, d: nat, va: nat, src: seq<int>, k: nat,
                n: nat, f: nat, d': nat, p: nat)
    requires Owned(m, dirs, owner) && d in dirs && k + n <= |src| && n > 0 && Poked(m0, m, dirs, d, va, src[..k]) &&
             d' in dirs && p < USER_PAGES
    requires n <= PGSIZE - (va + k) % PGSIZE && (va + k) / PGSIZE < USER_PAGES
    requires f in owner && owner[f] == Leaf(d, (va + k) / PGSIZE / ENTRIES, (va + k) / PGSIZE % ENTRIES) && IsData(m, f)
    requires m' == With(m, f, Bytes(Poke(m.pages[f].b, (va + k) % PGSIZE, src[k..k + n]))) && SamePtes(m, m', dirs)
    ensures Look(m', d', p) == if d' == d then OverlayPage(Look(m0, d', p), p * PGSIZE, va, src[..k + n])
                              else Look(m0, d', p)
  {
    var q := (va + k) / PGSIZE;
    assert PlaceOk(m, dirs, f, owner[f]);
    var u0 := Look(m0, d', p);
    if d' == d && p == q {
      assert PteAt(m', d', p / ENTRIES, p % ENTRIES) == PteAt(m, d', p / ENTRIES, p % ENTRIES);
      assert Look(m, d', p) == OverlayPage(u0, p * PGSIZE, va, src[..k]);
      OverlayNext(u0.bytes, p * PGSIZE, va, src, k, n);
    } else {
      NotPoked(m, m', dirs, owner, f, d', p);
      if d' == d && u0.Mapped? && |u0.bytes| == PGSIZE {
        OverlayElsewhere(u0.bytes, p * PGSIZE, va, src, k, n);
      }
    }
  }

  /** A user page in another frame than f. */
  lemma NotPoked(m: Mem, m': Mem, dirs: set<nat>, owner: map<nat, Pos>, f: nat, d: nat, p: nat)
    requires Owned(m, dirs, owner) && f in owner && d in dirs && p < USER_PAGES && SamePtes(m, m', dirs)
    requires owner[f] != Leaf(d, p / ENTRIES, p % ENTRIES)
    requires |m'.pages| == |m.pages| && forall g | 0 <= g < |m.pages| && g != f :: m'.pages[g] == m.pages[g]
    ensures IsTable(m, d) && IsTable(m', d) && Look(m', d, p) == Look(m, d, p)
  {
    assert LeafOk(m, owner, d, p / ENTRIES, p % ENTRIES);
    assert PteAt(m', d, p / ENTRIES, p % ENTRIES) == PteAt(m, d, p / ENTRIES, p % ENTRIES);
  }

  /** The pages of the tables that a directory has in its first k entries. */
  function TableFrames(w: seq<Pte>, k: nat): (r: set<nat>)
    requires k <= |w|
  {
    set i | 0 <= i < k && Present(w[i]) :: w[i].frame
  }

  function TreeOf(owner: map<nat, Pos>, d: nat): (r: set<nat>) {
    set f | f in owner && owner[f].d == d
  }

  /** With its user pages gone, an address space consists of its directory and tables. */
  lemma TreeIsTables(m: Mem, dirs: set<nat>, owner: map<nat, Pos>, d: nat)
    requires Owned(m, dirs, owner) && d in dirs && IsTable(m, d)
    requires forall n | 0 <= n < USER_PAGES :: Look(m, d, n) == Absent
    ensures TreeOf(owner, d) == TableFrames(m.pages[d].w, ENTRIES) + {d} && d !in TableFrames(m.pages[d].w, ENTRIES)
    ensures forall f | f in TreeOf(owner, d) :: 0 < f < |m.pages|
    ensures forall i, j | 0 <= i < j < ENTRIES && Present(m.pages[d].w[i]) && Present(m.pages[d].w[j]) ::
            m.pages[d].w[i].frame != m.pages[d].w[j].frame
  {
    assert d in owner && owner[d] == Root(d);
    forall i | 0 <= i < ENTRIES && Present(m.pages[d].w[i])
      ensures m.pages[d].w[i].frame in owner && owner[m.pages[d].w[i].frame] == Tab(d, i)
    {
      assert TabOk(m, owner, d, i);
    }
    forall f | f in TreeOf(owner, d)
      ensures f in TableFrames(m.pages[d].w, ENTRIES) + {d} && 0 < f < |m.pages|
    {
      assert PlaceOk(m, dirs, f, owner[f]);
      if owner[f].Leaf? {
        var i, j := owner[f].i, owner[f].j;
        assert LeafOk(m, owner, d, i, j);
        LookIndex(m, d, i, j);
      } else if owner[f].Tab? {
        assert TabOk(m, owner, d, owner[f].i);
      }
    }
  }

  /** Without user pages, the directory and tables of d can be freed. */
  lemma Dismantle(m0: Mem, m: Mem, dirs: set<nat>, owner0: map<nat, Pos>, owner: map<nat, Pos>, d: nat)
    requires Owned(m, dirs, owner) && FreeOk(m, owner) && d in dirs && Shrinks(owner0, owner, d, 0, USER_PAGES) &&
             Dropped(m0, m, dirs, d, 0, USER_PAGES)
    ensures var owner' := owner - TreeOf(owner, d);
            && Owned(m, dirs - {d}, owner') && FreeOk(m, owner') && owner' == owner0 - TreeOf(owner0, d)
            && owner'.Keys + TreeOf(owner, d) == owner.Keys
    ensures SameBut(m0, m, dirs - {d}, d, 0, 0)
    ensures IsTable(m, d) && d !in TableFrames(m.pages[d].w, ENTRIES) &&
            TreeOf(owner, d) == TableFrames(m.pages[d].w, ENTRIES) + {d}
    ensures forall f | f in TreeOf(owner, d) :: 0 < f < |m.pages| && f !in owner - TreeOf(owner, d) && f !in FreeSet(m)
    ensures forall i, j | 0 <= i < j < ENTRIES && Present(m.pages[d].w[i]) && Present(m.pages[d].w[j]) ::
            m.pages[d].w[i].frame != m.pages[d].w[j].frame
  {
    assert IsTable(m, d);
    TreeIsTables(m, dirs, owner, d);
    RemoveTree(m, dirs, owner, d);
    TreeShrinks(owner0, owner, d);
    OtherSpaces(m0, m, dirs, d);
    hide Owned;
  }

  lemma FramesNext(w: seq<Pte>, i: nat)
    requires i < |w| && Present(w[i])
    requires forall k, l | 0 <= k < l < |w| && Present(w[k]) && Present(w[l]) :: w[k].frame != w[l].frame
    ensures w[i].frame !in TableFrames(w, i) && TableFrames(w, i + 1) == TableFrames(w, i) + {w[i].frame}
    ensures w[i].frame in TableFrames(w, |w|)
  {
  }

  lemma FramesSkip(w: seq<Pte>, i: nat)
    requires i < |w| && !Present(w[i])
    ensures TableFrames(w, i + 1) == TableFrames(w, i)
  {
  }

  /** Removing the user pages first makes no difference to which pages are left. */
  lemma TreeShrinks(owner: map<nat, Pos>, owner': map<nat, Pos>, d: nat)
    requires Shrinks(owner, owner', d, 0, USER_PAGES)
    ensures owner' - TreeOf(owner', d) == owner - TreeOf(owner, d)
  {
  }

  lemma OtherSpaces(m: Mem, m': Mem, dirs: set<nat>, d: nat)
    requires SameBut(m, m', dirs, d, 0, USER_PAGES)
    ensures SameBut(m, m', dirs - {d}, d, 0, 0)
  {
  }

  lemma LookIndex(m: Mem, d: nat, i: nat, j: nat)
    requires IsTable(m, d) && i < USER_DIR && j < ENTRIES
    ensures i * ENTRIES + j < USER_PAGES
    ensures Look(m, d, i * ENTRIES + j) == Absent ==>
            !(Present(PteAt(m, d, i, j)) && IsData(m, PteAt(m, d, i, j).frame))
  {
    assert (i * ENTRIES + j) / ENTRIES == i && (i * ENTRIES + j) % ENTRIES == j;
  }

  /** The other address spaces do not depend on the pages of d. */
  lemma RemoveTree(m: Mem, dirs: set<nat>, owner: map<nat, Pos>, d: nat)
    requires Owned(m, dirs, owner) && d in dirs
    ensures Owned(m, dirs - {d}, owner - TreeOf(owner, d))
  {
    var dirs', owner' := dirs - {d}, owner - TreeOf(owner, d);
    forall e | e in dirs' ensures IsTable(m, e) && e in owner' && owner'[e] == Root(e) { }
    forall e, i | e in dirs' && 0 <= i < ENTRIES ensures TabOk(m, owner', e, i) { assert TabOk(m, owner, e, i); }
    forall e, i, j | e in dirs' && 0 <= i < ENTRIES && 0 <= j < ENTRIES
      ensures LeafOk(m, owner', e, i, j)
    {
      assert LeafOk(m, owner, e, i, j);
    }
    forall f | f in owner' ensures PlaceOk(m, dirs', f, owner'[f]) { assert PlaceOk(m, dirs, f, owner[f]); }
  }

  /** Pages lo to k of address space d are new and zero, and nothing else has changed. */
  ghost predicate Grown(m0: Mem, m: Mem, dirs: set<nat>, d: nat, lo: nat, k: nat) {
    && d in dirs && SameBut(m0, m, dirs, d, lo, k)
    && (forall n | lo <= n < k && n < USER_PAGES :: Look(m, d, n) == Mapped(P + W + U, ZeroData().b))
  }

  lemma GrownNone(m: Mem, dirs: set<nat>, owner: map<nat, Pos>, d: nat, lo: nat)
    requires Owned(m, dirs, owner) && d in dirs
    ensures Grown(m, m, dirs, d, lo, lo) && SameBut(m, m, dirs, d, 0, 0)
  {
  }

  lemma GrownNext(m0: Mem, m1: Mem, m2: Mem, dirs: set<nat>, d: nat, lo: nat, a: nat)
    requires lo <= a < USER_PAGES && Grown(m0, m1, dirs, d, lo, a) && SameBut(m1, m2, dirs, d, a, a + 1) &&
             Look(m2, d, a) == Mapped(P + W + U, ZeroData().b)
    ensures Grown(m0, m2, dirs, d, lo, a + 1)
  {
    SameButTrans(m0, m1, m2, dirs, d, lo, a, a, a + 1, lo, a + 1);
  }

  lemma GrownSame(m0: Mem, m1: Mem, m2: Mem, dirs: set<nat>, d: nat, lo: nat, a: nat)
    requires Grown(m0, m1, dirs, d, lo, a) && SameBut(m1, m2, dirs, d, 0, 0)
    ensures Grown(m0, m2, dirs, d, lo, a)
  {
    SameButTrans(m0, m1, m2, dirs, d, lo, a, 0, 0, lo, a);
  }

  lemma GrownAbsent(m0: Mem, m: Mem, dirs: set<nat>, d: nat, lo: nat, a: nat)
    requires Grown(m0, m, dirs, d, lo, a) && lo <= a < USER_PAGES && AllTables(m0, dirs) && Look(m0, d, a) == Absent
    ensures AllTables(m, dirs) && Look(m, d, a) == Absent
  {
    assert Look(m, d, a) == Look(m0, d, a);
  }

  /** Growing and then freeing the same range leaves the address space as it was. */
  lemma Ungrown(m0: Mem, m1: Mem, m2: Mem, dirs: set<nat>, d: nat, lo: nat, a: nat, hi: nat)
    requires Grown(m0, m1, dirs, d, lo, a) && lo <= a <= hi <= USER_PAGES &&
             (lo < hi ==> Dropped(m1, m2, dirs, d, lo, hi)) && (lo >= hi ==> m2 == m1)
    requires AllTables(m0, dirs) && forall n | lo <= n < hi :: Look(m0, d, n) == Absent
    ensures SameBut(m0, m2, dirs, d, 0, 0)
  {
    if lo < hi {
      SameButTrans(m0, m1, m2, dirs, d, lo, a, lo, hi, lo, hi);
    }
  }

  lemma PopKeeps(m: Mem, m': Mem, dirs: set<nat>, owner: map<nat, Pos>, d: nat)
    requires Owned(m, dirs, owner) && m'.pages == m.pages
    ensures SameBut(m, m', dirs, d, 0, 0)
  {
    FreeListIgnored(m, m', dirs, owner);
    LookSame(m, m', dirs, owner, d);
  }

  function Min(a: nat, b: nat): nat {
    if a < b then a else b
  }

  /** PGROUNDUP(sz) / PGSIZE. */
  function Pages(sz: nat): (r: nat) {
    (sz + PGSIZE - 1) / PGSIZE
  }

  /** Page n is below sz exactly when it begins below sz. */
  lemma PagesExact(sz: nat, n: nat)
    ensures n < Pages(sz) <==> n * PGSIZE < sz
  {
  }

  // ---------- what a program reads ----------

  datatype UByte = Nothing | Byte(flags: nat, value: int)

  /** What address a of address space d reads, with the flags of its page: the hardware finds
      the table in the directory, the page in the table and the byte in the page. */
  ghost function ReadAt(m: Mem, d: nat, a: nat): (r: UByte)
    requires IsTable(m, d) && a < USER_PAGES * PGSIZE
  {
    var pde := m.pages[d].w[a / 0x40_0000];
    if pde.flags % 2 == 0 || !IsTable(m, pde.frame) then Nothing
    else
      var pte := m.pages[pde.frame].w[a / 0x1000 % 0x400];
      if pte.flags % 2 == 0 || !IsData(m, pte.frame) then Nothing
      else Byte(pte.flags, m.pages[pte.frame].b[a % 0x1000])
  }

  lemma ReadIsLook(m: Mem, d: nat, a: nat)
    requires IsTable(m, d) && a < USER_PAGES * PGSIZE
    ensures ReadAt(m, d, a) == match Look(m, d, a / PGSIZE)
                               case Absent => Nothing
                               case Mapped(flags, bytes) => if |bytes| == PGSIZE then Byte(flags, bytes[a % PGSIZE])
                                                            else Nothing
  {
    assert a / PGSIZE / ENTRIES == a / 0x40_0000;
    assert a / PGSIZE % ENTRIES == a / 0x1000 % 0x400;
  }

  /** Where the page of address a begins. */
  function PageStart(a: nat): (r: nat)
    ensures r <= a < r + PGSIZE && r % PGSIZE == 0
  {
    a - a % PGSIZE
  }

  lemma StartsBelow(a: nat, sz: nat)
    ensures a / PGSIZE < Pages(sz) <==> PageStart(a) < sz
  {
    PagesExact(sz, a / PGSIZE);
    assert a / PGSIZE * PGSIZE == PageStart(a);
  }

  /** Address space c reads as d does on every page that begins below sz, and nothing else. */
  ghost predicate ReadsAlike(m0: Mem, d: nat, m: Mem, c: nat, sz: nat) {
    && IsTable(m0, d) && IsTable(m, c)
    && forall a: nat | a < USER_PAGES * PGSIZE ::
         ReadAt(m, c, a) == if PageStart(a) < sz then ReadAt(m0, d, a) else Nothing
  }

  lemma CopiesRead(m0: Mem, m: Mem, dirs: set<nat>, d: nat, c: nat, sz: nat)
    requires Copies(m0, m, dirs, d, c, Pages(sz))
    ensures ReadsAlike(m0, d, m, c, sz)
    ensures forall a: nat | a < sz && a < USER_PAGES * PGSIZE :: ReadAt(m, c, a) == ReadAt(m0, d, a)
  {
    forall a: nat | a < USER_PAGES * PGSIZE
      ensures ReadAt(m, c, a) == if PageStart(a) < sz then ReadAt(m0, d, a) else Nothing
    {
      StartsBelow(a, sz);
      ReadIsLook(m0, d, a);
      ReadIsLook(m, c, a);
    }
  }

  /** Address space d reads zeros on the writable pages that begin from oldsz up to newsz, and
      elsewhere what it did. */
  ghost predicate ReadsZeros(m0: Mem, m: Mem, d: nat, oldsz: nat, newsz: nat) {
    && IsTable(m0, d) && IsTable(m, d)
    && forall a: nat | a < USER_PAGES * PGSIZE ::
         ReadAt(m, d, a) == if oldsz <= PageStart(a) < newsz then Byte(P + W + U, 0) else ReadAt(m0, d, a)
  }

  lemma GrownReads(m0: Mem, m: Mem, dirs: set<nat>, d: nat, oldsz: nat, newsz: nat)
    requires Grown(m0, m, dirs, d, Pages(oldsz), Pages(newsz))
    ensures ReadsZeros(m0, m, d, oldsz, newsz)
  {
    forall a: nat | a < USER_PAGES * PGSIZE
      ensures ReadAt(m, d, a) == if oldsz <= PageStart(a) < newsz then Byte(P + W + U, 0) else ReadAt(m0, d, a)
    {
      StartsBelow(a, oldsz);
      StartsBelow(a, newsz);
      ReadIsLook(m0, d, a);
      ReadIsLook(m, d, a);
    }
  }

  /** Address space d reads nothing on the pages that begin from newsz up to oldsz, and
      elsewhere what it did. */
  ghost predicate ReadsLess(m0: Mem, m: Mem, d: nat, oldsz: nat, newsz: nat) {
    && IsTable(m0, d) && IsTable(m, d)
    && forall a: nat | a < USER_PAGES * PGSIZE ::
         ReadAt(m, d, a) == if newsz <= PageStart(a) < oldsz then Nothing else ReadAt(m0, d, a)
  }

  lemma DroppedReads(m0: Mem, m: Mem, dirs: set<nat>, d: nat, oldsz: nat, newsz: nat)
    requires Dropped(m0, m, dirs, d, Pages(newsz), Pages(oldsz))
    ensures ReadsLess(m0, m, d, oldsz, newsz)
  {
    forall a: nat | a < USER_PAGES * PGSIZE
      ensures ReadAt(m, d, a) == if newsz <= PageStart(a) < oldsz then Nothing else ReadAt(m0, d, a)
    {
      StartsBelow(a, oldsz);
      StartsBelow(a, newsz);
      ReadIsLook(m0, d, a);
      ReadIsLook(m, d, a);
    }
  }

  /** Address space d reads src from address va on, where it read anything, and elsewhere what
      it did. */
  ghost predicate ReadsWritten(m0: Mem, m: Mem, d: nat, va: nat, src: seq<int>) {
    && IsTable(m0, d) && IsTable(m, d)
    && forall a: nat | a < USER_PAGES * PGSIZE ::
         ReadAt(m, d, a) == if va <= a < va + |src| && ReadAt(m0, d, a).Byte?
                            then Byte(ReadAt(m0, d, a).flags, src[a - va])
                            else ReadAt(m0, d, a)
  }

  lemma PokedReads(m0: Mem, m: Mem, dirs: set<nat>, d: nat, va: nat, src: seq<int>)
    requires Poked(m0, m, dirs, d, va, src) && d in dirs
    ensures ReadsWritten(m0, m, d, va, src)
  {
    forall a: nat | a < USER_PAGES * PGSIZE
      ensures ReadAt(m, d, a) == if va <= a < va + |src| && ReadAt(m0, d, a).Byte?
                                 then Byte(ReadAt(m0, d, a).flags, src[a - va])
                                 else ReadAt(m0, d, a)
    {
      ReadIsLook(m0, d, a);
      ReadIsLook(m, d, a);
      assert a / PGSIZE * PGSIZE + a % PGSIZE == a;
    }
  }

  lemma PagesOrder(oldsz: nat, newsz: nat)
    requires Pages(oldsz) < Pages(newsz)
    ensures oldsz < newsz
  {
  }

  lemma PagesBound(lo: nat, hi: nat)
    requires lo <= hi <= USER_PAGES * PGSIZE
    ensures Pages(lo) <= Pages(hi) <= USER_PAGES
  {
  }

  /** Only user pages lo to hi of address space d have lost their place. */
  ghost predicate Shrinks(owner: map<nat, Pos>, owner': map<nat, Pos>, d: nat, lo: nat, hi: nat) {
    && (forall f | f in owner' :: f in owner && owner'[f] == owner[f])
    && (forall f | f in owner && f !in owner' ::
        owner[f].Leaf? && owner[f].d == d && lo <= owner[f].i * ENTRIES + owner[f].j < hi)
  }

  /** Pages lo to k of address space d are gone, and nothing else has changed. */
  ghost predicate Dropped(m0: Mem, m: Mem, dirs: set<nat>, d: nat, lo: nat, k: nat) {
    && d in dirs && SameBut(m0, m, dirs, d, lo, k)
    && (forall n | lo <= n < k && n < USER_PAGES :: Look(m, d, n) == Absent)
  }

  lemma DroppedNone(m: Mem, dirs: set<nat>, owner: map<nat, Pos>, d: nat, lo: nat)
    requires Owned(m, dirs, owner) && d in dirs
    ensures Dropped(m, m, dirs, d, lo, lo)
  {
  }

  lemma DroppedNext(m0: Mem, m1: Mem, m2: Mem, dirs: set<nat>, d: nat, lo: nat, a: nat)
    requires lo <= a < USER_PAGES && Dropped(m0, m1, dirs, d, lo, a) && SameBut(m1, m2, dirs, d, a, a + 1) &&
             Look(m2, d, a) == Absent
    ensures Dropped(m0, m2, dirs, d, lo, a + 1)
  {
    SameButTrans(m0, m1, m2, dirs, d, lo, a, a, a + 1, lo, a + 1);
  }

  /** Where the directory has no table, all its pages are absent: the skip to the next
      directory entry passes no present page. */
  lemma DroppedSkip(m0: Mem, m: Mem, dirs: set<nat>, owner: map<nat, Pos>, d: nat, lo: nat, a: nat, hi: nat)
    requires Owned(m, dirs, owner) && lo <= a < hi <= USER_PAGES && Dropped(m0, m, dirs, d, lo, a)
    requires IsTable(m, d) && !Present(Pde(m, d, a / ENTRIES))
    ensures Dropped(m0, m, dirs, d, lo, Min((a / ENTRIES + 1) * ENTRIES, hi))
  {
    forall n | a <= n < (a / ENTRIES + 1) * ENTRIES && n < USER_PAGES
      ensures Look(m, d, n) == Absent
    {
      assert n / ENTRIES == a / ENTRIES;
    }
    SameButTrans(m0, m, m, dirs, d, lo, a, 0, 0, lo, Min((a / ENTRIES + 1) * ENTRIES, hi));
  }

  lemma StaysAbsent(m: Mem, m': Mem, dirs: set<nat>, d: nat, n: nat)
    requires SameBut(m, m', dirs, d, 0, 0) && d in dirs && n < USER_PAGES && IsTable(m, d) && Look(m, d, n) == Absent
    ensures IsTable(m', d) && Look(m', d, n) == Absent
  {
    assert Look(m', d, n) == Look(m, d, n);
  }

  lemma OwnedTables(m: Mem, dirs: set<nat>, owner: map<nat, Pos>)
    requires Owned(m, dirs, owner)
    ensures AllTables(m, dirs)
  {
  }

  lemma LookNothing(m: Mem, dirs: set<nat>, owner: map<nat, Pos>, d: nat, n: nat)
    requires Owned(m, dirs, owner) && d in dirs && IsTable(m, d) && n < USER_PAGES
    ensures !Present(PteAt(m, d, n / ENTRIES, n % ENTRIES)) ==> Look(m, d, n) == Absent
    ensures SameBut(m, m, dirs, d, n, n + 1)
  {
  }

  lemma RemoveLeaf(m: Mem, dirs: set<nat>, owner: map<nat, Pos>, d: nat, n: nat)
    requires Owned(m, dirs, owner) && FreeOk(m, owner) && d in dirs && n < USER_PAGES && IsTable(m, d) &&
             Present(PteAt(m, d, n / ENTRIES, n % ENTRIES))
    ensures Present(Pde(m, d, n / ENTRIES)) && IsTable(m, Pde(m, d, n / ENTRIES).frame)
    ensures var f := PteAt(m, d, n / ENTRIES, n % ENTRIES).frame;
            var m', owner' := SetEntry(m, Pde(m, d, n / ENTRIES).frame, n % ENTRIES, NONE), owner - {f};
            && 0 < f < |m'.pages| && f in owner && owner[f] == Leaf(d, n / ENTRIES, n % ENTRIES) && f !in FreeSet(m')
            && Owned(m', dirs, owner') && FreeOk(m', owner') && AllTables(m', dirs)
            && SameBut(m, m', dirs, d, n, n + 1) && Look(m', d, n) == Absent && FreeSet(m') == FreeSet(m)
  {
    var i, j := n / ENTRIES, n % ENTRIES;
    var f := PteAt(m, d, i, j).frame;
    DropLeaf(m, dirs, owner, d, i, j);
    assert PlaceOk(m, dirs, f, owner[f]);
    EntryChanges(m, dirs, owner, d, i, j, NONE);
    assert TabOk(m, owner, d, i);
    hide Owned;
    LookBut(m, SetEntry(m, Pde(m, d, i).frame, j, NONE), dirs, owner, d, n, NONE);
  }

  lemma SameButTrans(m0: Mem, m1: Mem, m2: Mem, dirs: set<nat>, d: nat, lo1: nat, hi1: nat, lo2: nat, hi2: nat, lo: nat,
                     hi: nat)
    requires SameBut(m0, m1, dirs, d, lo1, hi1) && SameBut(m1, m2, dirs, d, lo2, hi2)
    requires (lo1 < hi1 ==> lo <= lo1 && hi1 <= hi) && (lo2 < hi2 ==> lo <= lo2 && hi2 <= hi)
    ensures SameBut(m0, m2, dirs, d, lo, hi)
  {
    forall d', n | d' in dirs && 0 <= n < USER_PAGES && (d' == d ==> !(lo <= n < hi))
      ensures AllTables(m0, dirs) && AllTables(m2, dirs) && Look(m2, d', n) == Look(m0, d', n)
    {
      assert Look(m1, d', n) == Look(m0, d', n);
      assert Look(m2, d', n) == Look(m1, d', n);
    }
  }

  lemma InstallLeaf(m: Mem, dirs: set<nat>, owner: map<nat, Pos>, d: nat, n: nat, f: nat, flags: nat)
    requires Owned(m, dirs, owner) && FreeOk(m, owner) && d in dirs && n < USER_PAGES && IsTable(m, d) &&
             Present(Pde(m, d, n / ENTRIES)) && Look(m, d, n) == Absent
    requires IsData(m, f) && 0 < f && f !in owner && f !in FreeSet(m) && flags % 2 == 1
    ensures IsTable(m, Pde(m, d, n / ENTRIES).frame)
    ensures var m', owner' := SetEntry(m, Pde(m, d, n / ENTRIES).frame, n % ENTRIES, Pte(f, flags)),
            owner[f := Leaf(d, n / ENTRIES, n % ENTRIES)];
            && Owned(m', dirs, owner') && FreeOk(m', owner') && AllTables(m', dirs) && SameBut(m, m', dirs, d, n, n + 1)
            && Look(m', d, n) == Mapped(flags, m.pages[f].b)
  {
    var i, j := n / ENTRIES, n % ENTRIES;
    assert LeafOk(m, owner, d, i, j) && TabOk(m, owner, d, i);
    var t := Pde(m, d, i).frame;
    NewLeaf(m, dirs, owner, d, i, j, f, flags);
    EntryChanges(m, dirs, owner, d, i, j, Pte(f, flags));
    hide Owned;
    LookBut(m, SetEntry(m, t, j, Pte(f, flags)), dirs, owner, d, n, Pte(f, flags));
  }

  lemma InstallTable(m0: Mem, m: Mem, dirs: set<nat>, owner: map<nat, Pos>, d: nat, i: nat, t: nat)
    requires Owned(m, dirs, owner) && FreeOk(m, owner) && d in dirs && i < ENTRIES && IsTable(m, d) &&
             !Present(Pde(m, d, i))
    requires 0 < t < |m.pages| && t !in owner && t !in FreeSet(m) && m0.pages == m.pages && t in FreeSet(m0)
    ensures IsTable(With(m, t, ZeroTable()), d)
    ensures var m' := SetEntry(With(m, t, ZeroTable()), d, i, Pte(t, P + W + U));
            && Owned(m', dirs, owner[t := Tab(d, i)]) && FreeOk(m', owner[t := Tab(d, i)]) && FreeSet(m') == FreeSet(m)
            && IsTable(m', d) && IsTable(m', t) && Pde(m', d, i) == Pte(t, P + W + U)
            && SamePtes(m0, m', dirs) && SameLeaves(m0, m', owner) && SameSpare(m0, m', owner)
  {
    hide Owned, SamePtes, PteAt;
    RootOwned(m, dirs, owner, d);
    FreeListIgnored(m, m0, dirs, owner);
    PopKeepsPtes(m0, m, dirs, owner);
    FreshPage(m, dirs, owner, t, ZeroTable());
    var m1 := With(m, t, ZeroTable());
    NewTable(m1, dirs, owner, d, i, t, P + W + U);
    SamePtesTrans(m0, m, m1, SetEntry(m1, d, i, Pte(t, P + W + U)), dirs);
  }

  lemma RootOwned(m: Mem, dirs: set<nat>, owner: map<nat, Pos>, d: nat)
    requires Owned(m, dirs, owner) && d in dirs
    ensures IsTable(m, d) && d in owner && owner[d] == Root(d)
  {
  }

  lemma SamePtesTrans(m0: Mem, m1: Mem, m2: Mem, m3: Mem, dirs: set<nat>)
    requires SamePtes(m0, m1, dirs) && SamePtes(m1, m2, dirs) && SamePtes(m2, m3, dirs)
    ensures SamePtes(m0, m3, dirs)
  {
    forall d, i, j | d in dirs && 0 <= i < ENTRIES && 0 <= j < ENTRIES
      ensures PteAt(m3, d, i, j) == PteAt(m0, d, i, j)
    {
      assert PteAt(m1, d, i, j) == PteAt(m0, d, i, j);
      assert PteAt(m2, d, i, j) == PteAt(m1, d, i, j);
    }
  }

  lemma PopKeepsPtes(m: Mem, m': Mem, dirs: set<nat>, owner: map<nat, Pos>)
    requires Owned(m, dirs, owner) && m'.pages == m.pages
    ensures SamePtes(m, m', dirs)
  {
    FreeListIgnored(m, m', dirs, owner);
  }

  /** Pages are only given a place, in address space d, and they come from `free`. */
  ghost predicate Extends(free: set<nat>, owner: map<nat, Pos>, owner': map<nat, Pos>, d: nat) {
    && (forall f | f in owner :: f in owner' && owner'[f] == owner[f])
    && (forall f | f in owner' && f !in owner :: f in free && owner'[f].d == d)
  }

  lemma FreeListIgnored(m: Mem, m': Mem, dirs: set<nat>, owner: map<nat, Pos>)
    requires Owned(m, dirs, owner) && m'.pages == m.pages
    ensures Owned(m', dirs, owner) && SamePtes(m, m', dirs)
  {
    forall d, i | d in dirs && 0 <= i < ENTRIES
      ensures IsTable(m', d) && TabOk(m', owner, d, i)
    {
      assert TabOk(m, owner, d, i);
    }
    forall d, i, j | d in dirs && 0 <= i < ENTRIES && 0 <= j < ENTRIES
      ensures IsTable(m', d) && PteAt(m', d, i, j) == PteAt(m, d, i, j) && LeafOk(m', owner, d, i, j)
    {
      assert LeafOk(m, owner, d, i, j);
    }
    forall f | f in owner ensures PlaceOk(m', dirs, f, owner[f]) { assert PlaceOk(m, dirs, f, owner[f]); }
  }
}

/**
  walkpgdir and mappages of kernel/paging.c. A directory is named by the number of the
  frame it lies in.
 */
module Mapping {
  import opened Layout
  import opened Kalloc
  import opened PageTables

  /** The allocator and the page tables are consistent: every heap frame has exactly one owner. */
  ghost predicate Good(h: Heap)
    reads h
  {
    h.Valid() && Linked(h.mem, h.owner)
  }

  /** Finds the table that translates va, creating it when alloc is set; None is the null pointer. */
  method Walkpgdir(h: Heap, pgdir: nat, va: Word, alloc: bool) returns (t: Option<nat>)
    requires Good(h) && IsDir(h.owner, pgdir)
    modifies h`mem, h`freelist, h`free, h`owner
    ensures Good(h)
    ensures t.None? <==> !Present(old(Entry(h.mem, pgdir, Pdx(va)))) && (!alloc || old(h.free) == [])
    ensures t.Some? ==> IsTable(h.owner, t.value, pgdir, Pdx(va)) && t.value < UPAGES
                        && Entry(h.mem, pgdir, Pdx(va)) == t.value * PGSIZE + 7
    ensures t.None? || Present(old(Entry(h.mem, pgdir, Pdx(va)))) ==>
              h.mem == old(h.mem) && h.free == old(h.free) && h.owner == old(h.owner)
    ensures t.Some? && !Present(old(Entry(h.mem, pgdir, Pdx(va)))) ==>
              && old(h.free) != [] && t.value == old(h.free)[0]
              && t.value in old(h.owner) && old(h.owner)[t.value].Free?
              && h.free == old(h.free)[1..]
              && h.owner == old(h.owner)[t.value := Table(pgdir, Pdx(va))]
    ensures t.Some? ==> forall i: nat ::
              Present(Entry(h.mem, pgdir, i)) <==> i == Pdx(va) || Present(old(Entry(h.mem, pgdir, i)))
    ensures forall e: nat, v: nat | IsDir(old(h.owner), e) :: Lookup(h.mem, e, v) == Lookup(old(h.mem), e, v)
    ensures Untouched(old(h.mem), old(h.owner), h.mem, h.owner)
  {
    hide Chain, FreeExactly, Lookup, Linked, MakePde, Hung, Poked, Present, FrameOf;
    LinkedFrames(h.mem, h.owner);
    var pde := h.mem[pgdir][Pdx(va)];
    if Present(pde) {
      WalkStep(h.mem, h.owner, pgdir, Pdx(va));
      return Some(FrameOf(pde));
    }
    if !alloc {
      return None;
    }
    var pgtab := h.Kalloc();
    if pgtab == 0 {
      return None;
    }
    var f := PtrFrame(pgtab);
    h.Clear(f);
    ghost var m := h.mem;
    h.Store(pgdir, Pdx(va), MakePde(pgtab));
    MakePdeDecodes(f);
    HungBy(old(h.mem), m, h.mem, pgdir, Pdx(va), f);
    AddTable(old(h.mem), old(h.owner), h.mem, pgdir, Pdx(va), f);
    ghost var o := h.owner;
    h.owner := old(h.owner)[f := Table(pgdir, Pdx(va))];
    OwnerChange(h.free, o, h.owner, f);
    return Some(f);
  }

  /** memset and the entry store together hang an empty table. */
  lemma HungBy(m: Memory, m0: Memory, m': Memory, d: nat, i: nat, t: nat)
    requires t < UPAGES && OnlyFrame(m, m0, t) && m0[t] == Filled(0)
    requires d != t && Poked(m0, m', d, i, t * PGSIZE + 7)
    ensures Hung(m, m', d, i, t) && Entry(m', d, i) == t * PGSIZE + 7
    ensures forall k: nat :: Present(Entry(m', d, k)) <==> k == i || Present(Entry(m, d, k))
  {
    assert Present(t * PGSIZE + 7);
  }

  lemma LinkedFrames(m: Memory, owner: Owners)
    requires Linked(m, owner)
    ensures forall f | f in owner :: f < UPAGES
  {
  }

  /** Handing on a frame that is not free leaves the free list exact. */
  lemma OwnerChange(free: seq<nat>, owner: Owners, owner': Owners, f: nat)
    requires FreeExactly(free, owner) && f in owner && !owner[f].Free?
    requires owner'.Keys == owner.Keys && !owner'[f].Free? && (forall g | g in owner && g != f :: owner'[g] == owner[g])
    ensures FreeExactly(free, owner')
  {
  }

  // The range mappages works on, as page k = 0, 1, ... of the range. Addresses wrap at 2^32.

  ghost function VpnAt(va: Word, k: nat): (v: nat)
    ensures v < PAGES
  {
    (va / PGSIZE + k) % 0x10_0000
  }

  ghost function AddrAt(va: Word, k: nat): (a: Word) {
    VpnAt(va, k) * PGSIZE
  }

  ghost function PaAt(pa: Word, k: nat): (p: Word) {
    Wrap(pa + k * PGSIZE)
  }

  /** Which page of the range v is; at least the range's length when it is not in the range. */
  ghost function VpnIndex(va: Word, v: nat): (k: nat)
    ensures k < PAGES
  {
    (v - va / PGSIZE) % 0x10_0000
  }

  ghost function FrameIndex(pa: Word, f: nat): (k: nat)
    ensures k < PAGES
  {
    (f - pa / PGSIZE) % 0x10_0000
  }

  /** Number of pages from the one holding va to the one holding va + size - 1. */
  ghost function RangePages(va: Word, size: Word): (n: nat)
    ensures 1 <= n <= PAGES
  {
    (Wrap(va + size - 1) / PGSIZE - va / PGSIZE) % 0x10_0000 + 1
  }

  lemma AddrPage(va: Word, k: nat)
    ensures AddrAt(va, k) % PGSIZE == 0 && Vpn(AddrAt(va, k)) == VpnAt(va, k)
    ensures Pdx(AddrAt(va, k)) == VpnAt(va, k) / ENTRIES
  {
  }

  lemma AddrStep(va: Word, k: nat)
    ensures AddrAt(va, 0) == PgRoundDown(va)
    ensures NextPage(AddrAt(va, k)) == AddrAt(va, k + 1)
  {
  }

  lemma VpnIndexAt(va: Word, k: nat)
    requires k < PAGES
    ensures VpnIndex(va, VpnAt(va, k)) == k
  {
  }

  lemma PaStep(pa: Word, k: nat)
    requires k < PAGES
    ensures PaAt(pa, 0) == pa
    ensures NextPage(PaAt(pa, k)) == PaAt(pa, k + 1)
    ensures pa % PGSIZE == 0 ==> PaAt(pa, k) % PGSIZE == 0 && FrameIndex(pa, FrameOf(PaAt(pa, k))) == k
  {
  }

  lemma VpnIndexInverse(va: Word, v: nat)
    requires v < PAGES
    ensures VpnAt(va, VpnIndex(va, v)) == v
  {
  }

  lemma RangeLast(va: Word, size: Word, k: nat)
    requires k < RangePages(va, size)
    ensures AddrAt(va, k) == PgRoundDown(Wrap(va + size - 1)) <==> k == RangePages(va, size) - 1
  {
  }

  /** The owners after page a was mapped in pgdir: perhaps a new table t, and the page itself in the user half. */
  ghost function OwnersAfterPage(owner: Owners, pgdir: nat, a: Word, pa: Word, t: Option<nat>): (r: Owners) {
    var o := if t.Some? then owner[t.value := Table(pgdir, Pdx(a))] else owner;
    if Vpn(a) < UPAGES then o[FrameOf(pa) := Page(pgdir, Vpn(a))] else o
  }

  /** The frame mapped at a user page must be one the caller holds. */
  ghost predicate MayMap(owner: Owners, v: nat, pa: Word, perm: Word) {
    v < UPAGES ==>
      && pa % PGSIZE == 0 && perm < PGSIZE
      && FrameOf(pa) in owner && owner[FrameOf(pa)].Held?
  }

  /** What mapping page a changes: its translation, and at most one free frame, which becomes its table. */
  ghost predicate PageMapped(m: Memory, free: seq<nat>, owner: Owners, m': Memory, free': seq<nat>, owner': Owners,
                             pgdir: nat, a: Word, pa: Word, perm: Word)
  {
    && (forall e: nat, v: nat | IsDir(owner, e) ::
          Lookup(m', e, v) == if e == pgdir && v == Vpn(a) then Some(MakePte(pa, perm)) else Lookup(m, e, v))
    && (forall i: nat :: Present(Entry(m', pgdir, i)) <==> i == Pdx(a) || Present(Entry(m, pgdir, i)))
    && if Present(Entry(m, pgdir, Pdx(a)))
       then free' == free && owner' == OwnersAfterPage(owner, pgdir, a, pa, None)
       else
         && free != [] && free' == free[1..]
         && free[0] in owner && owner[free[0]].Free?
         && owner' == OwnersAfterPage(owner, pgdir, a, pa, Some(free[0]))
  }

  /** Stores the entry for page a, which is not mapped yet, in its table t. */
  method StoreEntry(h: Heap, pgdir: nat, t: nat, a: Word, pa: Word, perm: Word)
    requires Good(h) && IsTable(h.owner, t, pgdir, Pdx(a)) && t < UPAGES && !Present(Entry(h.mem, t, Ptx(a)))
    requires MayMap(h.owner, Vpn(a), pa, perm)
    modifies h`mem, h`owner
    ensures Good(h) && OnlyFrame(old(h.mem), h.mem, t)
    ensures h.owner == if Vpn(a) < UPAGES then old(h.owner)[FrameOf(pa) := Page(pgdir, Vpn(a))] else old(h.owner)
    ensures forall e: nat, v: nat | IsDir(old(h.owner), e) ::
              Lookup(h.mem, e, v) ==
              if e == pgdir && v == Vpn(a) then Some(MakePte(pa, perm)) else Lookup(old(h.mem), e, v)
    ensures forall i: nat :: Entry(h.mem, pgdir, i) == Entry(old(h.mem), pgdir, i)
  {
    hide Chain, FreeExactly, Lookup, Linked, MakePte, Poked, OnlyFrame, Present;
    LinkedFrames(h.mem, h.owner);
    TableFrame(h.mem, h.owner, t, pgdir, Pdx(a));
    var j := Ptx(a);
    assert Vpn(a) == Pdx(a) * ENTRIES + j;
    ghost var m, o, w := h.mem, h.owner, MakePte(pa, perm);
    h.Store(t, j, MakePte(pa, perm));
    MakePteDecodes(pa, perm);
    PokeLookup(m, o, h.mem, pgdir, Pdx(a), t, j, w);
    PokeDirectory(m, h.mem, t, j, w, pgdir);
    if Vpn(a) < UPAGES {
      MapUser(m, o, h.mem, pgdir, Pdx(a), t, j, w);
      h.owner := h.owner[FrameOf(pa) := Page(pgdir, Vpn(a))];
      OwnerChange(h.free, o, h.owner, FrameOf(pa));
    } else {
      PokeKernel(m, o, h.mem, pgdir, Pdx(a), t, j, w);
    }
  }

  /** One round of the mappages loop. */
  method MapPage(h: Heap, pgdir: nat, a: Word, pa: Word, perm: Word) returns (r: Status)
    requires Good(h) && IsDir(h.owner, pgdir) && a % PGSIZE == 0
    requires MayMap(h.owner, Vpn(a), pa, perm)
    modifies h`mem, h`freelist, h`free, h`owner
    ensures Good(h)
    ensures r.Fail? <==> !Present(old(Entry(h.mem, pgdir, Pdx(a)))) && old(h.free) == []
    ensures r.Panic? <==> old(Lookup(h.mem, pgdir, Vpn(a))).Some?
    ensures r.Panic? ==> r.message == "remap"
    ensures !r.Ok? ==> h.mem == old(h.mem) && h.free == old(h.free) && h.owner == old(h.owner)
    ensures h.owner.Keys == old(h.owner).Keys
    ensures r.Ok? ==> PageMapped(old(h.mem), old(h.free), old(h.owner), h.mem, h.free, h.owner, pgdir, a, pa, perm)
    ensures Untouched(old(h.mem), old(h.owner), h.mem, h.owner)
  {
    hide Chain, FreeExactly, Lookup, Linked, MakePte, Untouched, OnlyFrame, PageMapped, Present;
    var table := Walkpgdir(h, pgdir, a, true);
    if table.None? {
      AbsentTable(h.mem, pgdir, Vpn(a));
      return Fail;
    }
    var t := table.value;
    assert Vpn(a) == Pdx(a) * ENTRIES + Ptx(a);
    Unmapped(h.mem, h.owner, pgdir, Pdx(a), t, Ptx(a));
    if Present(h.mem[t][Ptx(a)]) {
      AbsentTable(old(h.mem), pgdir, Vpn(a));
      return Panic("remap");
    }
    ghost var m, o := h.mem, h.owner;
    StoreEntry(h, pgdir, t, a, pa, perm);
    UntouchedStore(old(h.mem), old(h.owner), m, o, h.mem, h.owner, t);
    PageMappedBy(old(h.mem), old(h.free), old(h.owner), m, h.free, o, h.mem, h.owner, pgdir, a, pa, perm, t);
    return Ok;
  }

  /** The walk and the store together map the page. */
  lemma PageMappedBy(m0: Memory, free0: seq<nat>, owner0: Owners, m: Memory, free: seq<nat>, owner: Owners,
                     m': Memory, owner': Owners, pgdir: nat, a: Word, pa: Word, perm: Word, t: nat)
    requires forall e: nat, v: nat | IsDir(owner0, e) :: Lookup(m, e, v) == Lookup(m0, e, v)
    requires forall e: nat :: IsDir(owner, e) <==> IsDir(owner0, e)
    requires forall i: nat :: Present(Entry(m, pgdir, i)) <==> i == Pdx(a) || Present(Entry(m0, pgdir, i))
    requires if Present(Entry(m0, pgdir, Pdx(a))) then free == free0 && owner == owner0
             else free0 != [] && t == free0[0] && t in owner0 && owner0[t].Free? && free == free0[1..]
                  && owner == owner0[t := Table(pgdir, Pdx(a))]
    requires forall e: nat, v: nat | IsDir(owner, e) ::
               Lookup(m', e, v) == if e == pgdir && v == Vpn(a) then Some(MakePte(pa, perm)) else Lookup(m, e, v)
    requires forall i: nat :: Entry(m', pgdir, i) == Entry(m, pgdir, i)
    requires owner' == if Vpn(a) < UPAGES then owner[FrameOf(pa) := Page(pgdir, Vpn(a))] else owner
    ensures PageMapped(m0, free0, owner0, m', free, owner', pgdir, a, pa, perm)
  {
    hide Lookup, MakePte, Present, Pdx, Vpn;
  }

  /** Storing into a table touches no frame in use. */
  lemma UntouchedStore(m0: Memory, owner0: Owners, m: Memory, owner: Owners, m': Memory, owner': Owners, t: nat)
    requires Untouched(m0, owner0, m, owner) && OnlyFrame(m, m', t) && t in owner && owner[t].Table?
    requires forall f: nat | f in owner0 && InUse(owner0[f]) :: f in owner && owner[f] == owner0[f]
    ensures Untouched(m0, owner0, m', owner')
  {
  }

  lemma AbsentTable(m: Memory, d: nat, v: nat)
    ensures !Present(Entry(m, d, v / ENTRIES)) ==> Lookup(m, d, v).None?
  {
  }

  lemma PokeDirectory(m: Memory, m': Memory, t: nat, j: nat, w: Word, d: nat)
    requires Poked(m, m', t, j, w) && d != t
    ensures forall i: nat :: Entry(m', d, i) == Entry(m, d, i)
  {
  }

  /** m' translates like m, except that pgdir now maps the first n pages of the range as asked. */
  ghost predicate Overridden(m: Memory, m': Memory, owner: Owners, pgdir: nat, va: Word, n: nat, pa: Word, perm: Word) {
    forall e: nat, v: nat | IsDir(owner, e) && v < PAGES ::
      Lookup(m', e, v) ==
      if e == pgdir && VpnIndex(va, v) < n then Some(MakePte(PaAt(pa, VpnIndex(va, v)), perm)) else Lookup(m, e, v)
  }

  ghost predicate NoneMapped(m: Memory, pgdir: nat, va: Word, n: nat) {
    forall k: nat | k < n :: Lookup(m, pgdir, VpnAt(va, k)).None?
  }

  lemma NoneMappedStep(m: Memory, pgdir: nat, va: Word, k: nat, n: nat)
    requires k < n && NoneMapped(m, pgdir, va, k)
    ensures NoneMapped(m, pgdir, va, k + 1) <==> Lookup(m, pgdir, VpnAt(va, k)).None?
    ensures NoneMapped(m, pgdir, va, n) ==> Lookup(m, pgdir, VpnAt(va, k)).None?
  {
  }

  /** Of the first n pages of the range, the directory entries that have no table yet. */
  ghost function Needed(m: Memory, pgdir: nat, va: Word, n: nat): (s: set<nat>) {
    if n == 0 then {}
    else
      var i := VpnAt(va, n - 1) / ENTRIES;
      if Present(Entry(m, pgdir, i)) then Needed(m, pgdir, va, n - 1) else Needed(m, pgdir, va, n - 1) + {i}
  }

  lemma {:induction false} NeededMono(m: Memory, pgdir: nat, va: Word, k: nat, n: nat)
    requires k <= n
    ensures Needed(m, pgdir, va, k) <= Needed(m, pgdir, va, n)
    ensures |Needed(m, pgdir, va, k)| <= |Needed(m, pgdir, va, n)|
  {
    if k < n {
      NeededMono(m, pgdir, va, k, n - 1);
      SubsetSize(Needed(m, pgdir, va, n - 1), Needed(m, pgdir, va, n));
    }
  }

  lemma SubsetSize(s: set<nat>, t: set<nat>)
    requires s <= t
    ensures |s| <= |t|
  {
    assert t == s + (t - s);
  }

  /** Tables are taken from the free list exactly for the entries that were absent. */
  ghost predicate TablesTaken(m: Memory, m': Memory, free: seq<nat>, free': seq<nat>, pgdir: nat, va: Word, n: nat) {
    var s := Needed(m, pgdir, va, n);
    && |s| <= |free| && free' == free[|s|..]
    && (forall i: nat :: Present(Entry(m', pgdir, i)) <==> Present(Entry(m, pgdir, i)) || i in s)
  }

  /** Frames taken became tables of pgdir; held frames mapped at user pages became its pages; nothing else moved. */
  ghost predicate OwnersGrown(owner: Owners, owner': Owners, pgdir: nat, va: Word, n: nat, pa: Word) {
    && owner'.Keys == owner.Keys
    && (forall f: nat | f in owner :: OwnerGrown(owner[f], owner'[f], pgdir, va, n, FrameIndex(pa, f)))
  }

  ghost predicate OwnerGrown(o: Owner, o': Owner, pgdir: nat, va: Word, n: nat, k: nat) {
    if o.Held? && k < n && VpnAt(va, k) < UPAGES then o' == Page(pgdir, VpnAt(va, k))
    else if o.Free? then o'.Free? || (o'.Table? && o'.dir == pgdir)
    else o' == o
  }

  lemma OwnersStep(owner: Owners, o: Owners, pgdir: nat, va: Word, n: nat, pa: Word, perm: Word, t: Option<nat>)
    requires n < PAGES && (forall f | f in owner :: f < UPAGES)
    requires OwnersGrown(owner, o, pgdir, va, n, pa)
    requires MayMap(owner, VpnAt(va, n), PaAt(pa, n), perm) && MayMap(o, VpnAt(va, n), PaAt(pa, n), perm)
    requires VpnAt(va, n) < UPAGES ==> pa % PGSIZE == 0
    requires t.Some? ==> t.value in o && o[t.value].Free?
    ensures OwnersGrown(owner, OwnersAfterPage(o, pgdir, AddrAt(va, n), PaAt(pa, n), t), pgdir, va, n + 1, pa)
  {
    hide VpnAt, AddrAt, PaAt, FrameIndex, Pdx, FrameOf;
    AddrPage(va, n);
    PaStep(pa, n);
    if VpnAt(va, n) < UPAGES {
      forall f: nat | f in owner && FrameIndex(pa, f) == n ensures f == FrameOf(PaAt(pa, n)) {
        FrameIndexUnique(pa, f, n);
      }
    }
  }

  lemma FrameIndexUnique(pa: Word, f: nat, n: nat)
    requires pa % PGSIZE == 0 && f < PAGES && FrameIndex(pa, f) == n
    ensures f == FrameOf(PaAt(pa, n))
  {
  }

  lemma MayMapLater(owner: Owners, o: Owners, pgdir: nat, va: Word, n: nat, pa: Word, perm: Word, k: nat)
    requires n <= k < PAGES && OwnersGrown(owner, o, pgdir, va, n, pa)
    requires MayMap(owner, VpnAt(va, k), PaAt(pa, k), perm)
    requires VpnAt(va, k) < UPAGES ==> pa % PGSIZE == 0
    ensures MayMap(o, VpnAt(va, k), PaAt(pa, k), perm)
  {
    PaStep(pa, k);
  }

  /** The next page of the range needs a table exactly when its entry is still absent. */
  lemma NeededStep(m: Memory, m': Memory, free: seq<nat>, free': seq<nat>, pgdir: nat, va: Word, n: nat)
    requires TablesTaken(m, m', free, free', pgdir, va, n)
    ensures |free'| == |free| - |Needed(m, pgdir, va, n)|
    ensures var i := VpnAt(va, n) / ENTRIES;
            |Needed(m, pgdir, va, n + 1)| == |Needed(m, pgdir, va, n)| + if Present(Entry(m', pgdir, i)) then 0 else 1
    ensures forall i: nat :: i in Needed(m, pgdir, va, n + 1) <==>
              i in Needed(m, pgdir, va, n) || (i == VpnAt(va, n) / ENTRIES && !Present(Entry(m, pgdir, i)))
  {
    var i := VpnAt(va, n) / ENTRIES;
    if Present(Entry(m', pgdir, i)) {
      assert Needed(m, pgdir, va, n + 1) == Needed(m, pgdir, va, n);
    }
  }

  lemma TablesTakenStep(m0: Memory, m: Memory, m': Memory, free0: seq<nat>, free: seq<nat>, free': seq<nat>,
                        pgdir: nat, va: Word, n: nat)
    requires TablesTaken(m0, m, free0, free, pgdir, va, n)
    requires forall i: nat ::
               Present(Entry(m', pgdir, i)) <==> i == VpnAt(va, n) / ENTRIES || Present(Entry(m, pgdir, i))
    requires if Present(Entry(m, pgdir, VpnAt(va, n) / ENTRIES)) then free' == free
             else free != [] && free' == free[1..]
    ensures TablesTaken(m0, m', free0, free', pgdir, va, n + 1)
  {
    hide Needed;
    NeededStep(m0, m, free0, free, pgdir, va, n);
  }

  lemma OverriddenAt(m0: Memory, m: Memory, owner: Owners, pgdir: nat, va: Word, n: nat, pa: Word, perm: Word)
    requires n < PAGES && IsDir(owner, pgdir) && Overridden(m0, m, owner, pgdir, va, n, pa, perm)
    ensures Lookup(m, pgdir, VpnAt(va, n)) == Lookup(m0, pgdir, VpnAt(va, n))
  {
    hide Lookup, VpnAt, VpnIndex;
    VpnIndexAt(va, n);
  }

  lemma GrownDirs(owner: Owners, o: Owners, pgdir: nat, va: Word, n: nat, pa: Word)
    requires OwnersGrown(owner, o, pgdir, va, n, pa)
    ensures forall e: nat :: IsDir(o, e) <==> IsDir(owner, e)
  {
  }

  lemma OverrideStep(m0: Memory, m: Memory, m': Memory, owner: Owners, pgdir: nat, va: Word, n: nat, pa: Word,
                     perm: Word)
    requires n < PAGES && Overridden(m0, m, owner, pgdir, va, n, pa, perm)
    requires forall e: nat, v: nat | IsDir(owner, e) ::
               Lookup(m', e, v) ==
               if e == pgdir && v == VpnAt(va, n) then Some(MakePte(PaAt(pa, n), perm)) else Lookup(m, e, v)
    ensures Overridden(m0, m', owner, pgdir, va, n + 1, pa, perm)
  {
    hide Lookup, MakePte, VpnAt, VpnIndex;
    forall v: nat | v < PAGES ensures v == VpnAt(va, n) <==> VpnIndex(va, v) == n {
      VpnIndexInverse(va, v);
      VpnIndexAt(va, n);
    }
  }

  /** Everything that mapping the first n pages of the range has changed. */
  ghost predicate RangeDone(m0: Memory, free0: seq<nat>, owner0: Owners, m: Memory, free: seq<nat>, owner: Owners,
                            pgdir: nat, va: Word, n: nat, pa: Word, perm: Word)
  {
    && Overridden(m0, m, owner0, pgdir, va, n, pa, perm)
    && TablesTaken(m0, m, free0, free, pgdir, va, n)
    && OwnersGrown(owner0, owner, pgdir, va, n, pa)
  }

  lemma RangeStart(m: Memory, free: seq<nat>, owner: Owners, pgdir: nat, va: Word, pa: Word, perm: Word)
    ensures RangeDone(m, free, owner, m, free, owner, pgdir, va, 0, pa, perm)
    ensures NoneMapped(m, pgdir, va, 0)
    ensures AddrAt(va, 0) == PgRoundDown(va) && PaAt(pa, 0) == pa
  {
    AddrStep(va, 0);
  }

  /** What the state before page n says about the outcome of mapping it. */
  lemma RangeReady(m0: Memory, free0: seq<nat>, owner0: Owners, m: Memory, free: seq<nat>, owner: Owners,
                   pgdir: nat, va: Word, n: nat, pa: Word, perm: Word, size: Word)
    requires RangeDone(m0, free0, owner0, m, free, owner, pgdir, va, n, pa, perm)
    requires n < RangePages(va, size) && IsDir(owner0, pgdir)
    requires MayMap(owner0, VpnAt(va, n), PaAt(pa, n), perm)
    requires VpnAt(va, n) < UPAGES ==> pa % PGSIZE == 0
    ensures IsDir(owner, pgdir) && AddrAt(va, n) % PGSIZE == 0 && Vpn(AddrAt(va, n)) == VpnAt(va, n)
    ensures MayMap(owner, Vpn(AddrAt(va, n)), PaAt(pa, n), perm)
    ensures Lookup(m, pgdir, Vpn(AddrAt(va, n))) == Lookup(m0, pgdir, VpnAt(va, n))
    ensures free == [] && !Present(Entry(m, pgdir, Pdx(AddrAt(va, n)))) ==>
              && |Needed(m0, pgdir, va, n + 1)| > |free0|
              && |Needed(m0, pgdir, va, RangePages(va, size))| > |free0|
    ensures AddrAt(va, n) == PgRoundDown(Wrap(va + size - 1)) <==> n == RangePages(va, size) - 1
    ensures NextPage(AddrAt(va, n)) == AddrAt(va, n + 1) && NextPage(PaAt(pa, n)) == PaAt(pa, n + 1)
  {
    hide Lookup, Needed, VpnAt, AddrAt, PaAt, VpnIndex, FrameIndex, RangePages, PgRoundDown, Pdx, Vpn, Wrap,
      NextPage, MayMap;
    AddrPage(va, n);
    AddrStep(va, n);
    PaStep(pa, n);
    RangeLast(va, size, n);
    GrownDirs(owner0, owner, pgdir, va, n, pa);
    MayMapLater(owner0, owner, pgdir, va, n, pa, perm, n);
    OverriddenAt(m0, m, owner0, pgdir, va, n, pa, perm);
    NeededStep(m0, m, free0, free, pgdir, va, n);
    NeededMono(m0, pgdir, va, n + 1, RangePages(va, size));
  }

  lemma RangeAdvance(m0: Memory, free0: seq<nat>, owner0: Owners, m: Memory, free: seq<nat>, owner: Owners,
                     m': Memory, free': seq<nat>, owner': Owners, pgdir: nat, va: Word, n: nat, pa: Word, perm: Word)
    requires RangeDone(m0, free0, owner0, m, free, owner, pgdir, va, n, pa, perm)
    requires PageMapped(m, free, owner, m', free', owner', pgdir, AddrAt(va, n), PaAt(pa, n), perm)
    requires n < PAGES && (forall f | f in owner0 :: f < UPAGES)
    requires MayMap(owner0, VpnAt(va, n), PaAt(pa, n), perm) && MayMap(owner, VpnAt(va, n), PaAt(pa, n), perm)
    requires VpnAt(va, n) < UPAGES ==> pa % PGSIZE == 0
    ensures RangeDone(m0, free0, owner0, m', free', owner', pgdir, va, n + 1, pa, perm)
  {
    hide Lookup, Needed, VpnAt, AddrAt, PaAt, VpnIndex, FrameIndex, Pdx, Vpn, MayMap, MakePte;
    AddrPage(va, n);
    GrownDirs(owner0, owner, pgdir, va, n, pa);
    OverrideStep(m0, m, m', owner0, pgdir, va, n, pa, perm);
    TablesTakenStep(m0, m, m', free0, free, free', pgdir, va, n);
    var t := if Present(Entry(m, pgdir, VpnAt(va, n) / ENTRIES)) then None else Some(free[0]);
    OwnersStep(owner0, owner, pgdir, va, n, pa, perm, t);
  }

  /** Maps the pages of [va, va + size) to consecutive frames from pa on. */
  method Mappages(h: Heap, pgdir: nat, va: Word, size: Word, pa: Word, perm: Word) returns (r: Status, ghost done: nat)
    requires Good(h) && IsDir(h.owner, pgdir)
    requires forall k: nat | k < RangePages(va, size) :: MayMap(h.owner, VpnAt(va, k), PaAt(pa, k), perm)
    requires forall k: nat | k < RangePages(va, size) && VpnAt(va, k) < UPAGES :: pa % PGSIZE == 0
    modifies h`mem, h`freelist, h`free, h`owner
    ensures Good(h) && IsDir(h.owner, pgdir)
    ensures r.Ok? <==>
              && NoneMapped(old(h.mem), pgdir, va, RangePages(va, size))
              && |Needed(old(h.mem), pgdir, va, RangePages(va, size))| <= |old(h.free)|
    ensures if r.Ok? then done == RangePages(va, size) else done < RangePages(va, size)
    ensures r.Fail? ==> h.free == [] && |Needed(old(h.mem), pgdir, va, done + 1)| > |old(h.free)|
    ensures r.Panic? ==> r.message == "remap" && old(Lookup(h.mem, pgdir, VpnAt(va, done))).Some?
    ensures RangeDone(old(h.mem), old(h.free), old(h.owner), h.mem, h.free, h.owner, pgdir, va, done, pa, perm)
    ensures Untouched(old(h.mem), old(h.owner), h.mem, h.owner)
  {
    hide Chain, FreeExactly, Lookup, Linked, MakePte, VpnAt, AddrAt, PaAt, MayMap, RangePages, PgRoundDown, Pdx,
      Vpn, Wrap, NextPage, NoneMapped, RangeDone, PageMapped, Needed, Untouched;
    ghost var n := RangePages(va, size);
    var a := PgRoundDown(va);
    var last := PgRoundDown(Wrap(va + size - 1));
    var p := pa;
    done := 0;
    RangeStart(h.mem, h.free, h.owner, pgdir, va, pa, perm);
    UntouchedStart(h.mem, h.owner);
    LinkedFrames(h.mem, h.owner);
    while true
      invariant Good(h)
      invariant done < n && a == AddrAt(va, done) && p == PaAt(pa, done)
      invariant NoneMapped(old(h.mem), pgdir, va, done)
      invariant Untouched(old(h.mem), old(h.owner), h.mem, h.owner)
      invariant RangeDone(old(h.mem), old(h.free), old(h.owner), h.mem, h.free, h.owner, pgdir, va, done, pa, perm)
      decreases n - done
    {
      ghost var m, free, o := h.mem, h.free, h.owner;
      RangeReady(old(h.mem), old(h.free), old(h.owner), m, free, o, pgdir, va, done, pa, perm, size);
      NoneMappedStep(old(h.mem), pgdir, va, done, n);
      r := MapPage(h, pgdir, a, p, perm);
      if !r.Ok? {
        return;
      }
      UntouchedStep(old(h.mem), old(h.free), old(h.owner), m, free, o, h.mem, h.owner, pgdir, va, done, pa, perm);
      RangeAdvance(old(h.mem), old(h.free), old(h.owner), m, free, o, h.mem, h.free, h.owner, pgdir, va, done, pa,
          perm);
      done := done + 1;
      if a == last {
        break;
      }
      a := NextPage(a);
      p := NextPage(p);
    }
    RangeEnd(old(h.mem), old(h.free), old(h.owner), h.mem, h.free, h.owner, pgdir, va, done, pa, perm);
    return Ok, done;
  }

  lemma UntouchedStart(m: Memory, owner: Owners)
    ensures Untouched(m, owner, m, owner)
  {
  }

  lemma UntouchedStep(m0: Memory, free0: seq<nat>, owner0: Owners, m: Memory, free: seq<nat>, owner: Owners,
                      m': Memory, owner': Owners, pgdir: nat, va: Word, n: nat, pa: Word, perm: Word)
    requires RangeDone(m0, free0, owner0, m, free, owner, pgdir, va, n, pa, perm)
    requires Untouched(m0, owner0, m, owner) && Untouched(m, owner, m', owner') && owner'.Keys == owner.Keys
    ensures Untouched(m0, owner0, m', owner')
  {
    hide Overridden, TablesTaken, VpnAt, FrameIndex;
  }

  lemma RangeEnd(m0: Memory, free0: seq<nat>, owner0: Owners, m: Memory, free: seq<nat>, owner: Owners,
                 pgdir: nat, va: Word, n: nat, pa: Word, perm: Word)
    requires RangeDone(m0, free0, owner0, m, free, owner, pgdir, va, n, pa, perm)
    ensures |Needed(m0, pgdir, va, n)| <= |free0|
    ensures forall e: nat :: IsDir(owner, e) <==> IsDir(owner0, e)
  {
    hide Overridden, Needed, VpnAt, FrameIndex;
    GrownDirs(owner0, owner, pgdir, va, n, pa);
  }

  /** Some byte of [va, va + size) lies in page v. */
  ghost predicate Touches(va: Word, size: Word, v: nat) {
    size > 0 && va < (v + 1) * PGSIZE && v * PGSIZE < va + size
  }

  /**
    For a block inside the address space, the pages mappages visits are exactly those the
    block touches if and only if the block is not empty: for size 0 it still maps a page,
    and from an aligned va it goes round the whole address space.
   */
  lemma RangeExact(va: Word, size: Word)
    requires va + size <= WORDS
    ensures (forall v: nat | v < PAGES :: VpnIndex(va, v) < RangePages(va, size) <==> Touches(va, size, v)) <==>
              size > 0
    ensures size == 0 && va % PGSIZE == 0 ==> RangePages(va, size) == PAGES
  {
    if size == 0 {
      var v := va / PGSIZE;
      assert VpnIndex(va, v) == 0 && !Touches(va, size, v);
    } else {
      assert Wrap(va + size - 1) == va + size - 1;
    }
  }
}

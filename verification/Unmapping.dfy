/** deallocuvm and freevm of kernel/paging.c. */
module Unmapping {
  import opened Layout
  import opened Kalloc
  import opened PageTables
  import opened Mapping

  /** A plain page-by-page scan of pages [lo, hi): the frames it frees, the last one on top. */
  ghost function FreedStack(m: Memory, d: nat, lo: nat, hi: nat): (s: seq<nat>) {
    if lo >= hi then []
    else
      var w := Lookup(m, d, hi - 1);
      (if w.Some? then [FrameOf(w.value)] else []) + FreedStack(m, d, lo, hi - 1)
  }

  /** The owners once pages [lo, hi) of directory d are free. */
  ghost function Released(owner: Owners, d: nat, lo: nat, hi: nat): (r: Owners)
    ensures r.Keys == owner.Keys
  {
    map f | f in owner :: if owner[f].Page? && owner[f].dir == d && lo <= owner[f].vpn < hi then Free else owner[f]
  }

  /** The effect of scanning pages [lo, k) of directory d. */
  ghost predicate ScanDone(m0: Memory, free0: seq<nat>, owner0: Owners, m: Memory, free: seq<nat>, owner: Owners,
                           d: nat, lo: nat, k: nat)
  {
    && (forall e: nat, v: nat | IsDir(owner0, e) ::
          Lookup(m, e, v) == if e == d && lo <= v < k then None else Lookup(m0, e, v))
    && (forall i: nat :: Entry(m, d, i) == Entry(m0, d, i))
    && free == FreedStack(m0, d, lo, k) + free0
    && owner == Released(owner0, d, lo, k)
  }

  lemma ScanStart(m: Memory, free: seq<nat>, owner: Owners, d: nat, lo: nat)
    ensures ScanDone(m, free, owner, m, free, owner, d, lo, lo)
  {
    assert Released(owner, d, lo, lo) == owner;
  }

  /** Pages that are not mapped can be passed over. */
  lemma {:induction false} ScanSkip(m0: Memory, free0: seq<nat>, owner0: Owners, m: Memory, free: seq<nat>,
                                    owner: Owners, d: nat, lo: nat, k: nat, k': nat)
    requires lo <= k <= k' && Linked(m0, owner0) && IsDir(owner0, d)
    requires ScanDone(m0, free0, owner0, m, free, owner, d, lo, k)
    requires forall v: nat | k <= v < k' :: Lookup(m0, d, v).None?
    ensures ScanDone(m0, free0, owner0, m, free, owner, d, lo, k')
  {
    hide Lookup;
    if k < k' {
      ScanSkip(m0, free0, owner0, m, free, owner, d, lo, k, k' - 1);
      assert Lookup(m0, d, k' - 1).None?;
      assert FreedStack(m0, d, lo, k') == FreedStack(m0, d, lo, k' - 1);
      ReleasedNone(m0, owner0, d, lo, k' - 1);
    }
  }

  lemma ReleasedNone(m: Memory, owner: Owners, d: nat, lo: nat, k: nat)
    requires Linked(m, owner) && Lookup(m, d, k).None?
    ensures Released(owner, d, lo, k + 1) == Released(owner, d, lo, k)
  {
    hide Lookup;
    forall f: nat | f in owner && owner[f].Page? && owner[f].dir == d ensures owner[f].vpn != k {
      assert PageLinked(m, owner, f, owner[f].dir, owner[f].vpn);
    }
  }

  /** Freeing the frame of one mapped page extends the scan by that page. */
  lemma ScanStep(m0: Memory, free0: seq<nat>, owner0: Owners, m: Memory, free: seq<nat>, owner: Owners,
                 m': Memory, free': seq<nat>, owner': Owners, d: nat, lo: nat, k: nat, u: nat)
    requires lo <= k && Linked(m0, owner0) && IsDir(owner0, d)
    requires ScanDone(m0, free0, owner0, m, free, owner, d, lo, k)
    requires Lookup(m0, d, k).Some? && u == FrameOf(Lookup(m0, d, k).value) && IsPage(owner0, u, d, k)
    requires forall e: nat, v: nat | IsDir(owner0, e) ::
               Lookup(m', e, v) == if e == d && v == k then None else Lookup(m, e, v)
    requires forall i: nat :: Entry(m', d, i) == Entry(m, d, i)
    requires free' == [u] + free && owner' == owner[u := Free]
    ensures ScanDone(m0, free0, owner0, m', free', owner', d, lo, k + 1)
  {
    hide Lookup;
    assert [u] + (FreedStack(m0, d, lo, k) + free0) == FreedStack(m0, d, lo, k + 1) + free0;
    ReleasedOne(m0, owner0, d, lo, k, u);
  }

  lemma ReleasedOne(m: Memory, owner: Owners, d: nat, lo: nat, k: nat, u: nat)
    requires lo <= k && Linked(m, owner) && IsPage(owner, u, d, k)
    ensures Released(owner, d, lo, k + 1) == Released(owner, d, lo, k)[u := Free]
  {
    hide Lookup;
    assert PageLinked(m, owner, u, d, k);
    forall f: nat | f in owner && owner[f] == Page(d, k) ensures f == u {
      assert PageLinked(m, owner, f, d, k);
    }
  }

  /** Frees the frame mapped at user page a and clears its entry. */
  method UnmapPage(h: Heap, pgdir: nat, t: nat, a: Word) returns (r: Status)
    requires Good(h) && IsTable(h.owner, t, pgdir, Pdx(a)) && t < UPAGES && Pdx(a) < USLOTS
    requires Present(Entry(h.mem, t, Ptx(a)))
    modifies h`mem, h`freelist, h`free, h`owner
    ensures Good(h) && r.Ok?
    ensures IsPage(old(h.owner), FrameOf(old(Entry(h.mem, t, Ptx(a)))), pgdir, Vpn(a))
    ensures h.free == [FrameOf(old(Entry(h.mem, t, Ptx(a))))] + old(h.free)
    ensures h.owner == old(h.owner)[FrameOf(old(Entry(h.mem, t, Ptx(a)))) := Free]
    ensures forall e: nat, v: nat | IsDir(old(h.owner), e) ::
              Lookup(h.mem, e, v) == if e == pgdir && v == Vpn(a) then None else Lookup(old(h.mem), e, v)
    ensures forall i: nat :: Entry(h.mem, pgdir, i) == old(Entry(h.mem, pgdir, i))
    ensures Untouched(old(h.mem), old(h.owner), h.mem, h.owner)
  {
    hide Chain, FreeExactly, Lookup, DirsLinked, TablesLinked, PagesLinked;
    var j := Ptx(a);
    assert Vpn(a) == Pdx(a) * ENTRIES + j;
    var u := FrameOf(h.mem[t][j]);
    assert IsPage(h.owner, u, pgdir, Vpn(a));
    HeapFrame(h.kheapStart, h.kheapEnd, u);
    if u == 0 {
      return Panic("kfree");
    }
    ghost var m, o := h.mem, h.owner;
    r := h.Kfree(P2V(u * PGSIZE));
    if r.Panic? {
      return;
    }
    ghost var m1 := h.mem;
    OtherFrame(m, o, m1, o, u);
    h.Store(t, j, 0);
    UnmapUser(m1, o, h.mem, pgdir, Pdx(a), t, j, Free);
    PokeLookup(m1, o, h.mem, pgdir, Pdx(a), t, j, 0);
    DirOfTable(m, o, t, pgdir, Pdx(a));
    PokeDirectory(m1, h.mem, t, j, 0, pgdir);
    return Ok;
  }

  lemma HeapFrame(start: Word, end: Word, u: nat)
    requires InHeap(u, start, end) && start > KERNBASE
    ensures u > 0 && u * PGSIZE < WORDS && P2V(u * PGSIZE) == Ptr(u) && PtrFrame(Ptr(u)) == u
    ensures Ptr(u) % PGSIZE == 0 && Ptr(u) >= start && V2P(Ptr(u)) < end
  {
  }

  lemma DirOfTable(m: Memory, owner: Owners, t: nat, d: nat, i: nat)
    requires Linked(m, owner) && IsTable(owner, t, d, i)
    ensures IsDir(owner, d) && d != t
  {
    assert TableLinked(m, owner, t, d, i);
  }

  /** Pages whose first byte is below sz. */
  function PagesBelow(sz: Word): (n: nat) {
    (sz + PGSIZE - 1) / PGSIZE
  }

  /** Deallocates the user pages of [PGROUNDUP(newsz), oldsz), jumping over absent tables. */
  method Deallocuvm(h: Heap, pgdir: nat, oldsz: Word, newsz: Word) returns (r: Status, sz: Word)
    requires Good(h) && IsDir(h.owner, pgdir) && oldsz <= KERNBASE
    modifies h`mem, h`freelist, h`free, h`owner
    ensures Good(h) && IsDir(h.owner, pgdir) && r.Ok?
    ensures sz == if newsz >= oldsz then oldsz else newsz
    ensures newsz >= oldsz ==> h.mem == old(h.mem) && h.free == old(h.free) && h.owner == old(h.owner)
    ensures newsz < oldsz ==> ScanDone(old(h.mem), old(h.free), old(h.owner), h.mem, h.free, h.owner,
                                       pgdir, PagesBelow(newsz), PagesBelow(oldsz))
    ensures Untouched(old(h.mem), old(h.owner), h.mem, h.owner)
  {
    hide Chain, FreeExactly, Lookup, Linked, ScanDone, Untouched, PgRoundUp, PagesBelow, SkipTable, NextPage, Vpn,
      Pdx, Ptx;
    UntouchedStart(h.mem, h.owner);
    if newsz >= oldsz {
      return Ok, oldsz;
    }
    r, sz := Ok, newsz;
    ghost var lo, hi := PagesBelow(newsz), PagesBelow(oldsz);
    var a: Word := PgRoundUp(newsz);
    RoundUpPage(newsz, oldsz);
    ScanStart(h.mem, h.free, h.owner, pgdir, lo);
    while a < oldsz
      invariant Good(h) && IsDir(h.owner, pgdir)
      invariant a % PGSIZE == 0 && lo <= Vpn(a)
      invariant Untouched(old(h.mem), old(h.owner), h.mem, h.owner)
      invariant ScanDone(old(h.mem), old(h.free), old(h.owner), h.mem, h.free, h.owner, pgdir, lo, Clip(Vpn(a), hi))
      decreases oldsz - a
    {
      ghost var m, free, o, k := h.mem, h.free, h.owner, Vpn(a);
      PageOf(a, oldsz);
      ScanFacts(old(h.mem), old(h.free), old(h.owner), m, free, o, pgdir, lo, k);
      var t := Walkpgdir(h, pgdir, a, false);
      if t.None? {
        JumpTarget(a);
        a := SkipTable(a);
        AbsentSlot(old(h.mem), pgdir, k, Clip(Vpn(a) + 1, hi));
        ScanSkip(old(h.mem), old(h.free), old(h.owner), m, free, o, pgdir, lo, k, Clip(Vpn(a) + 1, hi));
      } else {
        Unmapped(h.mem, h.owner, pgdir, Pdx(a), t.value, Ptx(a));
        if Present(h.mem[t.value][Ptx(a)]) {
          ghost var u := FrameOf(h.mem[t.value][Ptx(a)]);
          r := UnmapPage(h, pgdir, t.value, a);
          if r.Panic? {
            return;
          }
          UntouchedFreed(old(h.mem), old(h.owner), m, o, h.mem, u);
          ScanStep(old(h.mem), old(h.free), old(h.owner), m, free, o, h.mem, h.free, h.owner, pgdir, lo, k, u);
        } else {
          ScanSkip(old(h.mem), old(h.free), old(h.owner), m, free, o, pgdir, lo, k, k + 1);
        }
      }
      NextPageAt(a);
      a := NextPage(a);
    }
    PageEnd(a, oldsz);
    return Ok, newsz;
  }

  lemma UntouchedFreed(m0: Memory, owner0: Owners, m: Memory, owner: Owners, m': Memory, u: nat)
    requires Untouched(m0, owner0, m, owner) && Untouched(m, owner, m', owner[u := Free])
    ensures Untouched(m0, owner0, m', owner[u := Free])
  {
  }

  ghost function Clip(k: nat, hi: nat): (c: nat) {
    if k < hi then k else hi
  }

  lemma RoundUpPage(sz: Word, end: Word)
    requires sz < end <= KERNBASE
    ensures PagesBelow(sz) <= PagesBelow(end)
    ensures PgRoundUp(sz) % PGSIZE == 0 && Vpn(PgRoundUp(sz)) == PagesBelow(sz)
  {
  }

  /** a = PGADDR(PDX(a) + 1, 0, 0) - PGSIZE */
  function SkipTable(a: Word): (b: Word) {
    Wrap(PgAddr(Pdx(a) + 1, 0, 0) - PGSIZE)
  }

  /**
    The jump over an absent table lands on the last page of its 4 MB. The scan then goes on
    above a, except from the top 4 MB of the address space, where it starts again at 0.
   */
  lemma JumpTarget(a: Word)
    requires a % PGSIZE == 0
    ensures SkipTable(a) % PGSIZE == 0 && SkipTable(a) >= a
    ensures Vpn(SkipTable(a)) == Vpn(a) / ENTRIES * ENTRIES + ENTRIES - 1
    ensures NextPage(SkipTable(a)) > a <==> Pdx(a) != ENTRIES - 1
    ensures Pdx(a) == ENTRIES - 1 ==> NextPage(SkipTable(a)) == 0
  {
    hide Pdx, Vpn, SkipTable;
    PdxParts(a);
    SkipAddr(a);
    ModUnique(SkipTable(a), 4096, Pdx(a) * 1024 + 1023, 0);
  }

  lemma PdxParts(a: Word)
    requires a % PGSIZE == 0
    ensures Pdx(a) < ENTRIES && Pdx(a) == Vpn(a) / ENTRIES && Pdx(a) * 0x40_0000 <= a <= Pdx(a) * 0x40_0000 + 0x3F_F000
  {
    var q, r := a / 0x40_0000, a % 0x40_0000;
    ModUnique(a, 4096, q * 1024 + r / 4096, r % 4096);
    ModUnique(q * 1024 + r / 4096, 1024, q, r / 4096);
  }

  lemma SkipAddr(a: Word)
    ensures SkipTable(a) == Pdx(a) * 0x40_0000 + 0x3F_F000
    ensures forall b: Word :: Vpn(b) == b / 4096
  {
    var d := Pdx(a);
    if d == ENTRIES - 1 {
      assert PgAddr(d + 1, 0, 0) == 0;
    } else {
      assert PgAddr(d + 1, 0, 0) == (d + 1) * 0x40_0000;
    }
  }

  lemma NextPageAt(a: Word)
    requires a % PGSIZE == 0 && Vpn(a) + 1 < PAGES
    ensures NextPage(a) == a + PGSIZE && NextPage(a) % PGSIZE == 0 && Vpn(NextPage(a)) == Vpn(a) + 1
  {
  }

  lemma PageEnd(a: Word, sz: Word)
    requires a % PGSIZE == 0 && a >= sz
    ensures Vpn(a) >= PagesBelow(sz)
  {
  }

  lemma PageOf(a: Word, sz: Word)
    requires a % PGSIZE == 0 && a < sz <= KERNBASE
    ensures Vpn(a) < PagesBelow(sz) && Vpn(a) < UPAGES
    ensures Vpn(a) == Pdx(a) * ENTRIES + Ptx(a) && Pdx(a) == Vpn(a) / ENTRIES && Ptx(a) < ENTRIES && Pdx(a) < USLOTS
  {
  }

  lemma AbsentSlot(m: Memory, d: nat, k: nat, k': nat)
    requires !Present(Entry(m, d, k / ENTRIES)) && k' <= k / ENTRIES * ENTRIES + ENTRIES
    ensures forall v: nat | k <= v < k' :: Lookup(m, d, v).None?
  {
    forall v: nat | k <= v < k' ensures Lookup(m, d, v).None? {
      assert v / ENTRIES == k / ENTRIES;
    }
  }

  lemma ScanFacts(m0: Memory, free0: seq<nat>, owner0: Owners, m: Memory, free: seq<nat>, owner: Owners,
                  d: nat, lo: nat, k: nat)
    requires ScanDone(m0, free0, owner0, m, free, owner, d, lo, k) && IsDir(owner0, d)
    ensures Lookup(m, d, k) == Lookup(m0, d, k) && Entry(m, d, k / ENTRIES) == Entry(m0, d, k / ENTRIES)
    ensures forall e: nat :: IsDir(owner, e) <==> IsDir(owner0, e)
    ensures forall f: nat | f in owner && owner[f].Page? :: f in owner0 && owner0[f] == owner[f]
  {
    hide Lookup;
  }

  /** The tables of directory d in entries [0, n), the last one on top. */
  ghost function TableStack(m: Memory, d: nat, n: nat): (s: seq<nat>) {
    if n == 0 then []
    else (if Present(Entry(m, d, n - 1)) then [FrameOf(Entry(m, d, n - 1))] else []) + TableStack(m, d, n - 1)
  }

  /** The owners while freevm frees tables: entries below i are free, the rest of d is in its hands. */
  ghost function TablesFreed(owner: Owners, d: nat, i: nat): (r: Owners)
    ensures r.Keys == owner.Keys
  {
    map f | f in owner ::
      if owner[f].Table? && owner[f].dir == d then (if owner[f].slot < i then Free else Held)
      else if f == d then Held
      else owner[f]
  }

  /** The owners without directory d: everything that belonged to it is free. */
  ghost function Dissolved(owner: Owners, d: nat): (r: Owners)
    ensures r.Keys == owner.Keys
  {
    map f | f in owner :: if BelongsTo(f, owner[f], d) then Free else owner[f]
  }

  ghost predicate BelongsTo(f: nat, o: Owner, d: nat) {
    f == d || (o.Table? && o.dir == d) || (o.Page? && o.dir == d)
  }

  lemma DetachFree(free: seq<nat>, owner: Owners, d: nat)
    requires FreeExactly(free, owner) && IsDir(owner, d)
    ensures FreeExactly(free, Detached(owner, d)) && Detached(owner, d) == TablesFreed(owner, d, 0)
  {
  }

  lemma TablesFreedDirs(owner: Owners, d: nat, i: nat)
    requires IsDir(owner, d)
    ensures TablesFreed(owner, d, i)[d].Held?
    ensures forall e: nat :: IsDir(TablesFreed(owner, d, i), e) <==> IsDir(owner, e) && e != d
  {
  }

  lemma Concat4(a: seq<nat>, b: seq<nat>, c: seq<nat>, d: seq<nat>)
    ensures a + (b + (c + d)) == a + b + c + d
  {
  }

  lemma TablesFreedNext(m: Memory, owner: Owners, d: nat, i: nat)
    requires Linked(m, owner) && IsDir(owner, d) && i < ENTRIES
    ensures Present(Entry(m, d, i)) ==>
              var t := FrameOf(Entry(m, d, i));
              && IsTable(owner, t, d, i) && t != d && TablesFreed(owner, d, i)[t].Held?
              && TablesFreed(owner, d, i + 1) == TablesFreed(owner, d, i)[t := Free]
    ensures !Present(Entry(m, d, i)) ==> TablesFreed(owner, d, i + 1) == TablesFreed(owner, d, i)
  {
    hide Lookup;
    forall f: nat | f in owner && owner[f] == Table(d, i)
      ensures Present(Entry(m, d, i)) && f == FrameOf(Entry(m, d, i))
    {
      assert TableLinked(m, owner, f, d, i);
    }
    if Present(Entry(m, d, i)) {
      WalkStep(m, owner, d, i);
    }
  }

  /** kfree on a frame the caller holds. */
  method FreeHeld(h: Heap, f: nat) returns (r: Status)
    requires Good(h) && f in h.owner && h.owner[f].Held?
    modifies h`mem, h`freelist, h`free, h`owner
    ensures Good(h) && r.Ok?
    ensures h.free == [f] + old(h.free) && h.owner == old(h.owner)[f := Free]
    ensures OnlyFrame(old(h.mem), h.mem, f)
    ensures forall e: nat, v: nat | IsDir(h.owner, e) :: Lookup(h.mem, e, v) == Lookup(old(h.mem), e, v)
  {
    hide Chain, FreeExactly, Lookup, Linked;
    HeapFrame(h.kheapStart, h.kheapEnd, f);
    r := h.Kfree(P2V(f * PGSIZE));
    LinkedFrames(old(h.mem), old(h.owner));
    OtherFrame(old(h.mem), old(h.owner), h.mem, h.owner, f);
  }

  /** Freeing tables of directory d keeps d itself, the frames in use and every other translation. */
  ghost predicate Kept(m: Memory, owner: Owners, m': Memory, d: nat) {
    && (forall i: nat :: Entry(m', d, i) == Entry(m, d, i))
    && (forall f: nat | f in owner && f < PAGES && InUse(owner[f]) :: m'[f] == m[f])
    && (forall e: nat, v: nat | IsDir(owner, e) && e != d :: Lookup(m', e, v) == Lookup(m, e, v))
  }

  lemma KeptStart(m: Memory, owner: Owners, d: nat)
    ensures Kept(m, owner, m, d)
  {
  }

  lemma KeptEntry(m: Memory, owner: Owners, m': Memory, d: nat, i: nat)
    requires Kept(m, owner, m', d)
    ensures Entry(m', d, i) == Entry(m, d, i)
  {
  }

  lemma KeptStep(m0: Memory, owner: Owners, m: Memory, m': Memory, d: nat, i: nat, t: nat)
    requires Kept(m0, owner, m, d) && IsDir(owner, d)
    requires IsTable(owner, t, d, i) && t != d && OnlyFrame(m, m', t)
    requires forall e: nat, v: nat | IsDir(TablesFreed(owner, d, i + 1), e) :: Lookup(m', e, v) == Lookup(m, e, v)
    ensures Kept(m0, owner, m', d)
  {
    hide Lookup, TablesFreed;
    TablesFreedDirs(owner, d, i + 1);
  }

  /** The state of freevm's loop before entry i, from the state m, free, owner in which it took the directory apart. */
  ghost predicate LoopAt(h: Heap, m: Memory, free: seq<nat>, owner: Owners, pgdir: nat, i: nat)
    reads h
  {
    && Good(h) && h.owner == TablesFreed(owner, pgdir, i)
    && h.free == TableStack(m, pgdir, i) + free
    && Kept(m, owner, h.mem, pgdir)
  }

  /** One round of that loop. */
  method FreeEntry(h: Heap, pgdir: nat, i: nat, ghost m: Memory, ghost free: seq<nat>, ghost owner: Owners)
    returns (r: Status)
    requires LoopAt(h, m, free, owner, pgdir, i) && i < ENTRIES && pgdir < UPAGES
    requires Linked(m, owner) && IsDir(owner, pgdir)
    modifies h`mem, h`freelist, h`free, h`owner
    ensures r.Ok? && LoopAt(h, m, free, owner, pgdir, i + 1)
  {
    hide Chain, FreeExactly, Lookup, Linked, TableStack, TablesFreed, Kept;
    TablesFreedNext(m, owner, pgdir, i);
    KeptEntry(m, owner, h.mem, pgdir, i);
    TableStackNext(m, pgdir, i, free);
    ghost var before := h.mem;
    if Present(h.mem[pgdir][i]) {
      r := FreeHeld(h, FrameOf(h.mem[pgdir][i]));
      KeptStep(m, owner, before, h.mem, pgdir, i, FrameOf(before[pgdir][i]));
    }
    r := Ok;
  }

  /** The second half of freevm: with no user page left, every table of the directory is freed. */
  method FreeTables(h: Heap, pgdir: nat) returns (r: Status)
    requires Good(h) && IsDir(h.owner, pgdir)
    requires forall v: nat | v < UPAGES :: Lookup(h.mem, pgdir, v).None?
    modifies h`mem, h`freelist, h`free, h`owner
    ensures Good(h) && r.Ok?
    ensures h.free == TableStack(old(h.mem), pgdir, ENTRIES) + old(h.free)
    ensures h.owner == TablesFreed(old(h.owner), pgdir, ENTRIES)
    ensures Kept(old(h.mem), old(h.owner), h.mem, pgdir)
  {
    hide Chain, FreeExactly, Lookup, Linked, TableStack, Detached, TablesFreed, Kept;
    ghost var m, free, owner := h.mem, h.free, h.owner;
    Detach(m, owner, pgdir);
    DetachFree(free, owner, pgdir);
    LinkedFrames(m, owner);
    h.owner := Detached(owner, pgdir);
    KeptStart(m, owner, pgdir);
    TableStackNext(m, pgdir, 0, free);
    var i := 0;
    while i < ENTRIES
      invariant 0 <= i <= ENTRIES && LoopAt(h, m, free, owner, pgdir, i)
    {
      r := FreeEntry(h, pgdir, i, m, free, owner);
      if r.Panic? {
        return;
      }
      i := i + 1;
    }
    return Ok;
  }

  /** Frees the user pages, the page tables and the directory. */
  method Freevm(h: Heap, pgdir: nat) returns (r: Status)
    requires Good(h) && (pgdir != 0 ==> IsDir(h.owner, pgdir))
    modifies h`mem, h`freelist, h`free, h`owner
    ensures Good(h) && !r.Fail? && (r.Panic? <==> pgdir == 0)
    ensures r.Ok? ==>
              && h.free == [pgdir] + TableStack(old(h.mem), pgdir, ENTRIES)
                           + FreedStack(old(h.mem), pgdir, 0, UPAGES) + old(h.free)
              && h.owner == Dissolved(old(h.owner), pgdir)
    ensures r.Ok? ==> forall e: nat, v: nat | IsDir(h.owner, e) :: Lookup(h.mem, e, v) == Lookup(old(h.mem), e, v)
    ensures Untouched(old(h.mem), old(h.owner), h.mem, h.owner)
  {
    hide Chain, FreeExactly, Lookup, Linked, ScanDone, FreedStack, TableStack, Detached, TablesFreed, Dissolved,
      Untouched;
    UntouchedStart(h.mem, h.owner);
    if pgdir == 0 {
      return Panic("freevm: no pgdir");
    }
    var sz;
    r, sz := Deallocuvm(h, pgdir, KERNBASE, 0);
    if r.Panic? {
      return;
    }
    ghost var m1, free1, owner1 := h.mem, h.free, h.owner;
    ScanAll(old(h.mem), old(h.free), old(h.owner), m1, free1, owner1, pgdir);
    r := FreeTables(h, pgdir);
    if r.Panic? {
      return;
    }
    TablesFreedDirs(owner1, pgdir, ENTRIES);
    r := FreeHeld(h, pgdir);
    DissolvedAll(old(h.mem), old(h.owner), pgdir);
    UntouchedDissolved(old(h.mem), old(h.owner), m1, h.mem, pgdir);
    TableStackSame(old(h.mem), m1, pgdir, ENTRIES);
    Concat4([pgdir], TableStack(m1, pgdir, ENTRIES), FreedStack(old(h.mem), pgdir, 0, UPAGES), old(h.free));
  }

  lemma UntouchedDissolved(m0: Memory, owner0: Owners, m: Memory, m': Memory, d: nat)
    requires Untouched(m0, owner0, m, Released(owner0, d, 0, UPAGES))
    requires forall f: nat | f in owner0 && f < PAGES && InUse(Released(owner0, d, 0, UPAGES)[f]) && f != d ::
               m'[f] == m[f]
    ensures Untouched(m0, owner0, m', Dissolved(owner0, d))
  {
  }

  /** What the full scan of the user half leaves behind. */
  lemma ScanAll(m0: Memory, free0: seq<nat>, owner0: Owners, m: Memory, free: seq<nat>, owner: Owners, d: nat)
    requires ScanDone(m0, free0, owner0, m, free, owner, d, PagesBelow(0), PagesBelow(KERNBASE))
    requires IsDir(owner0, d)
    ensures forall v: nat | v < UPAGES :: Lookup(m, d, v).None?
    ensures forall e: nat, v: nat | IsDir(owner0, e) && e != d :: Lookup(m, e, v) == Lookup(m0, e, v)
    ensures forall e: nat :: IsDir(owner, e) <==> IsDir(owner0, e)
    ensures forall i: nat :: Entry(m, d, i) == Entry(m0, d, i)
    ensures free == FreedStack(m0, d, 0, UPAGES) + free0 && owner == Released(owner0, d, 0, UPAGES)
  {
    hide Lookup, FreedStack;
  }

  lemma {:induction false} TableStackSame(m: Memory, m': Memory, d: nat, n: nat)
    requires forall i: nat :: Entry(m', d, i) == Entry(m, d, i)
    ensures TableStack(m', d, n) == TableStack(m, d, n)
  {
    if n > 0 {
      TableStackSame(m, m', d, n - 1);
    }
  }

  lemma TableStackNext(m: Memory, d: nat, i: nat, free: seq<nat>)
    ensures TableStack(m, d, 0) + free == free
    ensures TableStack(m, d, i + 1) + free ==
            (if Present(Entry(m, d, i)) then [FrameOf(Entry(m, d, i))] else []) + (TableStack(m, d, i) + free)
  {
  }

  lemma DissolvedAll(m: Memory, owner: Owners, d: nat)
    requires Linked(m, owner) && IsDir(owner, d)
    ensures d in TablesFreed(Released(owner, d, 0, UPAGES), d, ENTRIES)
    ensures TablesFreed(Released(owner, d, 0, UPAGES), d, ENTRIES)[d := Free] == Dissolved(owner, d)
    ensures forall e: nat :: IsDir(Dissolved(owner, d), e) <==> IsDir(owner, e) && e != d
  {
    hide Lookup;
    forall f: nat | f in owner && owner[f].Table? ensures owner[f].slot < ENTRIES {
      assert TableLinked(m, owner, f, owner[f].dir, owner[f].slot);
    }
    forall f: nat | f in owner && owner[f].Page? ensures owner[f].vpn < UPAGES {
      assert PageLinked(m, owner, f, owner[f].dir, owner[f].vpn);
    }
  }
}

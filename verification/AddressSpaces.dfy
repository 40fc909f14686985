/** setupkvm and inituvm of kernel/paging.c, and the life cycle of address spaces. */
module AddressSpaces {
  import opened Layout
  import opened Kalloc
  import opened PageTables
  import opened Mapping
  import opened Unmapping
  import opened Bytes

  /** What pmem_init found: the end of RAM and the ACPI region. */
  datatype Platform = Platform(physEnd: Word, acpi: Word, acpiLen: Word)

  /** RAM and the ACPI region are non-empty and reachable through the kernel's 2 GB window. */
  ghost predicate Wired(c: Platform) {
    && 0 < c.physEnd <= KERNBASE
    && 0 < c.acpiLen && c.acpi + c.acpiLen <= KERNBASE
  }

  // The three ranges setupkvm maps, in order: RAM, ACPI, devices.

  ghost function RangeVa(c: Platform, j: nat): (va: Word) {
    if j == 0 then KERNBASE else if j == 1 then P2V(c.acpi) else DEVSPACE
  }
  ghost function RangeSize(c: Platform, j: nat): (size: Word) {
    if j == 0 then c.physEnd else if j == 1 then c.acpiLen else DEVSIZE
  }
  ghost function RangePa(c: Platform, j: nat): (pa: Word) {
    if j == 0 then 0 else if j == 1 then c.acpi else DEVSPACE
  }
  ghost function RangeLen(c: Platform, j: nat): (n: nat) {
    RangePages(RangeVa(c, j), RangeSize(c, j))
  }

  ghost predicate InRange(c: Platform, j: nat, v: nat) {
    VpnIndex(RangeVa(c, j), v) < RangeLen(c, j)
  }

  /** The entry the first j ranges give page v. */
  ghost function KernelEntry(c: Platform, v: nat, j: nat): (r: Option<Word>) {
    if j == 0 then None
    else if InRange(c, j - 1, v) then Some(MakePte(PaAt(RangePa(c, j - 1), VpnIndex(RangeVa(c, j - 1), v)), PTE_W))
    else KernelEntry(c, v, j - 1)
  }

  /** The directory entries the first n pages from va on fall under. */
  ghost function Slots(va: Word, n: nat): (s: set<nat>) {
    if n == 0 then {} else Slots(va, n - 1) + {VpnAt(va, n - 1) / ENTRIES}
  }

  /** The directory entries the first j ranges fall under. */
  ghost function KernelSlots(c: Platform, j: nat): (s: set<nat>) {
    if j == 0 then {} else KernelSlots(c, j - 1) + Slots(RangeVa(c, j - 1), RangeLen(c, j - 1))
  }

  /** No page lies in two of the first j ranges. */
  ghost predicate Apart(c: Platform, j: nat) {
    forall a: nat, b: nat, v: nat | a < b < j && v < PAGES :: !(InRange(c, a, v) && InRange(c, b, v))
  }

  lemma KernelRange(c: Platform, j: nat)
    requires Wired(c)
    ensures forall k: nat | k < RangeLen(c, j) :: VpnAt(RangeVa(c, j), k) >= UPAGES
    ensures forall v: nat | v < UPAGES :: !InRange(c, j, v)
  {
    var va, size := RangeVa(c, j), RangeSize(c, j);
    assert va >= KERNBASE && size > 0 && va + size <= WORDS;
    HighRange(va, size);
  }

  lemma HighRange(va: Word, size: Word)
    requires va >= KERNBASE && size > 0 && va + size <= WORDS
    ensures forall k: nat | k < RangePages(va, size) :: VpnAt(va, k) >= UPAGES
    ensures forall v: nat | v < UPAGES :: VpnIndex(va, v) >= RangePages(va, size)
  {
    assert Wrap(va + size - 1) == va + size - 1;
  }

  lemma {:induction false} NeededSlots(m: Memory, d: nat, va: Word, n: nat)
    ensures forall i: nat :: i in Needed(m, d, va, n) <==> i in Slots(va, n) && !Present(Entry(m, d, i))
  {
    if n > 0 {
      NeededSlots(m, d, va, n - 1);
    }
  }

  /** Only free frames changed hands: d became a directory, others its tables. */
  ghost predicate SpaceOwners(owner0: Owners, owner: Owners, d: nat) {
    && owner.Keys == owner0.Keys && IsDir(owner, d) && owner0[d].Free?
    && (forall f: nat | f in owner0 && f != d ::
          owner[f] == owner0[f] || (owner0[f].Free? && owner[f].Table? && owner[f].dir == d))
  }

  /** Directory d maps exactly the first j ranges, and the free list has paid for exactly its tables. */
  ghost predicate Stage(m0: Memory, free0: seq<nat>, owner0: Owners, m: Memory, free: seq<nat>, owner: Owners,
                        d: nat, c: Platform, j: nat)
  {
    && 1 + |KernelSlots(c, j)| <= |free0| && free == free0[1 + |KernelSlots(c, j)|..]
    && (forall i: nat :: Present(Entry(m, d, i)) <==> i in KernelSlots(c, j))
    && (forall v: nat | v < PAGES :: Lookup(m, d, v) == KernelEntry(c, v, j))
    && (forall e: nat, v: nat | IsDir(owner0, e) && v < PAGES :: Lookup(m, e, v) == Lookup(m0, e, v))
    && SpaceOwners(owner0, owner, d)
    && Untouched(m0, owner0, m, owner)
    && Apart(c, j)
  }

  lemma {:induction false} KernelEntryNone(c: Platform, v: nat, j: nat)
    ensures KernelEntry(c, v, j).None? <==> forall a: nat | a < j :: !InRange(c, a, v)
  {
    hide InRange, MakePte;
    if j > 0 {
      KernelEntryNone(c, v, j - 1);
    }
  }

  /** A range adds no overlap exactly when none of its pages is mapped yet. */
  lemma ApartStep(c: Platform, j: nat, m: Memory, d: nat)
    requires Apart(c, j) && (forall v: nat | v < PAGES :: Lookup(m, d, v) == KernelEntry(c, v, j))
    ensures NoneMapped(m, d, RangeVa(c, j), RangeLen(c, j)) <==> Apart(c, j + 1)
  {
    hide Lookup, KernelEntry, VpnAt, VpnIndex, RangePages;
    var va, n := RangeVa(c, j), RangeLen(c, j);
    forall v: nat | v < PAGES ensures KernelEntry(c, v, j).None? <==> forall a: nat | a < j :: !InRange(c, a, v) {
      KernelEntryNone(c, v, j);
    }
    if NoneMapped(m, d, va, n) {
      forall v: nat | v < PAGES && InRange(c, j, v) ensures KernelEntry(c, v, j).None? {
        VpnIndexInverse(va, v);
        assert Lookup(m, d, VpnAt(va, VpnIndex(va, v))).None?;
      }
    }
    if Apart(c, j + 1) {
      forall k: nat | k < n ensures Lookup(m, d, VpnAt(va, k)).None? {
        VpnIndexAt(va, k);
        assert InRange(c, j, VpnAt(va, k));
        assert KernelEntry(c, VpnAt(va, k), j).None?;
      }
    }
  }

  lemma {:induction false} ApartMono(c: Platform, j: nat, n: nat)
    requires j <= n
    ensures Apart(c, n) ==> Apart(c, j)
    ensures |KernelSlots(c, j)| <= |KernelSlots(c, n)|
  {
    hide Slots, InRange;
    if j < n {
      ApartMono(c, j, n - 1);
      SubsetSize(KernelSlots(c, n - 1), KernelSlots(c, n));
    }
  }

  /** The tables a range needs are those of its entries that the earlier ranges do not fall under. */
  lemma SlotsStep(c: Platform, j: nat, m: Memory, d: nat)
    requires forall i: nat :: Present(Entry(m, d, i)) <==> i in KernelSlots(c, j)
    ensures var s := Needed(m, d, RangeVa(c, j), RangeLen(c, j));
            KernelSlots(c, j + 1) == KernelSlots(c, j) + s && KernelSlots(c, j) !! s
            && |KernelSlots(c, j + 1)| == |KernelSlots(c, j)| + |s|
  {
    hide Needed, Slots;
    var s := Needed(m, d, RangeVa(c, j), RangeLen(c, j));
    NeededSlots(m, d, RangeVa(c, j), RangeLen(c, j));
    assert KernelSlots(c, j + 1) == KernelSlots(c, j) + s;
  }

  lemma GrownSpace(c: Platform, j: nat, owner0: Owners, owner: Owners, owner': Owners, d: nat, n: nat)
    requires Wired(c) && n <= RangeLen(c, j) && SpaceOwners(owner0, owner, d)
    requires OwnersGrown(owner, owner', d, RangeVa(c, j), n, RangePa(c, j))
    ensures SpaceOwners(owner0, owner', d)
  {
    hide VpnAt, FrameIndex, RangePages, RangeVa, RangePa;
    KernelRange(c, j);
    forall f: nat | f in owner && owner[f].Held? ensures owner'[f].Held? {
      var k := FrameIndex(RangePa(c, j), f);
      assert OwnerGrown(owner[f], owner'[f], d, RangeVa(c, j), n, k);
    }
  }

  /** After range j the directory translates like its first j + 1 ranges, and the others as before. */
  lemma StageLookups(m0: Memory, owner0: Owners, m: Memory, owner: Owners, m': Memory, d: nat, c: Platform, j: nat)
    requires SpaceOwners(owner0, owner, d) && !IsDir(owner0, d)
    requires forall v: nat | v < PAGES :: Lookup(m, d, v) == KernelEntry(c, v, j)
    requires forall e: nat, v: nat | IsDir(owner0, e) && v < PAGES :: Lookup(m, e, v) == Lookup(m0, e, v)
    requires Overridden(m, m', owner, d, RangeVa(c, j), RangeLen(c, j), RangePa(c, j), PTE_W)
    ensures forall v: nat | v < PAGES :: Lookup(m', d, v) == KernelEntry(c, v, j + 1)
    ensures forall e: nat, v: nat | IsDir(owner0, e) && v < PAGES :: Lookup(m', e, v) == Lookup(m0, e, v)
  {
    hide Lookup, MakePte, VpnIndex, RangePages, PaAt, RangeVa, RangePa;
  }

  lemma UntouchedSpace(m0: Memory, owner0: Owners, m: Memory, owner: Owners, m': Memory, owner': Owners, d: nat)
    requires SpaceOwners(owner0, owner, d) && Untouched(m0, owner0, m, owner) && Untouched(m, owner, m', owner')
    ensures Untouched(m0, owner0, m', owner')
  {
  }

  lemma StageStep(m0: Memory, free0: seq<nat>, owner0: Owners, m: Memory, free: seq<nat>, owner: Owners,
                  m': Memory, free': seq<nat>, owner': Owners, d: nat, c: Platform, j: nat)
    requires Wired(c) && Stage(m0, free0, owner0, m, free, owner, d, c, j)
    requires RangeDone(m, free, owner, m', free', owner', d, RangeVa(c, j), RangeLen(c, j), RangePa(c, j), PTE_W)
    requires NoneMapped(m, d, RangeVa(c, j), RangeLen(c, j)) && Untouched(m, owner, m', owner')
    ensures Stage(m0, free0, owner0, m', free', owner', d, c, j + 1)
  {
    hide Lookup, Needed, Slots, NoneMapped, Apart, Overridden, OwnersGrown, Untouched, KernelEntry, RangeVa,
      RangeLen, RangePa;
    ApartStep(c, j, m, d);
    SlotsStep(c, j, m, d);
    GrownSpace(c, j, owner0, owner, owner', d, RangeLen(c, j));
    StageLookups(m0, owner0, m, owner, m', d, c, j);
    UntouchedSpace(m0, owner0, m, owner, m', owner', d);
  }

  /** When a range cannot be mapped, no outcome of the remaining ones could have made setupkvm succeed. */
  lemma StageFail(m0: Memory, free0: seq<nat>, owner0: Owners, m: Memory, free: seq<nat>, owner: Owners,
                  d: nat, c: Platform, j: nat)
    requires j < 3 && Stage(m0, free0, owner0, m, free, owner, d, c, j)
    requires !NoneMapped(m, d, RangeVa(c, j), RangeLen(c, j)) || |Needed(m, d, RangeVa(c, j), RangeLen(c, j))| > |free|
    ensures !(Apart(c, 3) && 1 + |KernelSlots(c, 3)| <= |free0|)
  {
    hide Lookup, Needed, Slots, VpnAt, VpnIndex, RangePages, NoneMapped, Apart;
    ApartStep(c, j, m, d);
    SlotsStep(c, j, m, d);
    ApartMono(c, j + 1, 3);
  }

  lemma StageStart(m0: Memory, free0: seq<nat>, owner0: Owners, m: Memory, c: Platform)
    requires free0 != [] && Linked(m0, owner0) && free0[0] in owner0 && owner0[free0[0]].Free?
    requires OnlyFrame(m0, m, free0[0]) && m[free0[0]] == Filled(0)
    ensures Linked(m, owner0[free0[0] := Dir])
    ensures Stage(m0, free0, owner0, m, free0[1..], owner0[free0[0] := Dir], free0[0], c, 0)
  {
    var d := free0[0];
    OtherFrame(m0, owner0, m, owner0, d);
    NewDir(m, owner0, d);
    hide Lookup;
  }

  /** An all-zero frame is a directory that maps nothing. */
  lemma NewDir(m: Memory, owner: Owners, d: nat)
    requires Linked(m, owner) && d in owner && !Structural(owner[d]) && m[d] == Filled(0)
    ensures Linked(m, owner[d := Dir])
    ensures forall v: nat :: Lookup(m, d, v).None?
    ensures forall i: nat :: !Present(Entry(m, d, i))
  {
    var owner' := owner[d := Dir];
    forall u: nat | u in owner' && owner'[u].Page? ensures PageLinked(m, owner', u, owner'[u].dir, owner'[u].vpn) {
      assert PageLinked(m, owner, u, owner[u].dir, owner[u].vpn);
    }
    forall t: nat | t in owner' && owner'[t].Table? ensures TableLinked(m, owner', t, owner'[t].dir, owner'[t].slot) {
      assert TableLinked(m, owner, t, owner[t].dir, owner[t].slot);
    }
  }

  /** Taking the new directory apart again gives every frame back to its owner. */
  lemma Undo(m0: Memory, owner0: Owners, owner: Owners, d: nat)
    requires Linked(m0, owner0) && SpaceOwners(owner0, owner, d)
    ensures Dissolved(owner, d) == owner0
  {
    hide Lookup;
    forall f: nat | f in owner0 && owner0[f].Table? ensures owner0[f].dir != d {
      assert TableLinked(m0, owner0, f, owner0[f].dir, owner0[f].slot);
    }
    forall f: nat | f in owner0 && owner0[f].Page? ensures owner0[f].dir != d {
      assert PageLinked(m0, owner0, f, owner0[f].dir, owner0[f].vpn);
    }
  }

  /** One of the three mappages calls of setupkvm. */
  method MapRange(h: Heap, pgdir: nat, va: Word, size: Word, pa: Word, ghost m0: Memory, ghost free0: seq<nat>,
                  ghost owner0: Owners, ghost c: Platform, ghost j: nat)
    returns (r: Status)
    requires Good(h) && Wired(c) && j < 3 && Stage(m0, free0, owner0, h.mem, h.free, h.owner, pgdir, c, j)
    requires va == RangeVa(c, j) && size == RangeSize(c, j) && pa == RangePa(c, j)
    modifies h`mem, h`freelist, h`free, h`owner
    ensures Good(h) && SpaceOwners(owner0, h.owner, pgdir)
    ensures r.Ok? ==> Stage(m0, free0, owner0, h.mem, h.free, h.owner, pgdir, c, j + 1)
    ensures !r.Ok? ==> !(Apart(c, 3) && 1 + |KernelSlots(c, 3)| <= |free0|)
    ensures r.Panic? ==> r.message == "remap"
  {
    hide Chain, FreeExactly, Linked, Lookup, Stage, Needed, NoneMapped, Apart, KernelSlots, Overridden, TablesTaken,
      OwnersGrown, SpaceOwners, RangeVa, RangeSize, RangePa, VpnAt, PaAt, RangePages;
    ghost var m, free, owner := h.mem, h.free, h.owner;
    KernelRange(c, j);
    StageSpace(m0, free0, owner0, m, free, owner, pgdir, c, j);
    ghost var done;
    r, done := Mappages(h, pgdir, va, size, pa, PTE_W);
    GrownSpace(c, j, owner0, owner, h.owner, pgdir, done);
    if r.Ok? {
      StageStep(m0, free0, owner0, m, free, owner, h.mem, h.free, h.owner, pgdir, c, j);
    } else {
      StageFail(m0, free0, owner0, m, free, owner, pgdir, c, j);
    }
  }

  lemma StageSpace(m0: Memory, free0: seq<nat>, owner0: Owners, m: Memory, free: seq<nat>, owner: Owners,
                   d: nat, c: Platform, j: nat)
    requires Stage(m0, free0, owner0, m, free, owner, d, c, j)
    ensures SpaceOwners(owner0, owner, d) && IsDir(owner, d)
    ensures 1 + |KernelSlots(c, j)| <= |free0| && Apart(c, j)
  {
  }

  /** A new directory that maps exactly RAM, the ACPI region and the devices, or a panic. */
  method Setupkvm(h: Heap, c: Platform) returns (r: Status, pgdir: nat)
    requires Good(h) && Wired(c)
    modifies h`mem, h`freelist, h`free, h`owner
    ensures Good(h) && !r.Fail?
    ensures r.Ok? <==> Apart(c, 3) && 1 + |KernelSlots(c, 3)| <= |old(h.free)|
    ensures r.Ok? ==> pgdir == old(h.free)[0] && 0 < pgdir < UPAGES
                      && Stage(old(h.mem), old(h.free), old(h.owner), h.mem, h.free, h.owner, pgdir, c, 3)
    ensures r == Panic("mappages") ==> h.owner == old(h.owner)
  {
    hide Chain, FreeExactly, Linked, Lookup, Stage, Apart, KernelSlots, Dissolved, SpaceOwners;
    ghost var m0, free0, owner0 := h.mem, h.free, h.owner;
    var v := h.Kalloc();
    if v == 0 {
      return Panic("kalloc"), 0;
    }
    pgdir := PtrFrame(v);
    HeapFrame(h.kheapStart, h.kheapEnd, pgdir);
    h.Clear(pgdir);
    StageStart(m0, free0, owner0, h.mem, c);
    h.owner := owner0[pgdir := Dir];
    OwnerChange(h.free, owner0[pgdir := Held], h.owner, pgdir);
    r := MapRange(h, pgdir, KERNBASE, c.physEnd, 0, m0, free0, owner0, c, 0);
    if r.Ok? {
      r := MapRange(h, pgdir, P2V(c.acpi), c.acpiLen, c.acpi, m0, free0, owner0, c, 1);
    }
    if r.Ok? {
      r := MapRange(h, pgdir, DEVSPACE, DEVSIZE, DEVSPACE, m0, free0, owner0, c, 2);
    }
    if r.Fail? {
      SpaceDir(owner0, h.owner, pgdir);
      Undo(m0, owner0, h.owner, pgdir);
      r := Freevm(h, pgdir);
      return Panic("mappages"), pgdir;
    }
    if r.Ok? {
      StageSpace(m0, free0, owner0, h.mem, h.free, h.owner, pgdir, c, 3);
    }
  }

  lemma SpaceDir(owner0: Owners, owner: Owners, d: nat)
    requires SpaceOwners(owner0, owner, d)
    ensures IsDir(owner, d)
  {
  }

  /** The user page holds the image followed by zeros. */
  ghost predicate Holds(f: Frame, init: seq<Byte>) {
    forall i: nat | i < PGSIZE :: ByteAt(f, i) == if i < |init| then init[i] else 0
  }

  /** memmove(mem, init, sz) into a zeroed frame: the two regions are disjoint, so the copy ascends. */
  method CopyImage(h: Heap, u: nat, init: seq<Byte>)
    requires Good(h) && u in h.owner && u < PAGES && (h.owner[u].Held? || h.owner[u].Page?)
    requires |init| <= PGSIZE && h.mem[u] == Filled(0)
    modifies h`mem
    ensures Good(h) && OnlyFrame(old(h.mem), h.mem, u) && Holds(h.mem[u], init)
    ensures forall e: nat, v: nat | IsDir(h.owner, e) :: Lookup(h.mem, e, v) == Lookup(old(h.mem), e, v)
  {
    hide Chain, FreeExactly, Linked, Lookup, ByteAt, Poked, SetByte;
    LinkedFrames(h.mem, h.owner);
    ZeroBytes();
    var i := 0;
    while i < |init|
      invariant 0 <= i <= |init|
      invariant h.Valid() && OnlyFrame(old(h.mem), h.mem, u)
      invariant Holds(h.mem[u], init[..i])
    {
      ghost var f := h.mem[u];
      h.Store(u, i / 4, SetByte(h.mem[u][i / 4], i % 4, init[i]));
      StoredWord(f, h.mem[u], i, init);
      i := i + 1;
    }
    assert init[..i] == init;
    OtherFrame(old(h.mem), h.owner, h.mem, h.owner, u);
  }

  lemma ZeroBytes()
    ensures Holds(Filled(0), [])
  {
    forall i: nat | i < PGSIZE ensures ByteAt(Filled(0), i) == 0 {
      assert ByteOf(0, 1) == 0 && ByteOf(0, 2) == 0 && ByteOf(0, 3) == 0;
    }
  }

  lemma StoredWord(f: Frame, f': Frame, i: nat, init: seq<Byte>)
    requires i < |init| <= PGSIZE && Holds(f, init[..i])
    requires f' == f[i / 4 := SetByte(f[i / 4], i % 4, init[i])]
    ensures Holds(f', init[..i + 1])
  {
    hide ByteAt, SetByte;
    forall j: nat | j < PGSIZE ensures ByteAt(f', j) == if j < i + 1 then init[..i + 1][j] else 0 {
      SetByteAt(f, i, init[i], j);
    }
  }

  /** The page at address 0, if inituvm found a frame for it and for its table. */
  ghost predicate UserPage(m: Memory, owner: Owners, pgdir: nat, u: nat, init: seq<Byte>) {
    && u < UPAGES && Lookup(m, pgdir, 0) == Some(u * PGSIZE + 7)
    && IsPage(owner, u, pgdir, 0) && Holds(m[u], init)
  }

  /** Page 0 alone, as a range. */
  lemma PageZero(u: nat, owner: Owners)
    requires 0 < u < UPAGES && u in owner && owner[u].Held?
    ensures RangePages(0, PGSIZE) == 1 && V2P(Ptr(u)) == u * PGSIZE
    ensures VpnAt(0, 0) == 0 && (forall v: nat | v < PAGES :: VpnIndex(0, v) == v)
    ensures Or(PTE_W, PTE_U) == 6 && MakePte(PaAt(u * PGSIZE, 0), 6) == u * PGSIZE + 7
    ensures MayMap(owner, VpnAt(0, 0), PaAt(u * PGSIZE, 0), 6)
    ensures forall f: nat | f < PAGES :: FrameIndex(u * PGSIZE, f) == 0 <==> f == u
  {
    assert Or(2, 4) == 6 && Or(6, 1) == 7;
    MakePteDecodes(u * PGSIZE, 6);
    hide MakePte, Or;
  }

  /** Only page 0 of directory d changed, and only free frames and frame u changed hands. */
  ghost predicate PageZeroOnly(m0: Memory, owner0: Owners, m: Memory, owner: Owners, d: nat, u: nat) {
    && owner.Keys == owner0.Keys && (forall e: nat :: IsDir(owner, e) <==> IsDir(owner0, e))
    && (forall e: nat, v: nat | IsDir(owner0, e) && v < PAGES && (e != d || v != 0) ::
        Lookup(m, e, v) == Lookup(m0, e, v))
    && (forall f: nat | f in owner && owner[f] != owner0[f] ::
          if f == u then owner[f].Held? || BelongsTo(f, owner[f], d)
          else owner0[f].Free? && owner[f].Table? && owner[f].dir == d)
    && (forall f: nat | f in owner0 && f < PAGES && f != u && InUse(owner0[f]) :: m[f] == m0[f])
  }

  lemma PageZeroOnlyTrans(m0: Memory, owner0: Owners, m1: Memory, owner1: Owners, m: Memory, owner: Owners, d: nat,
                          u: nat)
    requires PageZeroOnly(m0, owner0, m1, owner1, d, u) && PageZeroOnly(m1, owner1, m, owner, d, u)
    ensures PageZeroOnly(m0, owner0, m, owner, d, u)
  {
    hide Lookup;
  }

  /** What the one-page mappages call of inituvm did. */
  lemma PageZeroMapped(m0: Memory, free0: seq<nat>, owner0: Owners, m: Memory, free: seq<nat>, owner: Owners,
                       d: nat, u: nat, n: nat)
    requires 0 < u < UPAGES && u in owner0 && owner0[u].Held? && IsDir(owner0, d)
    requires RangeDone(m0, free0, owner0, m, free, owner, d, 0, n, u * PGSIZE, 6) && n <= 1
    requires (forall f | f in owner0 :: f < UPAGES) && Untouched(m0, owner0, m, owner)
    ensures PageZeroOnly(m0, owner0, m, owner, d, u) && IsDir(owner, d)
    ensures n == 1 ==> Lookup(m, d, 0) == Some(u * PGSIZE + 7) && IsPage(owner, u, d, 0)
    ensures n == 0 ==> Lookup(m, d, 0) == Lookup(m0, d, 0) && u in owner && owner[u].Held? && free == free0
  {
    hide Lookup, VpnAt, VpnIndex, FrameIndex, PaAt, MakePte, RangePages, Or, MayMap;
    PageZero(u, owner0);
    GrownDirs(owner0, owner, d, 0, n, u * PGSIZE);
    forall f: nat | f in owner0 ensures OwnerGrown(owner0[f], owner[f], d, 0, n, FrameIndex(u * PGSIZE, f)) {
    }
  }

  /** With the same free list and no new tables the owners are the same. */
  lemma SameOwners(free: seq<nat>, owner0: Owners, owner: Owners)
    requires FreeExactly(free, owner0) && FreeExactly(free, owner) && owner.Keys == owner0.Keys
    requires forall f: nat | f in owner && owner[f] != owner0[f] :: owner0[f].Free?
    ensures owner == owner0
  {
    forall f: nat | f in owner ensures owner[f] == owner0[f] {
      if owner0[f].Free? {
        assert f in free;
      }
    }
  }

  /** mappages(pgdir, 0, PGSIZE, V2P(mem), PTE_W|PTE_U) for a frame the caller holds. */
  method MapZero(h: Heap, pgdir: nat, u: nat) returns (r: Status)
    requires Good(h) && IsDir(h.owner, pgdir) && u in h.owner && h.owner[u].Held?
    modifies h`mem, h`freelist, h`free, h`owner
    ensures Good(h) && IsDir(h.owner, pgdir) && PageZeroOnly(old(h.mem), old(h.owner), h.mem, h.owner, pgdir, u)
    ensures r.Panic? <==> old(Lookup(h.mem, pgdir, 0)).Some?
    ensures r.Fail? <==> !Present(old(Entry(h.mem, pgdir, 0))) && old(h.free) == []
    ensures r.Fail? ==> h.owner == old(h.owner) && Lookup(h.mem, pgdir, 0).None?
    ensures r.Ok? ==> u < UPAGES && Lookup(h.mem, pgdir, 0) == Some(u * PGSIZE + 7) && IsPage(h.owner, u, pgdir, 0)
    ensures h.mem[u] == old(h.mem[u])
  {
    hide Chain, FreeExactly, Linked, Lookup, RangeDone, NoneMapped, Needed, MayMap, MakePte, Or, PageZeroOnly,
      VpnAt, VpnIndex, FrameIndex, PaAt, RangePages;
    HeapFrame(h.kheapStart, h.kheapEnd, u);
    LinkedFrames(h.mem, h.owner);
    ghost var m0, free0, owner0 := h.mem, h.free, h.owner;
    PageZero(u, owner0);
    PageZeroNeeds(m0, pgdir);
    ghost var done;
    r, done := Mappages(h, pgdir, 0, PGSIZE, V2P(Ptr(u)), Or(PTE_W, PTE_U));
    PageZeroMapped(m0, free0, owner0, h.mem, h.free, h.owner, pgdir, u, done);
    if !r.Ok? {
      PageZeroSame(m0, free0, owner0, h.mem, h.free, h.owner, pgdir, u);
    }
  }

  lemma PageZeroSame(m0: Memory, free0: seq<nat>, owner0: Owners, m: Memory, free: seq<nat>, owner: Owners, d: nat,
                     u: nat)
    requires PageZeroOnly(m0, owner0, m, owner, d, u) && u in owner && owner[u] == owner0[u]
    requires free == free0 && FreeExactly(free0, owner0) && FreeExactly(free, owner)
    ensures owner == owner0
  {
    hide Lookup;
    SameOwners(free, owner0, owner);
  }

  /**
    Loads the image at address 0. The results of kalloc and mappages are not looked at: with no
    frame left the memset faults on the unmapped page 0, and with none left for the page table
    the frame is neither mapped nor freed.
   */
  method Inituvm(h: Heap, pgdir: nat, init: seq<Byte>) returns (r: Status)
    requires Good(h) && IsDir(h.owner, pgdir)
    modifies h`mem, h`freelist, h`free, h`owner
    ensures Good(h) && !r.Fail?
    ensures r.Panic? <==> |init| >= PGSIZE || old(h.free) == [] || old(Lookup(h.mem, pgdir, 0)).Some?
    ensures r.Ok? && (Present(old(Entry(h.mem, pgdir, 0))) || |old(h.free)| >= 2) ==>
              UserPage(h.mem, h.owner, pgdir, old(h.free)[0], init)
    ensures r.Ok? && !Present(old(Entry(h.mem, pgdir, 0))) && |old(h.free)| == 1 ==>
              h.owner == old(h.owner)[old(h.free)[0] := Held] && Lookup(h.mem, pgdir, 0).None?
    ensures r.Ok? ==> PageZeroOnly(old(h.mem), old(h.owner), h.mem, h.owner, pgdir, old(h.free)[0])
  {
    hide Chain, FreeExactly, Linked, Lookup, Holds, PageZeroOnly;
    if |init| >= PGSIZE {
      return Panic("inituvm: more than a page");
    }
    var v := h.Kalloc();
    if v == 0 {
      return Panic("page fault not handled!");
    }
    var u := PtrFrame(v);
    LinkedFrames(old(h.mem), old(h.owner));
    h.Clear(u);
    OtherFrame(old(h.mem), old(h.owner), h.mem, h.owner, u);
    PageZeroKalloc(old(h.mem), old(h.owner), h.mem, pgdir, u, Held);
    ghost var m1, owner1 := h.mem, h.owner;
    r := MapZero(h, pgdir, u);
    if r.Panic? {
      return;
    }
    PageZeroOnlyTrans(old(h.mem), old(h.owner), m1, owner1, h.mem, h.owner, pgdir, u);
    ghost var m2, owner2 := h.mem, h.owner;
    CopyImage(h, u, init);
    PageZeroKalloc(m2, owner2, h.mem, pgdir, u, owner2[u]);
    assert owner2[u := owner2[u]] == owner2;
    PageZeroOnlyTrans(old(h.mem), old(h.owner), m2, owner2, h.mem, h.owner, pgdir, u);
    return Ok;
  }

  lemma PageZeroKalloc(m0: Memory, owner0: Owners, m: Memory, d: nat, u: nat, o: Owner)
    requires u in owner0 && OnlyFrame(m0, m, u)
    requires if owner0[u].Free? then o.Held? else o == owner0[u]
    requires forall e: nat, v: nat | IsDir(owner0, e) :: Lookup(m, e, v) == Lookup(m0, e, v)
    ensures PageZeroOnly(m0, owner0, m, owner0[u := o], d, u)
  {
    hide Lookup;
  }

  lemma PageZeroNeeds(m: Memory, d: nat)
    ensures |Needed(m, d, 0, 1)| == if Present(Entry(m, d, 0)) then 0 else 1
    ensures NoneMapped(m, d, 0, 1) <==> Lookup(m, d, 0).None?
    ensures !Present(Entry(m, d, 0)) ==> Lookup(m, d, 0).None?
  {
    assert VpnAt(0, 0) == 0;
    assert Needed(m, d, 0, 0) == {};
  }
}

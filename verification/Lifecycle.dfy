/** What address spaces look like, and that taking one down undoes building it. */
module Lifecycle {
  import opened Layout
  import opened Kalloc
  import opened PageTables
  import opened Mapping
  import opened Unmapping
  import opened AddressSpaces
  import opened Bytes

  /** Page v belongs to one of the three ranges of the kernel half. */
  ghost predicate KernelPage(c: Platform, v: nat) {
    || Touches(KERNBASE, c.physEnd, v)
    || Touches(P2V(c.acpi), c.acpiLen, v)
    || Touches(DEVSPACE, DEVSIZE, v)
  }

  lemma RangeMeaning(c: Platform, j: nat, v: nat)
    requires Wired(c) && j < 3 && v < PAGES
    ensures InRange(c, j, v) <==> Touches(RangeVa(c, j), RangeSize(c, j), v)
  {
    hide VpnIndex, RangePages;
    RangeExact(RangeVa(c, j), RangeSize(c, j));
  }

  lemma KernelEntryCases(c: Platform, v: nat)
    requires Wired(c) && v < PAGES
    ensures KernelEntry(c, v, 3).Some? <==> KernelPage(c, v)
    ensures v < UPAGES ==> KernelEntry(c, v, 3).None?
  {
    hide VpnIndex, RangePages, MakePte, InRange, PaAt, KernelEntry;
    RangeMeaning(c, 0, v);
    RangeMeaning(c, 1, v);
    RangeMeaning(c, 2, v);
    KernelEntryNone(c, v, 3);
  }

  /** RAM is mapped at KERNBASE: kernel pointer P2V(p) reaches physical address p, for the kernel only. */
  lemma RamEntry(c: Platform, f: nat)
    requires Wired(c) && Apart(c, 3) && f * PGSIZE < c.physEnd
    ensures KernelEntry(c, UPAGES + f, 3) == Some(f * PGSIZE + 3)
  {
    hide RangePages, MakePte, KernelEntry, VpnIndex, PaAt, Touches;
    BlockIndex(KERNBASE, c.physEnd, 0, UPAGES + f, f);
    RangeMeaning(c, 0, UPAGES + f);
    EntryFrom(c, 0, UPAGES + f);
    KernelPteAligned(f);
  }

  /** The device range, in numbers. */
  lemma DevicePage(v: nat)
    ensures Touches(DEVSPACE, DEVSIZE, v) <==> 0xFE000 <= v < 0xFEF00
  {
  }

  /** The devices, the IOAPIC's page 0xFEC00 among them, are mapped to themselves, for the kernel only. */
  lemma DeviceEntry(c: Platform, v: nat)
    requires Wired(c) && Apart(c, 3) && 0xFE000 <= v < 0xFEF00
    ensures KernelEntry(c, v, 3) == Some(v * 4096 + 3)
  {
    hide RangePages, MakePte, KernelEntry, VpnIndex, PaAt, Touches;
    DevicePage(v);
    BlockIndex(DEVSPACE, DEVSIZE, DEVSPACE, v, v - 0xFE000);
    RangeMeaning(c, 2, v);
    EntryFrom(c, 2, v);
    KernelPteAligned(v);
  }

  /**
    All of the kernel half in numbers, for an ACPI region that starts on a page: RAM from page
    0x80000 on, the region at the same distance, the devices at 0xFE000 to 0xFEEFF, nothing else.
   */
  lemma KernelMap(c: Platform, v: nat)
    requires Wired(c) && Apart(c, 3) && v < 0x10_0000 && c.acpi % 4096 == 0
    ensures KernelEntry(c, v, 3) ==
            if v >= 0x8_0000 && (v - 0x8_0000) * 4096 < c.physEnd then Some((v - 0x8_0000) * 4096 + 3)
            else if v >= 0x8_0000 && c.acpi <= (v - 0x8_0000) * 4096 < c.acpi + c.acpiLen
            then Some((v - 0x8_0000) * 4096 + 3)
            else if 0xFE000 <= v < 0xFEF00 then Some(v * 4096 + 3)
            else None
  {
    hide KernelEntry, Apart;
    KernelEntryCases(c, v);
    DevicePage(v);
    if v >= 0x8_0000 && (v - 0x8_0000) * 4096 < c.physEnd {
      RamEntry(c, v - UPAGES);
    } else if v >= 0x8_0000 && c.acpi <= (v - 0x8_0000) * 4096 < c.acpi + c.acpiLen {
      AcpiEntry(c, v - UPAGES);
    } else if 0xFE000 <= v < 0xFEF00 {
      DeviceEntry(c, v);
    } else {
      Untouching(c, v);
    }
  }

  lemma Untouching(c: Platform, v: nat)
    requires Wired(c) && v < PAGES && c.acpi % 4096 == 0
    requires !(v >= 0x8_0000 && (v - 0x8_0000) * 4096 < c.physEnd)
    requires !(v >= 0x8_0000 && c.acpi <= (v - 0x8_0000) * 4096 < c.acpi + c.acpiLen)
    ensures !Touches(KERNBASE, c.physEnd, v) && !Touches(P2V(c.acpi), c.acpiLen, v)
  {
    assert P2V(c.acpi) == KERNBASE + c.acpi;
    var q := c.acpi / 4096;
    assert c.acpi == q * 4096;
  }

  /** Page v is the k-th of an aligned block. */
  lemma BlockIndex(va: Word, size: Word, pa: Word, v: nat, k: nat)
    requires va % PGSIZE == 0 && v == va / PGSIZE + k && k * PGSIZE < size && va + size <= WORDS
    requires pa % PGSIZE == 0 && pa + k * PGSIZE < WORDS
    ensures Touches(va, size, v) && VpnIndex(va, v) == k && PaAt(pa, k) == pa + k * PGSIZE
  {
    assert v * PGSIZE == va + k * PGSIZE;
  }

  /**
    The ACPI pages are mapped to the right frames for every acpi address. Their flags are
    exactly PTE_P|PTE_W if and only if acpi leaves the other flag bits clear, as an aligned one does.
   */
  lemma AcpiEntry(c: Platform, f: nat)
    requires Wired(c) && Apart(c, 3) && c.acpi / PGSIZE <= f && f * PGSIZE < c.acpi + c.acpiLen
    ensures var e := KernelEntry(c, UPAGES + f, 3);
            && e.Some? && FrameOf(e.value) == f
            && (e.value == f * PGSIZE + 3 <==> c.acpi % PGSIZE < 4)
            && (User(e.value) <==> User(c.acpi))
  {
    hide RangePages, MakePte, KernelEntry, VpnIndex, PaAt, P2V;
    var v, k := UPAGES + f, f - c.acpi / PGSIZE;
    AcpiIndex(c, f);
    RangeMeaning(c, 1, v);
    EntryFrom(c, 1, v);
    KernelPte(PaAt(c.acpi, k));
    FlagBits(f, c.acpi % PGSIZE);
  }

  /** Setting the two low bits of an address stays in its frame and in its other flags. */
  lemma FlagBits(f: nat, x: nat)
    requires f < PAGES && x < PGSIZE
    ensures var w := (f * PGSIZE + x) / 4 * 4 + 3;
            w < WORDS && FrameOf(w) == f && (w == f * PGSIZE + 3 <==> x < 4) && (User(w) <==> User(f * PGSIZE + x))
  {
    var y := f * PGSIZE + x;
    ModUnique(y, 4, f * 1024 + x / 4, x % 4);
    ModUnique(y / 4 * 4 + 3, 4, y / 4, 3);
    ModUnique(y / 4 * 4 + 3, 4096, f, x / 4 * 4 + 3);
  }

  lemma AcpiIndex(c: Platform, f: nat)
    requires Wired(c) && c.acpi / PGSIZE <= f && f * PGSIZE < c.acpi + c.acpiLen
    ensures var k := f - c.acpi / PGSIZE;
            && Touches(P2V(c.acpi), c.acpiLen, UPAGES + f)
            && VpnIndex(P2V(c.acpi), UPAGES + f) == k
            && PaAt(c.acpi, k) == f * PGSIZE + c.acpi % PGSIZE
            && (User(PaAt(c.acpi, k)) <==> User(c.acpi))
  {
    var k := f - c.acpi / PGSIZE;
    assert P2V(c.acpi) == KERNBASE + c.acpi;
    assert P2V(c.acpi) / PGSIZE == UPAGES + c.acpi / PGSIZE;
    assert c.acpi + k * PGSIZE == f * PGSIZE + c.acpi % PGSIZE;
    UserBit(c.acpi, k);
  }

  lemma UserBit(pa: nat, k: nat)
    ensures (pa + k * 4096) / 4 % 2 == pa / 4 % 2
  {
    ModUnique(pa + k * 4096, 4, pa / 4 + k * 1024, pa % 4);
    ModUnique(pa / 4 + k * 1024, 2, pa / 4 / 2 + k * 512, pa / 4 % 2);
  }

  /** The entry a page gets is that of the only range it lies in. */
  lemma EntryFrom(c: Platform, j: nat, v: nat)
    requires Apart(c, 3) && j < 3 && v < PAGES && InRange(c, j, v)
    ensures KernelEntry(c, v, 3) == Some(MakePte(PaAt(RangePa(c, j), VpnIndex(RangeVa(c, j), v)), PTE_W))
  {
    hide MakePte, VpnIndex, PaAt, InRange;
    assert forall a: nat | a < 3 && a != j :: !InRange(c, a, v);
    assert KernelEntry(c, v, 1) ==
           if InRange(c, 0, v) then Some(MakePte(PaAt(RangePa(c, 0), VpnIndex(RangeVa(c, 0), v)), PTE_W)) else None;
  }

  lemma KernelPte(pa: Word)
    ensures MakePte(pa, PTE_W) == pa / 4 * 4 + 3
  {
    OrHalf(pa, 2);
    assert Or(pa / 2, 1) == pa / 2 + 1 - pa / 2 % 2 by { OrOne(pa / 2); }
    OrOne(Or(pa, 2));
  }

  lemma KernelPteAligned(f: nat)
    requires f < PAGES
    ensures MakePte(f * PGSIZE, PTE_W) == f * PGSIZE + 3
  {
    hide MakePte;
    KernelPte(f * PGSIZE);
    ModUnique(f * 4096, 4, f * 1024, 0);
  }

  /** A user-mode access to va is allowed: both levels are present and carry PTE_U. */
  ghost predicate UserAccess(m: Memory, d: nat, va: Word) {
    var e := Entry(m, d, Pdx(va));
    var p := Entry(m, FrameOf(e), Ptx(va));
    Present(e) && User(e) && Present(p) && User(p)
  }

  /** The byte at a user address. */
  ghost function UserByte(m: Memory, d: nat, va: Word): (b: Byte) {
    ByteAt(m[FrameOf(Entry(m, FrameOf(Entry(m, d, Pdx(va))), Ptx(va)))], va % PGSIZE)
  }

  /** In a linked directory the table level decides. */
  lemma UserAccessLookup(m: Memory, owner: Owners, d: nat, va: Word)
    requires Linked(m, owner) && IsDir(owner, d)
    ensures UserAccess(m, d, va) <==> Lookup(m, d, Vpn(va)).Some? && User(Lookup(m, d, Vpn(va)).value)
    ensures UserAccess(m, d, va) ==> UserByte(m, d, va) == ByteAt(m[FrameOf(Lookup(m, d, Vpn(va)).value)], va % PGSIZE)
  {
    assert Vpn(va) / ENTRIES == Pdx(va) && Vpn(va) % ENTRIES == Ptx(va);
    if Present(Entry(m, d, Pdx(va))) {
      WalkStep(m, owner, d, Pdx(va));
      var t := FrameOf(Entry(m, d, Pdx(va)));
      assert (t * PGSIZE + 7) / 4 % 2 == 1;
    }
  }

  /** The kernel half of directory d is exactly what setupkvm builds. */
  ghost predicate KernelHalf(m: Memory, d: nat, c: Platform) {
    forall v: nat | UPAGES <= v < PAGES :: Lookup(m, d, v) == KernelEntry(c, v, 3)
  }

  /** Every frame the kernel reaches through P2V, page tables included, is mapped to itself by d. */
  lemma SelfMapped(m: Memory, owner: Owners, d: nat, c: Platform)
    requires Wired(c) && Apart(c, 3) && KernelHalf(m, d, c)
    requires forall f: nat | f in owner :: f < UPAGES && f * PGSIZE < c.physEnd
    ensures forall f: nat | f in owner :: Lookup(m, d, Vpn(P2V(f * PGSIZE))) == Some(f * PGSIZE + 3)
  {
    hide Lookup, KernelEntry, Apart;
    forall f: nat | f in owner ensures Lookup(m, d, Vpn(P2V(f * PGSIZE))) == Some(f * PGSIZE + 3) {
      RamEntry(c, f);
      assert Vpn(P2V(f * PGSIZE)) == UPAGES + f;
    }
  }

  /**
    The address space of the first process: a user-mode access is allowed exactly below PGSIZE,
    where it finds the image followed by zeros. This needs bit PTE_U of the acpi address to be
    clear, as in an aligned one: mappages stores the unrounded address.
   */
  lemma InitSpace(m: Memory, owner: Owners, d: nat, u: nat, c: Platform, init: seq<Byte>)
    requires Wired(c) && Apart(c, 3) && Linked(m, owner) && IsDir(owner, d)
    requires KernelHalf(m, d, c) && UserPage(m, owner, d, u, init)
    requires forall v: nat | 0 < v < UPAGES :: Lookup(m, d, v).None?
    ensures (forall va: Word :: UserAccess(m, d, va) <==> va < PGSIZE) <==> !User(c.acpi)
    ensures forall va: Word | va < PGSIZE ::
              UserAccess(m, d, va) && UserByte(m, d, va) == if va < |init| then init[va] else 0
  {
    hide Lookup, KernelEntry, Apart, UserAccess, UserByte, Linked, ByteAt;
    forall va: Word ensures va < PGSIZE ==> UserAccess(m, d, va)
      ensures va >= PGSIZE && !User(c.acpi) ==> !UserAccess(m, d, va)
      ensures va < PGSIZE ==> UserByte(m, d, va) == if va < |init| then init[va] else 0
    {
      UserAccessLookup(m, owner, d, va);
      if va < PGSIZE {
        assert Vpn(va) == 0 && User(u * PGSIZE + 7) && FrameOf(u * PGSIZE + 7) == u;
      } else if va >= KERNBASE && !User(c.acpi) {
        KernelOnly(c, Vpn(va));
      }
    }
    if User(c.acpi) {
      var va := P2V(c.acpi);
      AcpiEntry(c, c.acpi / PGSIZE);
      UserAccessLookup(m, owner, d, va);
      assert Vpn(va) == UPAGES + c.acpi / PGSIZE;
      assert UserAccess(m, d, va) && va >= PGSIZE;
    }
  }

  /** A layout in which that fails: with acpi at 0x7FE0004, right behind RAM, its first page is open to user mode. */
  lemma AcpiOpen()
    ensures var c := Platform(0x7FE_0000, 0x7FE_0004, 0x1000);
            && Wired(c) && Apart(c, 3) && User(c.acpi)
            && KernelEntry(c, UPAGES + 0x7FE0, 3).Some? && User(KernelEntry(c, UPAGES + 0x7FE0, 3).value)
  {
    hide KernelEntry, VpnIndex, RangePages;
    var c := Platform(0x7FE_0000, 0x7FE_0004, 0x1000);
    forall a: nat, b: nat, v: nat | a < b < 3 && v < PAGES && InRange(c, a, v) ensures !InRange(c, b, v) {
      RangeMeaning(c, a, v);
      RangeMeaning(c, b, v);
    }
    AcpiEntry(c, 0x7FE0);
  }

  /** No page of the kernel half is open to user mode. */
  lemma KernelOnly(c: Platform, v: nat)
    requires Wired(c) && Apart(c, 3) && !User(c.acpi) && UPAGES <= v < PAGES
    ensures KernelEntry(c, v, 3).Some? ==> !User(KernelEntry(c, v, 3).value)
  {
    hide KernelEntry, Apart;
    KernelEntryCases(c, v);
    DevicePage(v);
    if Touches(KERNBASE, c.physEnd, v) {
      RamEntry(c, v - UPAGES);
    } else if Touches(DEVSPACE, DEVSIZE, v) {
      DeviceEntry(c, v);
    } else if Touches(P2V(c.acpi), c.acpiLen, v) {
      AcpiEntry(c, v - UPAGES);
    }
  }

  /** No directory entry of the user half is used by the kernel ranges. */
  lemma KernelSlotsHigh(c: Platform, j: nat, i: nat)
    requires Wired(c) && j <= 3 && i in KernelSlots(c, j)
    ensures i >= USLOTS
  {
    if i in KernelSlots(c, j - 1) {
      KernelSlotsHigh(c, j - 1, i);
    } else {
      KernelRange(c, j - 1);
      SlotsHigh(RangeVa(c, j - 1), RangeLen(c, j - 1), i);
    }
  }

  lemma {:induction false} SlotsHigh(va: Word, n: nat, i: nat)
    requires (forall k: nat | k < n :: VpnAt(va, k) >= UPAGES) && i in Slots(va, n)
    ensures i >= USLOTS
  {
    if i in Slots(va, n - 1) {
      SlotsHigh(va, n - 1, i);
    }
  }

  /** Equal owners mean equal free lists, up to order. */
  lemma SameFree(free: seq<nat>, free': seq<nat>, owner: Owners)
    requires FreeExactly(free, owner) && FreeExactly(free', owner)
    ensures forall f: nat :: f in free <==> f in free'
  {
  }

  /** Freevm takes back exactly what setupkvm and inituvm took, unless inituvm lost a frame. */
  lemma RoundTripOwners(m0: Memory, owner0: Owners, owner1: Owners, m1: Memory, m2: Memory, owner2: Owners, d: nat,
                        u: nat)
    requires Linked(m0, owner0) && SpaceOwners(owner0, owner1, d) && PageZeroOnly(m1, owner1, m2, owner2, d, u)
    requires u in owner1 && owner1[u].Free?
    ensures Dissolved(owner2, d) == owner0 <==> !owner2[u].Held?
  {
    hide Lookup;
    forall f: nat | f in owner0 && owner0[f].Table? ensures owner0[f].dir != d {
      assert TableLinked(m0, owner0, f, owner0[f].dir, owner0[f].slot);
    }
    forall f: nat | f in owner0 && owner0[f].Page? ensures owner0[f].dir != d {
      assert PageLinked(m0, owner0, f, owner0[f].dir, owner0[f].vpn);
    }
  }

  /**
    Building an address space, loading an image and freeing it again gives back every frame
    if and only if a frame was left for the page table of the image.
   */
  method RoundTrip(h: Heap, c: Platform, init: seq<Byte>) returns (r: Status)
    requires Good(h) && Wired(c)
    modifies h`mem, h`freelist, h`free, h`owner
    ensures Good(h)
    ensures r.Ok? <==> |init| < PGSIZE && Apart(c, 3) && 2 + |KernelSlots(c, 3)| <= |old(h.free)|
    ensures r.Ok? ==> (h.owner == old(h.owner) <==> 3 + |KernelSlots(c, 3)| <= |old(h.free)|)
    ensures r.Ok? && 3 + |KernelSlots(c, 3)| <= |old(h.free)| ==> forall f: nat :: f in h.free <==> f in old(h.free)
  {
    hide Chain, FreeExactly, Linked, Lookup, Apart, KernelSlots, Dissolved, SpaceOwners, PageZeroOnly, Holds, Stage,
      TableStack, FreedStack, KernelEntry;
    ghost var m0, free0, owner0 := h.mem, h.free, h.owner;
    var d;
    r, d := Setupkvm(h, c);
    if !r.Ok? {
      return;
    }
    ghost var m1, free1, owner1 := h.mem, h.free, h.owner;
    FreshSpace(m0, free0, owner0, m1, free1, owner1, d, c);
    r := Inituvm(h, d, init);
    if !r.Ok? {
      return;
    }
    ghost var m2, owner2, u := h.mem, h.owner, free1[0];
    OnFreeList(free1, owner1);
    RoundTripOwners(m0, owner0, owner1, m1, m2, owner2, d, u);
    PageZeroDirs(m1, owner1, m2, owner2, d, u);
    r := Freevm(h, d);
    if h.owner == owner0 {
      SameFree(free0, h.free, owner0);
    }
  }

  lemma OnFreeList(free: seq<nat>, owner: Owners)
    requires FreeExactly(free, owner) && free != []
    ensures free[0] in owner && owner[free[0]].Free?
  {
  }

  lemma PageZeroDirs(m0: Memory, owner0: Owners, m: Memory, owner: Owners, d: nat, u: nat)
    requires PageZeroOnly(m0, owner0, m, owner, d, u)
    ensures owner.Keys == owner0.Keys && forall e: nat :: IsDir(owner, e) <==> IsDir(owner0, e)
  {
  }

  /** A fresh directory has no user table and cost exactly its frames. */
  lemma FreshSpace(m0: Memory, free0: seq<nat>, owner0: Owners, m: Memory, free: seq<nat>, owner: Owners, d: nat,
                   c: Platform)
    requires Wired(c) && Stage(m0, free0, owner0, m, free, owner, d, c, 3)
    ensures SpaceOwners(owner0, owner, d) && IsDir(owner, d) && owner.Keys == owner0.Keys
    ensures 1 + |KernelSlots(c, 3)| <= |free0| && free == free0[1 + |KernelSlots(c, 3)|..]
    ensures !Present(Entry(m, d, 0)) && Lookup(m, d, 0).None?
    ensures KernelHalf(m, d, c) && forall v: nat | v < UPAGES :: Lookup(m, d, v).None?
    ensures forall e: nat, v: nat | IsDir(owner0, e) && v < PAGES :: Lookup(m, e, v) == Lookup(m0, e, v)
    ensures forall e: nat :: IsDir(owner, e) <==> e == d || IsDir(owner0, e)
    ensures Untouched(m0, owner0, m, owner)
  {
    hide Lookup, KernelEntry, KernelSlots, Apart;
    if 0 in KernelSlots(c, 3) {
      KernelSlotsHigh(c, 3, 0);
    }
    forall v: nat | v < UPAGES ensures Lookup(m, d, v).None? {
      KernelEntryCases(c, v);
    }
  }

  predicate IsHeld(owner: Owners, f: nat) {
    f in owner && owner[f].Held?
  }

  /** Read off memory alone: no two user pages share a frame, and no frame of a page or table is on the free list. */
  lemma NoSharing(m: Memory, owner: Owners, free: seq<nat>, d: nat, v: nat, d': nat, v': nat)
    requires Linked(m, owner) && FreeExactly(free, owner) && IsDir(owner, d) && IsDir(owner, d')
    requires v < UPAGES && v' < UPAGES && Lookup(m, d, v).Some? && Lookup(m, d', v').Some?
    ensures FrameOf(Lookup(m, d, v).value) == FrameOf(Lookup(m, d', v').value) <==> d == d' && v == v'
    ensures FrameOf(Lookup(m, d, v).value) !in free && FrameOf(Entry(m, d, v / ENTRIES)) !in free && d !in free
    ensures FrameOf(Entry(m, d, v / ENTRIES)) == FrameOf(Entry(m, d', v' / ENTRIES)) <==>
              d == d' && v / ENTRIES == v' / ENTRIES
    ensures FrameOf(Lookup(m, d', v').value) !in {d, FrameOf(Entry(m, d, v / ENTRIES))}
  {
    WalkStep(m, owner, d, v / ENTRIES);
    WalkStep(m, owner, d', v' / ENTRIES);
  }
}

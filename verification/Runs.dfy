/**
  Whole runs of the kernel's memory: any sequence of the calls of kernel/kalloc.c, kernel/paging.c
  and process_alloc, and of stores into the frames those calls handed out.
 */
module Runs {
  import opened Layout
  import opened Kalloc
  import opened PageTables
  import opened Mapping
  import opened Unmapping
  import opened AddressSpaces
  import opened Lifecycle
  import opened Bytes
  import opened Proc
  import Sched

  /** The calls the rest of the kernel makes, in any order, and the stores it and user programs make. */
  datatype Call =
    | AllocPage
    | FreePage(frame: nat)
    | Setup
    | Walk(dir: nat, va: Word, alloc: bool)
    | Map(dir: nat, va: Word, size: Word, frame: nat, perm: Word)
    | Load(dir: nat, init: seq<Byte>)
    | Shrink(dir: nat, oldsz: Word, newsz: Word)
    | Destroy(dir: nat)
    | Spawn(trapret: Word, enterProcess: Word)
    | WritePage(frame: nat, i: nat, w: Word)      // by the caller who has the frame
    | WriteStack(slot: nat, i: nat, w: Word)      // on the kernel stack of a process
    | WriteUser(dir: nat, va: Word, w: Word)      // to a user address, through its translation

  ghost predicate SameHeld(owner: Owners, owner': Owners) {
    forall f: nat :: IsHeld(owner', f) <==> IsHeld(owner, f)
  }

  ghost predicate HeldExactly(owner: Owners, held: set<nat>) {
    forall f: nat :: IsHeld(owner, f) <==> f in held
  }

  predicate Used(p: Pcb) {
    !p.state.Unused?
  }

  /** stacks are the frames of the kernel stacks, a different one for each slot in use. */
  ghost predicate StacksOk(proc: seq<Pcb>, stacks: set<nat>) {
    && |proc| == Sched.NPROC
    && (forall q | 0 <= q < |proc| && Used(proc[q]) ::
          && proc[q].kstack >= KERNBASE && PtrFrame(proc[q].kstack) in stacks
          && proc[q].kstack == Ptr(PtrFrame(proc[q].kstack)))
    && (forall p, q | 0 <= p < q < |proc| && Used(proc[p]) && Used(proc[q]) :: proc[p].kstack != proc[q].kstack)
    && (forall f | f in stacks ::
          f < UPAGES && exists q :: 0 <= q < |proc| && Used(proc[q]) && proc[q].kstack == Ptr(f))
  }

  /** Every heap frame lies in RAM. */
  ghost predicate InRam(owner: Owners, c: Platform) {
    forall f: nat | f in owner :: f * PGSIZE < c.physEnd
  }

  /**
    Every heap frame has its one owner: the free list; a directory, which is one of dirs; the table of one directory
    entry; one user page; or it was handed out, and then it is one of pages, in some caller's hands, the kernel
    stack of one process, or lost, with nobody knowing of it any more.
   */
  ghost predicate World(h: Heap, t: Table, c: Platform, dirs: set<nat>, pages: set<nat>, stacks: set<nat>,
                        lost: set<nat>)
    reads h, t
  {
    && Good(h) && t.Valid() && Wired(c) && InRam(h.owner, c)
    && Accounts(h.mem, h.owner, c, dirs, pages, stacks, lost) && StacksOk(t.proc, stacks)
  }

  ghost predicate Accounts(m: Memory, owner: Owners, c: Platform,
                           dirs: set<nat>, pages: set<nat>, stacks: set<nat>, lost: set<nat>)
  {
    && pages !! stacks && pages !! lost && stacks !! lost
    && (forall d: nat :: d in dirs <==> IsDir(owner, d))
    && (forall d: nat | d in dirs :: KernelHalf(m, d, c))
    && (dirs != {} ==> Apart(c, 3))
    && HeldExactly(owner, pages + (stacks + lost))
  }

  /** Directory d maps every heap frame, page tables included, to itself, for the kernel. */
  ghost predicate MapsHeap(m: Memory, owner: Owners, d: nat) {
    forall f: nat | f in owner && f < UPAGES :: Lookup(m, d, Vpn(P2V(f * PGSIZE))) == Some(f * PGSIZE + 3)
  }

  /** In such a world every directory does. */
  lemma WorldSelfMapped(h: Heap, t: Table, c: Platform, dirs: set<nat>, pages: set<nat>, stacks: set<nat>,
                        lost: set<nat>)
    requires World(h, t, c, dirs, pages, stacks, lost)
    ensures forall d: nat | d in dirs :: MapsHeap(h.mem, h.owner, d)
  {
    hide Lookup, Apart, Chain, FreeExactly, KernelHalf, StacksOk, HeldExactly;
    LinkedFrames(h.mem, h.owner);
    forall d: nat | d in dirs ensures MapsHeap(h.mem, h.owner, d) {
      SelfMapped(h.mem, h.owner, d, c);
    }
  }

  /** What a run keeps account of. */
  datatype View = View(proc: seq<Pcb>, dirs: set<nat>, pages: set<nat>, stacks: set<nat>)

  /** Frames frame, frame + 1, ... , frame + n - 1. */
  function Block(frame: nat, n: nat): (s: set<nat>)
    ensures forall g: nat :: g in s <==> frame <= g < frame + n
  {
    if n == 0 then {} else Block(frame, n - 1) + {frame + n - 1}
  }

  /** The frames of a Map call are in the caller's hands and its pages below KERNBASE. */
  predicate MapAllowed(d: nat, va: Word, size: Word, frame: nat, perm: Word, dirs: set<nat>, pages: set<nat>) {
    && d in dirs && size > 0 && va + size <= KERNBASE && perm < PGSIZE
    && Block(frame, PageCount(va, size)) <= pages
  }

  /** What a call that returns does to the process table, the directories alive and the frames handed out. */
  ghost predicate Effect(call: Call, free: seq<nat>, v: View, v': View) {
    match call
    case AllocPage => v' == v.(pages := if free == [] then v.pages else v.pages + {free[0]})
    case FreePage(f) => v' == v.(pages := v.pages - {f})
    case Setup => free != [] && v' == v.(dirs := v.dirs + {free[0]})
    case Map(d, va, size, frame, perm) =>
      v' == if MapAllowed(d, va, size, frame, perm, v.dirs, v.pages)
            then v.(pages := v.pages - Block(frame, PageCount(va, size))) else v
    case Destroy(d) => v' == v.(dirs := v.dirs - {d})
    case Spawn(_, _) => if Full(v.proc) then v' == v else exists p: nat, pid: nat :: Spawned(free, v, v', p, pid)
    case _ => v' == v
  }

  /** What such a call does to the translations and the free list, unless it runs out of frames. */
  ghost predicate Outcome(call: Call, m0: Memory, free0: seq<nat>, owner0: Owners, m: Memory, free: seq<nat>,
                          owner: Owners, c: Platform, dirs: set<nat>, pages: set<nat>)
  {
    match call
    case Setup => free0 != [] && Stage(m0, free0, owner0, m, free, owner, free0[0], c, 3)
    case Walk(d, va, alloc) =>
      d in dirs && alloc ==> Present(Entry(m, d, Pdx(va))) || (free0 == [] && !Present(Entry(m0, d, Pdx(va))))
    case Map(d, va, size, frame, perm) =>
      MapAllowed(d, va, size, frame, perm, dirs, pages) && !RunsOut(m0, free0, call) ==>
        frame < UPAGES && Overridden(m0, m, owner0, d, va, PageCount(va, size), frame * PGSIZE, perm)
    case Load(d, init) =>
      d in dirs && !RunsOut(m0, free0, call) ==> free0 != [] && UserPage(m, owner, d, free0[0], init)
    case Shrink(d, oldsz, newsz) =>
      d in dirs && newsz < oldsz <= KERNBASE ==>
        ScanDone(m0, free0, owner0, m, free, owner, d, PagesBelow(newsz), PagesBelow(oldsz))
    case Destroy(d) =>
      d in dirs ==> owner == Dissolved(owner0, d)
                    && free == [d] + TableStack(m0, d, ENTRIES) + FreedStack(m0, d, 0, UPAGES) + free0
    case _ => true
  }

  /** Slot p, the first UNUSED one, got pid and, if there was a frame, a kernel stack. */
  ghost predicate Spawned(free: seq<nat>, v: View, v': View, p: nat, pid: nat) {
    && FirstUnused(v.proc, p)
    && if free == [] then v' == v.(proc := v.proc[p := Allocated(v.proc[p], pid, 0)])
       else
         && free[0] < UPAGES
         && v' == v.(proc := v.proc[p := Allocated(v.proc[p], pid, Ptr(free[0]))], stacks := v.stacks + {free[0]})
  }

  /** The frame a store goes to; None for other calls and for stores nobody may make. */
  function Target(call: Call, m: Memory, proc: seq<Pcb>, dirs: set<nat>, pages: set<nat>): (f: Option<nat>) {
    match call
    case WritePage(f, i, _) => if f in pages && i < ENTRIES then Some(f) else None
    case WriteStack(q, i, _) =>
      if q < |proc| && Used(proc[q]) && proc[q].kstack >= KERNBASE && i < ENTRIES
      then Some(PtrFrame(proc[q].kstack)) else None
    case WriteUser(d, va, _) =>
      if && d in dirs && d < PAGES && va < KERNBASE
         && Present(m[d][Pdx(va)]) && Present(m[FrameOf(m[d][Pdx(va)])][Ptx(va)])
      then Some(FrameOf(m[FrameOf(m[d][Pdx(va)])][Ptx(va)])) else None
    case _ => None
  }

  /** The word of that frame, and what is stored there. */
  function Place(call: Call): (i: nat) {
    match call
    case WritePage(_, i, _) => i
    case WriteStack(_, i, _) => i
    case WriteUser(_, va, _) => va % PGSIZE / 4
    case _ => 0
  }
  function Stored(call: Call): (w: Word) {
    if call.WritePage? || call.WriteStack? || call.WriteUser? then call.w else 0
  }

  /** One word of one frame changed, and with it no owner and no translation. */
  ghost predicate Written(m0: Memory, owner0: Owners, m: Memory, owner: Owners, f: nat, i: nat, w: Word) {
    && owner == owner0 && f < PAGES && i < ENTRIES
    && OnlyFrame(m0, m, f) && m[f] == m0[f][i := w]
    && (forall e: nat, v: nat | IsDir(owner, e) :: Lookup(m, e, v) == Lookup(m0, e, v))
  }

  /** The two calls that lose frames: inituvm with one frame left and no table, and mappages without enough tables. */
  ghost predicate RunsOut(m: Memory, free: seq<nat>, call: Call) {
    match call
    case Load(d, _) => |free| == 1 && !Present(Entry(m, d, 0))
    case Map(d, va, size, _, _) => |Needed(m, d, va, RangePages(va, size))| > |free|
    case _ => false
  }

  /**
    What no call but a store does: lose a heap frame, touch the kernel half of a directory that
    survives, or write to frames in use.
   */
  ghost predicate Benign(m0: Memory, owner0: Owners, m: Memory, owner: Owners) {
    && owner.Keys == owner0.Keys
    && (forall e: nat, v: nat | IsDir(owner0, e) && IsDir(owner, e) && UPAGES <= v < PAGES ::
        Lookup(m, e, v) == Lookup(m0, e, v))
    && Untouched(m0, owner0, m, owner)
  }

  lemma AllocBenign(m0: Memory, m: Memory, owner: Owners, f: nat, pages: set<nat>, others: set<nat>)
    requires f in owner && owner[f].Free? && HeldExactly(owner, pages + others) && OnlyFrame(m0, m, f)
    requires forall e: nat, v: nat | IsDir(owner, e) :: Lookup(m, e, v) == Lookup(m0, e, v)
    ensures Benign(m0, owner, m, owner[f := Held]) && f !in pages && f !in others
    ensures HeldExactly(owner[f := Held], pages + {f} + others) && HeldExactly(owner[f := Held], pages + (others + {f}))
    ensures forall e: nat :: IsDir(owner[f := Held], e) <==> IsDir(owner, e)
  {
    hide Lookup;
    NotHeld(owner, pages + others, f);
    HeldOne(owner, owner[f := Held], pages + others, f);
    assert pages + others + {f} == pages + {f} + others == pages + (others + {f});
  }

  lemma FreeBenign(m0: Memory, owner: Owners, m: Memory, f: nat, pages: set<nat>, others: set<nat>)
    requires f in owner && owner[f].Held? && OnlyFrame(m0, m, f)
    requires pages !! others && HeldExactly(owner, pages + others) && f in pages
    requires forall e: nat, v: nat | IsDir(owner[f := Free], e) :: Lookup(m, e, v) == Lookup(m0, e, v)
    ensures Benign(m0, owner, m, owner[f := Free]) && HeldExactly(owner[f := Free], pages - {f} + others)
  {
    hide Lookup;
  }

  lemma SetupBenign(m0: Memory, free0: seq<nat>, owner0: Owners, m: Memory, free: seq<nat>, owner: Owners, d: nat,
                    c: Platform)
    requires Wired(c) && Stage(m0, free0, owner0, m, free, owner, d, c, 3)
    ensures Benign(m0, owner0, m, owner) && KernelHalf(m, d, c)
    ensures forall e: nat :: IsDir(owner, e) <==> e == d || IsDir(owner0, e)
    ensures SameHeld(owner0, owner)
  {
    hide Lookup, KernelEntry, KernelSlots, Apart;
    FreshSpace(m0, free0, owner0, m, free, owner, d, c);
  }

  lemma WalkBenign(m0: Memory, owner0: Owners, m: Memory, owner: Owners, d: nat, i: nat, t: nat)
    requires owner == owner0 || (t in owner0 && owner0[t].Free? && owner == owner0[t := Table(d, i)])
    requires forall e: nat, v: nat | IsDir(owner0, e) :: Lookup(m, e, v) == Lookup(m0, e, v)
    requires Untouched(m0, owner0, m, owner)
    ensures Benign(m0, owner0, m, owner)
    ensures forall e: nat :: IsDir(owner, e) <==> IsDir(owner0, e)
    ensures SameHeld(owner0, owner)
  {
    hide Lookup;
  }

  /** Pages touched by a non-empty block below KERNBASE. */
  function PageCount(va: Word, size: Word): (n: nat)
    requires size > 0 && va + size <= KERNBASE
    ensures va / PGSIZE + n <= UPAGES
  {
    (va + size - 1) / PGSIZE - va / PGSIZE + 1
  }

  /** Mapping held frames frame, frame + 1, ... at user pages meets the demands of mappages. */
  lemma MapReady(owner: Owners, va: Word, size: Word, frame: nat, perm: Word)
    requires size > 0 && va + size <= KERNBASE && perm < PGSIZE
    requires forall g: nat | g in Block(frame, PageCount(va, size)) :: IsHeld(owner, g)
    requires forall f | f in owner :: f < UPAGES
    ensures RangePages(va, size) == PageCount(va, size) && frame < UPAGES
    ensures forall k: nat | k < RangePages(va, size) :: MayMap(owner, VpnAt(va, k), PaAt(frame * PGSIZE, k), perm)
  {
    assert frame in Block(frame, PageCount(va, size)) && IsHeld(owner, frame);
    forall k: nat | k < PageCount(va, size)
      ensures MayMap(owner, VpnAt(va, k), PaAt(frame * PGSIZE, k), perm)
    {
      assert frame + k in Block(frame, PageCount(va, size)) && IsHeld(owner, frame + k);
      assert PaAt(frame * PGSIZE, k) == (frame + k) * PGSIZE;
    }
  }

  lemma MapBenign(m0: Memory, free0: seq<nat>, owner0: Owners, m: Memory, free: seq<nat>, owner: Owners,
                  d: nat, va: Word, size: Word, n: nat, frame: nat, perm: Word)
    requires size > 0 && va + size <= KERNBASE && n <= PageCount(va, size) && frame < UPAGES
    requires RangeDone(m0, free0, owner0, m, free, owner, d, va, n, frame * PGSIZE, perm)
    requires (forall f | f in owner0 :: f < UPAGES) && Untouched(m0, owner0, m, owner)
    requires forall f: nat | f in Block(frame, PageCount(va, size)) :: IsHeld(owner0, f)
    ensures Benign(m0, owner0, m, owner)
    ensures forall e: nat :: IsDir(owner, e) <==> IsDir(owner0, e)
    ensures forall f: nat | f !in Block(frame, n) :: IsHeld(owner, f) <==> IsHeld(owner0, f)
    ensures forall f: nat | f in Block(frame, n) :: IsPage(owner, f, d, VpnAt(va, f - frame)) && !IsHeld(owner, f)
    ensures Overridden(m0, m, owner0, d, va, n, frame * PGSIZE, perm)
  {
    hide Lookup, TablesTaken, MakePte, PaAt, VpnIndex, VpnAt, FrameIndex, PageCount;
    GrownDirs(owner0, owner, d, va, n, frame * PGSIZE);
    MapIndices(va, size, frame);
    forall f: nat | f in Block(frame, n) ensures IsPage(owner, f, d, VpnAt(va, f - frame)) && !IsHeld(owner, f) {
      assert f in Block(frame, PageCount(va, size)) && IsHeld(owner0, f);
      assert OwnerGrown(owner0[f], owner[f], d, va, n, FrameIndex(frame * PGSIZE, f));
    }
  }

  /** Which pages and frames a block of frames mapped below KERNBASE takes. */
  lemma MapIndices(va: Word, size: Word, frame: nat)
    requires size > 0 && va + size <= KERNBASE && frame < UPAGES
    ensures forall v: nat | UPAGES <= v < PAGES :: VpnIndex(va, v) >= PageCount(va, size)
    ensures forall k: nat | k < PageCount(va, size) :: VpnAt(va, k) < UPAGES
    ensures forall f: nat | f < UPAGES ::
              FrameIndex(frame * PGSIZE, f) == if f >= frame then f - frame else f - frame + PAGES
    ensures PageCount(va, size) <= UPAGES
  {
    assert frame * PGSIZE / PGSIZE == frame;
  }

  lemma LoadBenign(m0: Memory, owner0: Owners, m: Memory, owner: Owners, d: nat, u: nat)
    requires PageZeroOnly(m0, owner0, m, owner, d, u) && u in owner0 && owner0[u].Free?
    ensures Benign(m0, owner0, m, owner)
    ensures forall e: nat :: IsDir(owner, e) <==> IsDir(owner0, e)
    ensures forall f: nat | f != u :: IsHeld(owner, f) <==> IsHeld(owner0, f)
  {
    hide Lookup;
  }

  lemma ShrinkBenign(m0: Memory, free0: seq<nat>, owner0: Owners, m: Memory, free: seq<nat>, owner: Owners,
                     d: nat, lo: nat, hi: nat)
    requires ScanDone(m0, free0, owner0, m, free, owner, d, lo, hi) && hi <= UPAGES
    requires Untouched(m0, owner0, m, owner)
    ensures Benign(m0, owner0, m, owner)
    ensures forall e: nat :: IsDir(owner, e) <==> IsDir(owner0, e)
    ensures SameHeld(owner0, owner)
  {
    hide Lookup, FreedStack;
  }

  lemma DestroyBenign(m0: Memory, owner0: Owners, m: Memory, d: nat)
    requires IsDir(owner0, d) && Untouched(m0, owner0, m, Dissolved(owner0, d))
    requires forall e: nat, v: nat | IsDir(Dissolved(owner0, d), e) :: Lookup(m, e, v) == Lookup(m0, e, v)
    ensures Benign(m0, owner0, m, Dissolved(owner0, d))
    ensures forall e: nat :: IsDir(Dissolved(owner0, d), e) <==> IsDir(owner0, e) && e != d
    ensures SameHeld(owner0, Dissolved(owner0, d))
  {
    hide Lookup;
  }

  lemma HalvesKept(m0: Memory, owner0: Owners, m: Memory, owner: Owners, c: Platform)
    requires Benign(m0, owner0, m, owner)
    ensures forall e: nat | IsDir(owner0, e) && IsDir(owner, e) && KernelHalf(m0, e, c) :: KernelHalf(m, e, c)
  {
    hide Lookup, KernelEntry;
  }

  lemma PagesBelowKernel(sz: Word)
    requires sz <= KERNBASE
    ensures PagesBelow(sz) <= UPAGES
  {
  }

  /**
    mappages over user pages, with frames the caller holds: the mapped ones become pages of d. The
    caller gives all of them up even when the result is -1, which does not tell how many were
    mapped; the others are lost.
   */
  method MapFrames(h: Heap, d: nat, va: Word, size: Word, frame: nat, perm: Word, pages: set<nat>,
                   ghost stacks: set<nat>, ghost lost: set<nat>)
    returns (r: Status, pages': set<nat>, ghost lost': set<nat>, ghost done: nat)
    requires Good(h) && IsDir(h.owner, d) && size > 0 && va + size <= KERNBASE && perm < PGSIZE
    requires Block(frame, PageCount(va, size)) <= pages && HeldExactly(h.owner, pages + (stacks + lost))
    requires pages !! stacks && pages !! lost
    modifies h`mem, h`freelist, h`free, h`owner
    ensures Good(h) && !r.Fail? && done <= PageCount(va, size) && frame < UPAGES
    ensures pages' == pages - Block(frame, PageCount(va, size))
    ensures lost' == lost + Block(frame + done, PageCount(va, size) - done)
    ensures r.Ok? ==> Benign(old(h.mem), old(h.owner), h.mem, h.owner)
    ensures r.Ok? ==> HeldExactly(h.owner, pages' + (stacks + lost'))
    ensures r.Ok? ==> forall e: nat :: IsDir(h.owner, e) <==> IsDir(old(h.owner), e)
    ensures forall f: nat | f in Block(frame, done) :: IsPage(h.owner, f, d, VpnAt(va, f - frame))
    ensures Overridden(old(h.mem), h.mem, old(h.owner), d, va, done, frame * PGSIZE, perm)
    ensures r.Ok? ==> (done == PageCount(va, size) <==>
              |Needed(old(h.mem), d, va, RangePages(va, size))| <= |old(h.free)|)
  {
    hide Chain, FreeExactly, Linked, Lookup, RangeDone, Untouched, Benign, NoneMapped, Needed, MayMap, PageCount,
      Overridden, HeldExactly, Block, VpnAt;
    ghost var m0, free0, owner0 := h.mem, h.free, h.owner;
    LinkedFrames(m0, owner0);
    forall g: nat | g in Block(frame, PageCount(va, size)) ensures IsHeld(owner0, g) {
      HeldFrame(owner0, pages, stacks + lost, g);
    }
    MapReady(owner0, va, size, frame, perm);
    r, done := Mappages(h, d, va, size, frame * PGSIZE, perm);
    MapBenign(m0, free0, owner0, h.mem, h.free, h.owner, d, va, size, done, frame, perm);
    pages' := pages - Block(frame, PageCount(va, size));
    lost' := lost + Block(frame + done, PageCount(va, size) - done);
    HeldMapped(owner0, h.owner, pages, stacks, lost, frame, done, PageCount(va, size));
    if r.Fail? {
      NeededShort(m0, d, va, done, RangePages(va, size));
      r := Ok;
    }
  }

  lemma HeldMapped(owner: Owners, owner': Owners, pages: set<nat>, stacks: set<nat>, lost: set<nat>, frame: nat,
                   done: nat, n: nat)
    requires HeldExactly(owner, pages + (stacks + lost)) && done <= n && Block(frame, n) <= pages
    requires pages !! stacks && pages !! lost
    requires forall f: nat | f !in Block(frame, done) :: IsHeld(owner', f) <==> IsHeld(owner, f)
    requires forall f: nat | f in Block(frame, done) :: !IsHeld(owner', f)
    ensures HeldExactly(owner', pages - Block(frame, n) + (stacks + (lost + Block(frame + done, n - done))))
  {
    forall f: nat
      ensures f in pages - Block(frame, n) + (stacks + (lost + Block(frame + done, n - done))) <==>
              f in pages + (stacks + lost) && f !in Block(frame, done)
    {
    }
  }

  lemma NeededShort(m: Memory, d: nat, va: Word, k: nat, n: nat)
    requires k < n
    ensures |Needed(m, d, va, k + 1)| <= |Needed(m, d, va, n)|
  {
    NeededMono(m, d, va, k + 1, n);
  }

  lemma HeldKept(owner: Owners, owner': Owners, held: set<nat>)
    requires HeldExactly(owner, held)
    ensures SameHeld(owner, owner') ==> HeldExactly(owner', held)
  {
  }

  lemma HeldOne(owner: Owners, owner': Owners, held: set<nat>, u: nat)
    requires HeldExactly(owner, held) && forall f: nat | f != u :: IsHeld(owner', f) <==> IsHeld(owner, f)
    ensures HeldExactly(owner', if IsHeld(owner', u) then held + {u} else held - {u})
  {
  }

  /** inituvm on a live directory. */
  method LoadImage(h: Heap, d: nat, init: seq<Byte>, ghost held: set<nat>) returns (r: Status, ghost lost: set<nat>)
    requires Good(h) && IsDir(h.owner, d) && HeldExactly(h.owner, held)
    modifies h`mem, h`freelist, h`free, h`owner
    ensures Good(h) && !r.Fail? && lost !! held
    ensures r.Ok? ==> Benign(old(h.mem), old(h.owner), h.mem, h.owner) && HeldExactly(h.owner, held + lost)
    ensures r.Ok? ==> forall e: nat :: IsDir(h.owner, e) <==> IsDir(old(h.owner), e)
    ensures lost != {} <==> r.Ok? && |old(h.free)| == 1 && !Present(old(Entry(h.mem, d, 0)))
    ensures r.Ok? && lost == {} ==> old(h.free) != [] && UserPage(h.mem, h.owner, d, old(h.free)[0], init)
  {
    hide Chain, FreeExactly, Linked, Lookup, PageZeroOnly, HeldExactly, Holds, Benign;
    ghost var m0, free0, owner0 := h.mem, h.free, h.owner;
    r := Inituvm(h, d, init);
    lost := {};
    if r.Ok? {
      ghost var u := free0[0];
      OnFreeList(free0, owner0);
      LoadBenign(m0, owner0, h.mem, h.owner, d, u);
      HeldOne(owner0, h.owner, held, u);
      NotHeld(owner0, held, u);
      if |free0| == 1 && !Present(Entry(m0, d, 0)) {
        lost := {u};
      } else {
        assert held - {u} == held + lost;
      }
    }
  }

  lemma NotHeld(owner: Owners, held: set<nat>, u: nat)
    requires HeldExactly(owner, held) && u in owner && owner[u].Free?
    ensures u !in held
  {
    assert !IsHeld(owner, u);
  }

  lemma HeldFrame(owner: Owners, pages: set<nat>, others: set<nat>, f: nat)
    requires HeldExactly(owner, pages + others) && f in pages
    ensures f in owner && owner[f].Held?
  {
    assert IsHeld(owner, f);
  }

  /** kalloc, by a caller who keeps the frame. */
  method TakePage(h: Heap, pages: set<nat>, ghost others: set<nat>) returns (pages': set<nat>)
    requires Good(h) && HeldExactly(h.owner, pages + others)
    modifies h`freelist, h`free, h`owner
    ensures Good(h) && HeldExactly(h.owner, pages' + others)
    ensures pages' == if old(h.free) == [] then pages else pages + {old(h.free)[0]}
    ensures old(h.free) != [] ==> old(h.free)[0] !in others
    ensures Benign(h.mem, old(h.owner), h.mem, h.owner)
    ensures forall e: nat :: IsDir(h.owner, e) <==> IsDir(old(h.owner), e)
  {
    hide Chain, FreeExactly, Linked, Lookup, HeldExactly, Benign;
    NoneBenign(h.mem, h.owner);
    pages' := pages;
    var v := h.Kalloc();
    if v != 0 {
      LinkedFrames(h.mem, old(h.owner));
      OtherFrame(h.mem, old(h.owner), h.mem, h.owner, old(h.free)[0]);
      AllocBenign(h.mem, h.mem, old(h.owner), old(h.free)[0], pages, others);
      pages' := pages + {PtrFrame(v)};
    }
  }

  /** kfree, by the caller who has the frame. */
  method GivePage(h: Heap, f: nat, pages: set<nat>, ghost others: set<nat>) returns (r: Status)
    requires Good(h) && pages !! others && HeldExactly(h.owner, pages + others) && f in pages
    modifies h`mem, h`freelist, h`free, h`owner
    ensures Good(h) && r.Ok? && HeldExactly(h.owner, pages - {f} + others)
    ensures Benign(old(h.mem), old(h.owner), h.mem, h.owner)
    ensures forall e: nat :: IsDir(h.owner, e) <==> IsDir(old(h.owner), e)
  {
    hide Chain, FreeExactly, Linked, Lookup, HeldExactly, Benign;
    HeldFrame(h.owner, pages, others, f);
    r := FreeHeld(h, f);
    FreeBenign(old(h.mem), old(h.owner), h.mem, f, pages, others);
  }

  /** process_alloc: the new stack joins the stacks. */
  method SpawnProcess(h: Heap, t: Table, trapret: Word, enterProcess: Word,
                      ghost dirs: set<nat>, ghost pages: set<nat>, ghost stacks: set<nat>, ghost lost: set<nat>)
    returns (ghost stacks': set<nat>)
    requires Good(h) && t.Valid() && t as object != h && StacksOk(t.proc, stacks)
    requires pages !! stacks && pages !! lost && stacks !! lost && HeldExactly(h.owner, pages + (stacks + lost))
    modifies t`proc, t`nextpid, h`mem, h`freelist, h`free, h`owner
    ensures Good(h) && t.Valid() && StacksOk(t.proc, stacks')
    ensures pages !! stacks' && stacks' !! lost && HeldExactly(h.owner, pages + (stacks' + lost))
    ensures Benign(old(h.mem), old(h.owner), h.mem, h.owner)
    ensures forall e: nat :: IsDir(h.owner, e) <==> IsDir(old(h.owner), e)
    ensures Effect(Spawn(trapret, enterProcess), old(h.free),
                   View(old(t.proc), dirs, pages, stacks), View(t.proc, dirs, pages, stacks'))
  {
    hide Chain, FreeExactly, Linked, Lookup, HeldExactly, Benign, StacksOk, FirstUnused, Full, Forged, Allocated;
    ghost var m0, free0, owner0, proc0, pid := h.mem, h.free, h.owner, t.proc, t.nextpid;
    NoneBenign(m0, owner0);
    var slot, first := ProcessAlloc(t, h, trapret, enterProcess);
    stacks' := stacks;
    if slot.Some? {
      ghost var f := free0[0];
      AllocBenign(m0, h.mem, owner0, f, pages, stacks + lost);
      stacks' := stacks + {f};
      assert pages + (stacks + lost + {f}) == pages + (stacks' + lost);
      StackJoins(proc0, stacks, first, pid, f);
      assert Spawned(free0, View(proc0, dirs, pages, stacks), View(t.proc, dirs, pages, stacks'), first, pid);
    } else if free0 == [] {
      NoStack(proc0, stacks, first, pid);
      SpawnedNone(proc0, t.proc, first, pid, dirs, pages, stacks);
    }
  }

  lemma SpawnedNone(proc: seq<Pcb>, proc': seq<Pcb>, first: nat, pid: nat, dirs: set<nat>, pages: set<nat>,
                    stacks: set<nat>)
    requires !Full(proc) ==> FirstUnused(proc, first) && proc' == proc[first := Allocated(proc[first], pid, 0)]
    ensures !Full(proc) ==> Spawned([], View(proc, dirs, pages, stacks), View(proc', dirs, pages, stacks), first, pid)
  {
    hide Allocated, Full;
  }

  lemma NoStack(proc: seq<Pcb>, stacks: set<nat>, p: nat, pid: nat)
    requires StacksOk(proc, stacks)
    ensures FirstUnused(proc, p) ==> StacksOk(proc[p := Allocated(proc[p], pid, 0)], stacks)
  {
    if FirstUnused(proc, p) {
      var proc' := proc[p := Allocated(proc[p], pid, 0)];
      assert forall q | 0 <= q < |proc| && q != p :: proc'[q] == proc[q];
      forall f | f in stacks
        ensures f < UPAGES && exists q :: 0 <= q < |proc'| && Used(proc'[q]) && proc'[q].kstack == Ptr(f)
      {
        var q :| 0 <= q < |proc| && Used(proc[q]) && proc[q].kstack == Ptr(f);
        assert proc'[q] == proc[q];
      }
    }
  }

  lemma StackJoins(proc: seq<Pcb>, stacks: set<nat>, p: nat, pid: nat, f: nat)
    requires StacksOk(proc, stacks) && FirstUnused(proc, p) && f < UPAGES && f !in stacks
    ensures StacksOk(proc[p := Allocated(proc[p], pid, Ptr(f))], stacks + {f})
  {
    var proc', stacks' := proc[p := Allocated(proc[p], pid, Ptr(f))], stacks + {f};
    assert Used(proc'[p]) && proc'[p].kstack == Ptr(f) && PtrFrame(Ptr(f)) == f;
    assert forall q | 0 <= q < |proc| && q != p :: proc'[q] == proc[q];
    forall g | g in stacks'
      ensures g < UPAGES && exists q :: 0 <= q < |proc'| && Used(proc'[q]) && proc'[q].kstack == Ptr(g)
    {
      if g in stacks {
        var q :| 0 <= q < |proc| && Used(proc[q]) && proc[q].kstack == Ptr(g);
        assert proc'[q] == proc[q];
      }
    }
    forall q | 0 <= q < |proc| && q != p && Used(proc[q]) ensures proc[q].kstack != Ptr(f) {
      assert PtrFrame(proc[q].kstack) in stacks;
    }
  }

  /** A store goes to a frame that is in use, never to a free one or into the page tables. */
  lemma TargetInUse(h: Heap, t: Table, c: Platform, call: Call, dirs: set<nat>, pages: set<nat>, stacks: set<nat>,
                    lost: set<nat>)
    requires World(h, t, c, dirs, pages, stacks, lost) && Target(call, h.mem, t.proc, dirs, pages).Some?
    ensures var f := Target(call, h.mem, t.proc, dirs, pages).value;
            f in h.owner && InUse(h.owner[f]) && f < PAGES && Place(call) < ENTRIES
  {
    hide Chain, FreeExactly, Lookup, KernelHalf, Apart;
    LinkedFrames(h.mem, h.owner);
    match call {
      case WritePage(f, _, _) => assert IsHeld(h.owner, f);
      case WriteStack(q, _, _) =>
        assert PtrFrame(t.proc[q].kstack) in stacks;
        assert IsHeld(h.owner, PtrFrame(t.proc[q].kstack));
      case WriteUser(d, va, _) => UserMapped(h.mem, h.owner, d, va);
    }
  }

  /** A user translation leads to a page of that directory. */
  lemma UserMapped(m: Memory, owner: Owners, d: nat, va: Word)
    requires Linked(m, owner) && IsDir(owner, d) && d < PAGES && va < KERNBASE
    requires Present(m[d][Pdx(va)]) && Present(m[FrameOf(m[d][Pdx(va)])][Ptx(va)])
    ensures IsPage(owner, FrameOf(m[FrameOf(m[d][Pdx(va)])][Ptx(va)]), d, Vpn(va))
  {
    hide Lookup;
    assert Entry(m, d, Pdx(va)) == m[d][Pdx(va)];
    WalkStep(m, owner, d, Pdx(va));
    var t := FrameOf(Entry(m, d, Pdx(va)));
    assert Entry(m, t, Ptx(va)) == m[t][Ptx(va)];
    assert Pdx(va) < USLOTS && Pdx(va) * ENTRIES + Ptx(va) == Vpn(va);
  }

  /** Where the stores of a run go: user stores to the word their address translates to. */
  lemma StoresGo(h: Heap, t: Table, c: Platform, dirs: set<nat>, pages: set<nat>, stacks: set<nat>, lost: set<nat>,
                 x: nat, i: nat, va: Word, w: Word)
    requires World(h, t, c, dirs, pages, stacks, lost)
    ensures var call := WriteUser(x, va, w);
            && (Target(call, h.mem, t.proc, dirs, pages).Some? <==>
                  x in dirs && va < 0x8000_0000 && Lookup(h.mem, x, va / 4096).Some?)
            && (Target(call, h.mem, t.proc, dirs, pages).Some? ==>
                  Target(call, h.mem, t.proc, dirs, pages) == Some(FrameOf(Lookup(h.mem, x, va / 4096).value)))
            && Place(call) == va % 4096 / 4 && Stored(call) == w
    ensures var call := WritePage(x, i, w);
            && (Target(call, h.mem, t.proc, dirs, pages) == if x in pages && i < 1024 then Some(x) else None)
            && Place(call) == i && Stored(call) == w
    ensures var call := WriteStack(x, i, w);
            && (Target(call, h.mem, t.proc, dirs, pages).Some? <==>
                x < 64 && t.proc[x].state != Sched.Unused && i < 1024)
            && (Target(call, h.mem, t.proc, dirs, pages).Some? ==>
                  Ptr(Target(call, h.mem, t.proc, dirs, pages).value) == t.proc[x].kstack)
            && Place(call) == i && Stored(call) == w
  {
    hide Chain, FreeExactly, KernelHalf, Apart, HeldExactly;
    LinkedFrames(h.mem, h.owner);
    assert Vpn(va) / ENTRIES == Pdx(va) && Vpn(va) % ENTRIES == Ptx(va);
    if x in dirs {
      assert IsDir(h.owner, x);
      assert Entry(h.mem, x, Pdx(va)) == h.mem[x][Pdx(va)];
    }
  }

  /**
    Isolation: a word stored at a user address is read back there, byte by byte, in little-endian
    order, and is seen at no other user address of any address space.
   */
  lemma Isolation(m0: Memory, owner: Owners, m: Memory, d: nat, va: Word, w: Word, d': nat, va': Word)
    requires Linked(m0, owner) && IsDir(owner, d) && IsDir(owner, d') && va < KERNBASE && va' < KERNBASE
    requires Lookup(m0, d, Vpn(va)).Some? && Lookup(m0, d', Vpn(va')).Some?
    requires Written(m0, owner, m, owner, FrameOf(Lookup(m0, d, Vpn(va)).value), va % PGSIZE / 4, w)
    ensures UserByte(m, d', va') ==
            if d' == d && va' / 4 == va / 4 then ByteOf(w, va' % 4) else UserByte(m0, d', va')
  {
    hide Linked, Lookup, ByteOf;
    UserRead(m0, m, d', va');
    var f, f' := FrameOf(Lookup(m0, d, Vpn(va)).value), FrameOf(Lookup(m0, d', Vpn(va')).value);
    OwnFrame(m0, owner, d, va, d', va');
    WordOffset(va);
    WordOffset(va');
    assert f' < PAGES;
  }

  /** The offset in the page and the page number are the word and byte of the address. */
  lemma WordOffset(va: Word)
    ensures va % PGSIZE / 4 < ENTRIES && va % PGSIZE % 4 == va % 4 && Vpn(va) * 1024 + va % PGSIZE / 4 == va / 4
  {
    var q, r := va / 4096, va % 4096;
    ModUnique(va, 4, q * 1024 + r / 4, r % 4);
  }

  lemma UserRead(m0: Memory, m: Memory, d: nat, va: Word)
    requires Lookup(m0, d, Vpn(va)).Some? && Lookup(m, d, Vpn(va)) == Lookup(m0, d, Vpn(va))
    ensures var f := FrameOf(Lookup(m0, d, Vpn(va)).value);
            UserByte(m0, d, va) == ByteAt(m0[f], va % PGSIZE) && UserByte(m, d, va) == ByteAt(m[f], va % PGSIZE)
  {
    hide ByteAt;
    assert Vpn(va) / ENTRIES == Pdx(va) && Vpn(va) % ENTRIES == Ptx(va);
  }

  lemma OwnFrame(m: Memory, owner: Owners, d: nat, va: Word, d': nat, va': Word)
    requires Linked(m, owner) && IsDir(owner, d) && IsDir(owner, d') && va < KERNBASE && va' < KERNBASE
    requires Lookup(m, d, Vpn(va)).Some? && Lookup(m, d', Vpn(va')).Some?
    ensures FrameOf(Lookup(m, d, Vpn(va)).value) == FrameOf(Lookup(m, d', Vpn(va')).value) <==>
              d == d' && Vpn(va) == Vpn(va')
  {
    WalkStep(m, owner, d, Vpn(va) / ENTRIES);
    WalkStep(m, owner, d', Vpn(va') / ENTRIES);
  }

  /** A store into a frame in use. */
  method WriteWord(h: Heap, f: nat, i: nat, w: Word)
    requires Good(h) && f in h.owner && InUse(h.owner[f]) && f < PAGES && i < ENTRIES
    modifies h`mem
    ensures Good(h) && Written(old(h.mem), h.owner, h.mem, h.owner, f, i, w)
  {
    hide Chain, FreeExactly, Linked, Lookup;
    StoreHeld(h, f, i, w);
  }

  lemma WrittenHalves(m0: Memory, owner: Owners, m: Memory, c: Platform, f: nat, i: nat, w: Word)
    requires Written(m0, owner, m, owner, f, i, w)
    ensures forall e: nat | IsDir(owner, e) && KernelHalf(m0, e, c) :: KernelHalf(m, e, c)
  {
    hide Lookup, KernelEntry;
  }

  /** One call. Naming a frame or directory that is not alive is a caller's error and is skipped. */
  method Perform(h: Heap, t: Table, c: Platform, call: Call, dirs: set<nat>, pages: set<nat>,
                 ghost stacks: set<nat>, ghost lost: set<nat>)
    returns (r: Status, dirs': set<nat>, pages': set<nat>, ghost stacks': set<nat>, ghost lost': set<nat>)
    requires World(h, t, c, dirs, pages, stacks, lost) && t as object != h
    modifies h`mem, h`freelist, h`free, h`owner, t`proc, t`nextpid
    ensures Good(h) && !r.Fail?
    ensures r.Ok? ==> World(h, t, c, dirs', pages', stacks', lost')
    ensures r.Ok? ==>
              var f := Target(call, old(h.mem), old(t.proc), dirs, pages);
              if f.Some? then Written(old(h.mem), old(h.owner), h.mem, h.owner, f.value, Place(call), Stored(call))
              else Benign(old(h.mem), old(h.owner), h.mem, h.owner)
    ensures r.Ok? ==>
              Effect(call, old(h.free), View(old(t.proc), dirs, pages, stacks), View(t.proc, dirs', pages', stacks'))
    ensures r.Ok? ==> Outcome(call, old(h.mem), old(h.free), old(h.owner), h.mem, h.free, h.owner, c, dirs, pages)
    ensures r.Ok? ==> lost <= lost' && (lost' == lost || RunsOut(old(h.mem), old(h.free), call))
  {
    hide Chain, FreeExactly, Linked, Lookup, KernelHalf, Written, Apart, Target, Place, Stored, HeldExactly,
      StacksOk, Stage, Overridden, UserPage, ScanDone, Dissolved, TableStack, FreedStack, Needed;
    r, dirs', pages', stacks', lost' := Ok, dirs, pages, stacks, lost;
    var f := Target(call, h.mem, t.proc, dirs, pages);
    if f.Some? {
      TargetInUse(h, t, c, call, dirs, pages, stacks, lost);
      TargetStores(call, h.mem, t.proc, dirs, pages);
      WriteWord(h, f.value, Place(call), Stored(call));
      WrittenHalves(old(h.mem), h.owner, h.mem, c, f.value, Place(call), Stored(call));
    } else if call.Spawn? {
      stacks' := SpawnProcess(h, t, call.trapret, call.enterProcess, dirs, pages, stacks, lost);
      HalvesKept(old(h.mem), old(h.owner), h.mem, h.owner, c);
      BenignKeys(old(h.mem), old(h.owner), h.mem, h.owner);
    } else if SpaceLevel(call) {
      r, dirs', pages', lost' := SpaceCall(h, c, call, dirs, pages, stacks, lost);
    } else {
      r, dirs', pages', lost' := PageCall(h, c, call, dirs, pages, stacks, lost);
    }
  }

  lemma TargetStores(call: Call, m: Memory, proc: seq<Pcb>, dirs: set<nat>, pages: set<nat>)
    ensures Target(call, m, proc, dirs, pages).Some? ==> call.WritePage? || call.WriteStack? || call.WriteUser?
  {
  }

  lemma BenignKeys(m0: Memory, owner0: Owners, m: Memory, owner: Owners)
    requires Benign(m0, owner0, m, owner)
    ensures owner.Keys == owner0.Keys
  {
  }

  /** The calls on frames and tables. */
  method PageCall(h: Heap, c: Platform, call: Call, dirs: set<nat>, pages: set<nat>,
                  ghost stacks: set<nat>, ghost lost: set<nat>)
    returns (r: Status, dirs': set<nat>, pages': set<nat>, ghost lost': set<nat>)
    requires Good(h) && Wired(c) && Accounts(h.mem, h.owner, c, dirs, pages, stacks, lost) && !call.Spawn?
             && !SpaceLevel(call)
    modifies h`mem, h`freelist, h`free, h`owner
    ensures Good(h) && !r.Fail?
    ensures r.Ok? ==> Accounts(h.mem, h.owner, c, dirs', pages', stacks, lost')
    ensures r.Ok? ==> Benign(old(h.mem), old(h.owner), h.mem, h.owner) && h.owner.Keys == old(h.owner).Keys
    ensures forall proc: seq<Pcb> | r.Ok? ::
              Effect(call, old(h.free), View(proc, dirs, pages, stacks), View(proc, dirs', pages', stacks))
    ensures r.Ok? ==> Outcome(call, old(h.mem), old(h.free), old(h.owner), h.mem, h.free, h.owner, c, dirs, pages)
    ensures r.Ok? ==> lost <= lost' && (lost' == lost || RunsOut(old(h.mem), old(h.free), call))
  {
    hide Chain, FreeExactly, Linked, Lookup, Apart, KernelSlots, Stage, Dissolved, ScanDone, PageZeroOnly, Needed,
      Overridden, KernelHalf, TableStack, FreedStack, UserPage, Untouched, Benign, PagesBelow, BelongsTo,
      HeldExactly, SameHeld;
    ghost var m0, free0, owner0 := h.mem, h.free, h.owner;
    ghost var others := stacks + lost;
    r, dirs', pages', lost' := Ok, dirs, pages, lost;
    match call {
      case AllocPage =>
        pages' := TakePage(h, pages, others);
      case FreePage(f) =>
        if f in pages {
          r := GivePage(h, f, pages, others);
          pages' := pages - {f};
        }
      case Walk(d, va, alloc) =>
        if d in dirs {
          var t := Walkpgdir(h, d, va, alloc);
          WalkBenign(m0, owner0, h.mem, h.owner, d, Pdx(va), if t.Some? then t.value else 0);
        }
      case Map(d, va, size, f, perm) =>
        if MapAllowed(d, va, size, f, perm, dirs, pages) {
          ghost var done;
          r, pages', lost', done := MapFrames(h, d, va, size, f, perm, pages, stacks, lost);
          LostBlock(pages, stacks, lost, f, done, PageCount(va, size));
        }
      case _ =>
    }
    if r.Ok? {
      NoneBenign(m0, owner0);
      BenignKeys(m0, owner0, h.mem, h.owner);
      HeldKept(owner0, h.owner, pages + others);
      HalvesKept(m0, owner0, h.mem, h.owner, c);
    }
  }

  predicate SpaceLevel(call: Call) {
    call.Setup? || call.Load? || call.Shrink? || call.Destroy?
  }

  /** The calls on whole address spaces. */
  method SpaceCall(h: Heap, c: Platform, call: Call, dirs: set<nat>, pages: set<nat>,
                   ghost stacks: set<nat>, ghost lost: set<nat>)
    returns (r: Status, dirs': set<nat>, pages': set<nat>, ghost lost': set<nat>)
    requires Good(h) && Wired(c) && Accounts(h.mem, h.owner, c, dirs, pages, stacks, lost) && SpaceLevel(call)
    modifies h`mem, h`freelist, h`free, h`owner
    ensures Good(h) && !r.Fail?
    ensures r.Ok? ==> Accounts(h.mem, h.owner, c, dirs', pages', stacks, lost')
    ensures r.Ok? ==> Benign(old(h.mem), old(h.owner), h.mem, h.owner) && h.owner.Keys == old(h.owner).Keys
    ensures forall proc: seq<Pcb> | r.Ok? ::
              Effect(call, old(h.free), View(proc, dirs, pages, stacks), View(proc, dirs', pages', stacks))
    ensures r.Ok? ==> Outcome(call, old(h.mem), old(h.free), old(h.owner), h.mem, h.free, h.owner, c, dirs, pages)
    ensures r.Ok? ==> lost <= lost' && (lost' == lost || RunsOut(old(h.mem), old(h.free), call))
  {
    hide Chain, FreeExactly, Linked, Lookup, Apart, KernelSlots, Stage, Dissolved, ScanDone, PageZeroOnly, Needed,
      Overridden, KernelHalf, TableStack, FreedStack, UserPage, Untouched, Benign, PagesBelow, BelongsTo,
      HeldExactly, SameHeld;
    ghost var m0, free0, owner0 := h.mem, h.free, h.owner;
    ghost var others := stacks + lost;
    r, dirs', pages', lost' := Ok, dirs, pages, lost;
    match call {
      case Setup =>
        var d;
        r, d := Setupkvm(h, c);
        if r.Ok? {
          SetupBenign(m0, free0, owner0, h.mem, h.free, h.owner, d, c);
          dirs' := dirs + {d};
        }
      case Load(d, init) =>
        if d in dirs {
          ghost var more;
          r, more := LoadImage(h, d, init, pages + others);
          lost' := lost + more;
          assert pages + (stacks + lost') == pages + others + more;
        }
      case Shrink(d, oldsz, newsz) =>
        if d in dirs && newsz < oldsz <= KERNBASE {
          var sz;
          r, sz := Deallocuvm(h, d, oldsz, newsz);
          PagesBelowKernel(oldsz);
          ShrinkBenign(m0, free0, owner0, h.mem, h.free, h.owner, d, PagesBelow(newsz), PagesBelow(oldsz));
        }
      case Destroy(d) =>
        if d in dirs {
          DirNotNull(h, d);
          r := Freevm(h, d);
          DestroyBenign(m0, owner0, h.mem, d);
          dirs' := dirs - {d};
        }
    }
    if r.Ok? {
      NoneBenign(m0, owner0);
      BenignKeys(m0, owner0, h.mem, h.owner);
      HeldKept(owner0, h.owner, pages + others);
      HalvesKept(m0, owner0, h.mem, h.owner, c);
    }
  }

  lemma LostBlock(pages: set<nat>, stacks: set<nat>, lost: set<nat>, frame: nat, done: nat, n: nat)
    requires Block(frame, n) <= pages && done <= n && pages !! stacks && pages !! lost && stacks !! lost
    ensures var pages', lost' := pages - Block(frame, n), lost + Block(frame + done, n - done);
            pages' !! stacks && pages' !! lost' && stacks !! lost' && lost <= lost' && (done == n ==> lost' == lost)
  {
    assert Block(frame + done, n - done) <= Block(frame, n);
  }

  lemma NoneBenign(m: Memory, owner: Owners)
    ensures Benign(m, owner, m, owner) && SameHeld(owner, owner)
  {
  }

  lemma DirNotNull(h: Heap, d: nat)
    requires h.Valid() && d in h.owner
    ensures d != 0
  {
    HeapFrame(h.kheapStart, h.kheapEnd, d);
  }

  /**
    Every sequence of calls and stores, from any such world, boot's included: in the state it ends
    in, and so in every state on the way, each heap frame has exactly one owner, every live
    directory has the kernel half setupkvm gave it and maps every heap frame to itself, no frame
    left the heap and none joined it.
   */
  method Run(h: Heap, t: Table, c: Platform, calls: seq<Call>, dirs0: set<nat>, pages0: set<nat>,
             ghost stacks0: set<nat>, ghost lost0: set<nat>)
    returns (r: Status, dirs: set<nat>, pages: set<nat>, ghost stacks: set<nat>, ghost lost: set<nat>)
    requires World(h, t, c, dirs0, pages0, stacks0, lost0) && t as object != h
    modifies h`mem, h`freelist, h`free, h`owner, t`proc, t`nextpid
    ensures Good(h) && !r.Fail?
    ensures r.Ok? ==> World(h, t, c, dirs, pages, stacks, lost) && h.owner.Keys == old(h.owner).Keys && lost0 <= lost
    ensures r.Ok? ==> forall d: nat | d in dirs :: MapsHeap(h.mem, h.owner, d)
    ensures r.Ok? && (forall k | 0 <= k < |calls| :: !calls[k].Load? && !calls[k].Map?) ==> lost == lost0
  {
    hide World, RunsOut, Written, Benign, Effect, Outcome, Target, Place, Stored, Lookup;
    r, dirs, pages, stacks, lost := Ok, dirs0, pages0, stacks0, lost0;
    for i := 0 to |calls|
      invariant World(h, t, c, dirs, pages, stacks, lost) && h.owner.Keys == old(h.owner).Keys && lost0 <= lost
      invariant (forall k | 0 <= k < i :: !calls[k].Load? && !calls[k].Map?) ==> lost == lost0
    {
      NoShortage(h.mem, h.free, calls[i]);
      ghost var m, owner, proc, ds, ps := h.mem, h.owner, t.proc, dirs, pages;
      r, dirs, pages, stacks, lost := Perform(h, t, c, calls[i], dirs, pages, stacks, lost);
      if !r.Ok? {
        return;
      }
      SameHeap(calls[i], m, owner, h.mem, h.owner, proc, ds, ps);
    }
    r := Ok;
    WorldSelfMapped(h, t, c, dirs, pages, stacks, lost);
    WorldGood(h, t, c, dirs, pages, stacks, lost);
  }

  lemma SameHeap(call: Call, m0: Memory, owner0: Owners, m: Memory, owner: Owners, proc: seq<Pcb>, dirs: set<nat>,
                 pages: set<nat>)
    requires var f := Target(call, m0, proc, dirs, pages);
             if f.Some? then Written(m0, owner0, m, owner, f.value, Place(call), Stored(call))
             else Benign(m0, owner0, m, owner)
    ensures owner.Keys == owner0.Keys
  {
    hide Target, Place, Stored, Lookup;
  }

  lemma NoShortage(m: Memory, free: seq<nat>, call: Call)
    ensures !call.Load? && !call.Map? ==> !RunsOut(m, free, call)
  {
  }

  lemma WorldGood(h: Heap, t: Table, c: Platform, dirs: set<nat>, pages: set<nat>, stacks: set<nat>, lost: set<nat>)
    requires World(h, t, c, dirs, pages, stacks, lost)
    ensures Good(h)
  {
  }

  /** With no directory yet there is nothing to link. */
  lemma AllFreeLinked(m: Memory, owner: Owners)
    requires forall f | f in owner :: f < UPAGES && owner[f].Free?
    ensures Linked(m, owner)
  {
  }

  lemma DonatedStructure(owner: Owners, lo: nat, hi: nat)
    requires forall f | lo <= f < hi :: f !in owner
    ensures SameStructure(owner, Donated(owner, lo, hi))
    ensures forall e: nat :: IsDir(Donated(owner, lo, hi), e) <==> IsDir(owner, e)
  {
  }

  /** No frame has been handed out at boot. */
  lemma NoneHeld(owner0: Owners, owner: Owners, d: nat, lo: nat, hi: nat)
    requires (forall f | f in owner0 :: owner0[f].Free?) && SpaceOwners(owner0, owner, d)
    ensures HeldExactly(Donated(owner, lo, hi), {})
  {
    hide Donated;
  }

  lemma BootPages(c: Platform, kend: Word)
    requires KERNBASE < kend <= 0x8040_0000 && 0x40_0000 <= c.physEnd < 0x7FFF_F000
    ensures FirstPage(kend) <= 1024 && EndPage(0x8040_0000) == FirstPage(0x8040_0000) == 1024
    ensures P2V(c.physEnd) == KERNBASE + c.physEnd && EndPage(P2V(c.physEnd)) == c.physEnd / PGSIZE >= 1024
  {
  }

  /**
    The heap after boot: each page from kend to the end of RAM, the kernel's directory and tables
    taken from the low ones.
   */
  ghost function BootFree(c: Platform, kend: Word): (s: seq<nat>)
    requires 1 + |KernelSlots(c, 3)| <= 1024 - FirstPage(kend) && 1024 <= c.physEnd / PGSIZE
    ensures |s| == c.physEnd / PGSIZE - FirstPage(kend) - 1 - |KernelSlots(c, 3)|
  {
    Descending(1024, c.physEnd / PGSIZE) + Descending(FirstPage(kend), 1024)[1 + |KernelSlots(c, 3)|..]
  }

  /**
    The order of main(): the frames below 4 MB, then the kernel's directory out of them, then the
    rest of RAM. Each page from kend to the end of RAM is in the heap exactly once.
   */
  method Boot(h: Heap, t: Table, c: Platform, kend: Word) returns (r: Status, kpgdir: nat)
    requires Wired(c) && KERNBASE <= h.sentinel < kend <= 0x8040_0000 && h.kheapEnd == 0x07FE_0000
    requires 0x40_0000 <= c.physEnd < 0x7FFF_F000
    requires t.Valid() && t as object != h && forall q | 0 <= q < Sched.NPROC :: t.proc[q].state.Unused?
    modifies h
    ensures r.Ok? <==> Apart(c, 3) && 1 + |KernelSlots(c, 3)| <= 1024 - FirstPage(kend)
    ensures r.Ok? ==> World(h, t, c, {kpgdir}, {}, {}, {})
    ensures r.Ok? ==> forall f: nat :: f in h.owner <==> FirstPage(kend) <= f < c.physEnd / PGSIZE
    ensures r.Ok? ==> h.free == BootFree(c, kend)
    ensures r.Ok? ==> forall v: Word :: h.Accepts(v) <==> v % PGSIZE == 0 && v >= kend
  {
    hide Chain, FreeExactly, Linked, Lookup, Apart, KernelSlots, Stage, KernelHalf, Donated, Descending, FirstPage,
      EndPage, SpaceOwners, Untouched, Wired, P2V, HeldExactly;
    BootPages(c, kend);
    r := h.Kinit1(kend, 0x8040_0000);
    AllFreeLinked(h.mem, h.owner);
    ghost var m0, free0, owner0 := h.mem, h.free, h.owner;
    r, kpgdir := Setupkvm(h, c);
    if !r.Ok? {
      return;
    }
    ghost var m1, free1, owner1 := h.mem, h.free, h.owner;
    FreshSpace(m0, free0, owner0, m1, free1, owner1, kpgdir, c);
    r := h.Kinit2(0x8040_0000, P2V(c.physEnd));
    DonatedStructure(owner1, 1024, c.physEnd / PGSIZE);
    OtherFrames(m1, owner1, h.mem, h.owner);
    HalfKept(m1, h.mem, kpgdir, c);
    NoneHeld(owner0, owner1, kpgdir, 1024, c.physEnd / PGSIZE);
    ghost var none: set<nat> := {};
    assert none + (none + none) == none;
  }

  lemma HalfKept(m: Memory, m': Memory, d: nat, c: Platform)
    requires KernelHalf(m, d, c) && forall v: nat :: Lookup(m', d, v) == Lookup(m, d, v)
    ensures KernelHalf(m', d, c)
  {
    hide Lookup, KernelEntry;
  }

  /**
    main() up to the scheduler: boot, then the first process. With frames to spare the result is a
    world with two directories and one kernel stack, and a process ready for its first dispatch.
   */
  method Start(h: Heap, t: Table, c: Platform, kend: Word, init: seq<Byte>, trapret: Word, enterProcess: Word)
    returns (r: Status, kpgdir: nat, slot: nat, ghost stack: nat, ghost u: nat)
    requires Wired(c) && KERNBASE <= h.sentinel < kend <= 0x8040_0000 && h.kheapEnd == 0x07FE_0000
    requires 0x40_0000 <= c.physEnd < 0x7FFF_F000
    requires t.Valid() && t as object != h && forall q | 0 <= q < Sched.NPROC :: t.proc[q].state.Unused?
    modifies h, t
    ensures r.Ok? <==>
              && Apart(c, 3) && |init| < PGSIZE && 1 + |KernelSlots(c, 3)| <= 1024 - FirstPage(kend)
              && 4 + 2 * |KernelSlots(c, 3)| <= c.physEnd / PGSIZE - FirstPage(kend)
    ensures r.Ok? && 5 + 2 * |KernelSlots(c, 3)| <= c.physEnd / PGSIZE - FirstPage(kend) ==>
              && slot == 0 && t.initproc == Some(0) && t.Valid()
              && Ready(h.mem, h.owner, c, t.proc[0], stack, u, init, trapret, enterProcess)
              && World(h, t, c, {kpgdir, t.proc[0].pgdir}, {}, {stack}, {})
  {
    hide Chain, FreeExactly, Linked, Lookup, Apart, KernelSlots, KernelHalf, Descending, FirstPage, Joined, Ready,
      HeldExactly, StacksOk, Started, Wired;
    slot, stack, u := 0, 0, 0;
    assert !Full(t.proc) by {
      assert t.proc[0].state.Unused?;
    }
    BootPages(c, kend);
    r, kpgdir := Boot(h, t, c, kend);
    if !r.Ok? {
      return;
    }
    ghost var m0, free0, owner0, proc0, pid := h.mem, h.free, h.owner, t.proc, t.nextpid;
    r, slot := InitprocInit(t, h, c, init, trapret, enterProcess);
    if r.Ok? && |free0| >= 4 + |KernelSlots(c, 3)| {
      stack, u := free0[0], free0[2 + |KernelSlots(c, 3)|];
      JoinedWorld(m0, owner0, h.mem, h.owner, c, kpgdir, t.proc[slot].pgdir, stack);
      ReadyHalf(h.mem, h.owner, c, t.proc[slot], stack, u, init, trapret, enterProcess);
      StackStarts(proc0, slot, pid, stack, free0[1]);
    }
  }

  lemma ReadyHalf(m: Memory, owner: Owners, c: Platform, p: Pcb, stack: nat, u: nat, init: seq<Byte>,
                  trapret: Word, enterProcess: Word)
    requires Ready(m, owner, c, p, stack, u, init, trapret, enterProcess)
    ensures KernelHalf(m, p.pgdir, c)
  {
  }

  lemma JoinedWorld(m0: Memory, owner0: Owners, m: Memory, owner: Owners, c: Platform, k: nat, d: nat, f: nat)
    requires Joined(m0, owner0, m, owner, d, {f}) && HeldExactly(owner0, {} + ({} + {})) && InRam(owner0, c)
    requires (forall e: nat :: e in {k} <==> IsDir(owner0, e)) && KernelHalf(m0, k, c)
    ensures KernelHalf(m, k, c) && (forall e: nat :: e in {k, d} <==> IsDir(owner, e))
    ensures HeldExactly(owner, {} + ({f} + {})) && InRam(owner, c)
  {
    hide Lookup, KernelEntry;
    assert forall e: nat :: IsDir(owner0, e) <==> e == k;
  }

  lemma StackStarts(proc: seq<Pcb>, slot: nat, pid: nat, f: nat, d: nat)
    requires |proc| == Sched.NPROC && (forall q | 0 <= q < |proc| :: proc[q].state.Unused?) && f < UPAGES
    requires FirstUnused(proc, slot) && proc[0].state.Unused?
    ensures slot == 0 && StacksOk(proc[slot := Started(proc[slot], pid, Ptr(f), d)], {f})
  {
    hide StackAddr, InitName;
    var proc' := proc[slot := Started(proc[slot], pid, Ptr(f), d)];
    assert Used(proc'[slot]) && proc'[slot].kstack == Ptr(f) && PtrFrame(Ptr(f)) == f;
  }
}

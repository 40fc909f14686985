/** Process creation in kernel/proc.c: process_alloc, initproc_init and the stack they forge. */
module Proc {
  import opened Layout
  import opened Kalloc
  import opened PageTables
  import opened Mapping
  import opened Unmapping
  import opened AddressSpaces
  import opened Lifecycle
  import opened Bytes
  import opened Sched

  const KSTACKSIZE := 4096
  const SZ_TRAPFRAME := 64
  const SZ_CONTEXT := 20

  // Word positions in the kernel stack page, from the top down.
  const TF := (KSTACKSIZE - SZ_TRAPFRAME) / 4
  const RETADDR := TF - 1
  const CONTEXT := RETADDR - SZ_CONTEXT / 4

  /** The context and return address process_alloc leaves under the trap frame. */
  ghost predicate Forged(page: Frame, trapret: Word, enterProcess: Word) {
    && page[RETADDR] == trapret
    && page[CONTEXT] == 0 && page[CONTEXT + 1] == 0 && page[CONTEXT + 2] == 0 && page[CONTEXT + 3] == 0
    && page[CONTEXT + 4] == enterProcess
  }

  /** The trap frame initproc_init fills in, field by field of struct interrupt_state. */
  ghost predicate UserFrame(page: Frame) {
    && page[TF] == 0x23                                            // ds
    && (forall i | TF < i < TF + 11 :: page[i] == 0)               // registers, int_no, err_code
    && page[TF + 11] == 0                                          // eip
    && page[TF + 12] == 0x1B                                       // cs
    && page[TF + 13] == 0x200                                      // eflags
    && page[TF + 14] == PGSIZE                                     // esp
    && page[TF + 15] == 0x23                                       // ss
  }

  /** A word stored in a frame that is part of no translation. */
  method StoreHeld(h: Heap, f: nat, i: nat, w: Word)
    requires Good(h) && f in h.owner && InUse(h.owner[f]) && f < PAGES && i < ENTRIES
    modifies h`mem
    ensures Good(h) && OnlyFrame(old(h.mem), h.mem, f) && h.mem[f] == old(h.mem[f])[i := w]
    ensures forall e: nat, v: nat | IsDir(h.owner, e) :: Lookup(h.mem, e, v) == Lookup(old(h.mem), e, v)
  {
    hide Chain, FreeExactly, Linked, Lookup, Poked;
    h.Store(f, i, w);
    LinkedFrames(old(h.mem), h.owner);
    OtherFrame(old(h.mem), h.owner, h.mem, h.owner, f);
  }

  /** memset(p, 0, 4 * n) over whole words of a frame the caller holds. */
  method ZeroWords(h: Heap, f: nat, at: nat, n: nat)
    requires Good(h) && f in h.owner && h.owner[f].Held? && f < PAGES && at + n <= ENTRIES
    modifies h`mem
    ensures Good(h) && OnlyFrame(old(h.mem), h.mem, f)
    ensures forall i | 0 <= i < ENTRIES :: h.mem[f][i] == if at <= i < at + n then 0 else old(h.mem[f][i])
    ensures forall e: nat, v: nat | IsDir(h.owner, e) :: Lookup(h.mem, e, v) == Lookup(old(h.mem), e, v)
  {
    hide Chain, FreeExactly, Linked, Lookup;
    for k := 0 to n
      invariant Good(h) && OnlyFrame(old(h.mem), h.mem, f)
      invariant forall i | 0 <= i < ENTRIES :: h.mem[f][i] == if at <= i < at + k then 0 else old(h.mem[f][i])
      invariant forall e: nat, v: nat | IsDir(h.owner, e) :: Lookup(h.mem, e, v) == Lookup(old(h.mem), e, v)
    {
      StoreHeld(h, f, at + k, 0);
    }
  }

  /** Address of word i of the stack page at kstack. */
  function StackAddr(kstack: Word, i: nat): (a: Word) {
    Wrap(kstack + 4 * i)
  }

  /** sp as process_alloc computes it, and the word of the page it points to. */
  lemma StackPointers(f: nat)
    requires f < UPAGES
    ensures var v := Ptr(f);
            && PtrFrame(v) == f
            && Wrap(Wrap(v + KSTACKSIZE) - SZ_TRAPFRAME) == StackAddr(v, TF) == v + 4 * TF
            && Wrap(StackAddr(v, TF) - 4) == StackAddr(v, RETADDR) == v + 4 * RETADDR
            && Wrap(StackAddr(v, RETADDR) - SZ_CONTEXT) == StackAddr(v, CONTEXT) == v + 4 * CONTEXT
            && StackAddr(v, RETADDR) % PGSIZE / 4 == RETADDR && PtrFrame(StackAddr(v, RETADDR)) == f
            && StackAddr(v, CONTEXT) % PGSIZE / 4 == CONTEXT && PtrFrame(StackAddr(v, CONTEXT)) == f
            && StackAddr(v, TF) % PGSIZE / 4 == TF && PtrFrame(StackAddr(v, TF)) == f
  {
    hide StackAddr, PtrFrame;
    StackWord(f, 0);
    StackWord(f, TF);
    StackWord(f, RETADDR);
    StackWord(f, CONTEXT);
    TopOfStack(f);
  }

  lemma StackWord(f: nat, i: nat)
    requires f < UPAGES && i < ENTRIES
    ensures var a := Ptr(f) + 4 * i;
            a < WORDS && StackAddr(Ptr(f), i) == a && a % PGSIZE / 4 == i && PtrFrame(a) == f
  {
    ModUnique(Ptr(f) + 4 * i, 4096, UPAGES + f, 4 * i);
  }

  lemma TopOfStack(f: nat)
    requires f < UPAGES
    ensures Wrap(Wrap(Ptr(f) + KSTACKSIZE) - SZ_TRAPFRAME) == Ptr(f) + 4 * TF
  {
  }

  /** Lays out the kernel stack at kstack: room for the trap frame, then trapret's address, then the context. */
  method ForgeStack(h: Heap, kstack: Word, trapret: Word, enterProcess: Word, ghost f: nat)
    returns (tf: Word, context: Word)
    requires Good(h) && f < UPAGES && kstack == Ptr(f) && f in h.owner && h.owner[f].Held?
    modifies h`mem
    ensures Good(h) && OnlyFrame(old(h.mem), h.mem, f) && Forged(h.mem[f], trapret, enterProcess)
    ensures tf == StackAddr(kstack, TF) && context == StackAddr(kstack, CONTEXT)
    ensures forall e: nat, v: nat | IsDir(h.owner, e) :: Lookup(h.mem, e, v) == Lookup(old(h.mem), e, v)
  {
    hide Chain, FreeExactly, Linked, Lookup, StackAddr, PtrFrame, Ptr, Forged;
    StackPointers(f);
    ghost var page := h.mem[f];
    var sp := Wrap(kstack + KSTACKSIZE);
    sp := Wrap(sp - SZ_TRAPFRAME);
    tf := sp;
    sp := Wrap(sp - 4);
    StoreHeld(h, PtrFrame(sp), sp % PGSIZE / 4, trapret);
    sp := Wrap(sp - SZ_CONTEXT);
    context := sp;
    ZeroWords(h, PtrFrame(context), context % PGSIZE / 4, SZ_CONTEXT / 4);
    ForgedBy(page, h.mem[f], trapret, enterProcess);
    StoreHeld(h, PtrFrame(context), context % PGSIZE / 4 + 4, enterProcess);
  }

  lemma ForgedBy(page: Frame, zeroed: Frame, trapret: Word, enterProcess: Word)
    requires forall i | 0 <= i < ENTRIES ::
               zeroed[i] == if CONTEXT <= i < CONTEXT + SZ_CONTEXT / 4 then 0 else page[RETADDR := trapret][i]
    ensures Forged(zeroed[CONTEXT + 4 := enterProcess], trapret, enterProcess)
  {
  }

  /** Fills in the trap frame at tf: user segments, interrupts on, entry at 0 with a stack at PGSIZE. */
  method FillTrapFrame(h: Heap, tf: Word, ghost f: nat)
    requires Good(h) && f < UPAGES && tf == StackAddr(Ptr(f), TF) && f in h.owner && h.owner[f].Held?
    modifies h`mem
    ensures Good(h) && OnlyFrame(old(h.mem), h.mem, f) && UserFrame(h.mem[f])
    ensures forall i | 0 <= i < TF :: h.mem[f][i] == old(h.mem[f][i])
    ensures forall e: nat, v: nat | IsDir(h.owner, e) :: Lookup(h.mem, e, v) == Lookup(old(h.mem), e, v)
  {
    hide Chain, FreeExactly, Linked, Lookup, StackAddr, PtrFrame, Ptr, UserFrame;
    StackPointers(f);
    var g, at := PtrFrame(tf), tf % PGSIZE / 4;
    ZeroWords(h, g, at, SZ_TRAPFRAME / 4);
    FilledBy(old(h.mem)[f], h.mem[f]);
    StoreHeld(h, g, at + 12, 0x1B);
    StoreHeld(h, g, at, 0x23);
    StoreHeld(h, g, at + 15, h.mem[g][at]);
    StoreHeld(h, g, at + 13, 0x200);
    StoreHeld(h, g, at + 14, PGSIZE);
    StoreHeld(h, g, at + 11, 0);
  }

  lemma FilledBy(page: Frame, zeroed: Frame)
    requires forall i | 0 <= i < ENTRIES :: zeroed[i] == if TF <= i < TF + SZ_TRAPFRAME / 4 then 0 else page[i]
    ensures var p := zeroed[TF + 12 := 0x1B][TF := 0x23][TF + 15 := 0x23]
                     [TF + 13 := 0x200][TF + 14 := PGSIZE][TF + 11 := 0];
            UserFrame(p) && forall i | 0 <= i < TF :: p[i] == page[i]
  {
  }

  type Name = s: seq<Byte> | |s| == 16 witness seq(16, _ => 0)

  /** struct process; the page directory is the number of its frame. */
  datatype Pcb = Pcb(
    name: Name, pid: nat, context: Word, state: PState, pgdir: nat, kstack: Word, sz: Word, tf: Word)

  /** The process table. */
  class Table {
    var proc: seq<Pcb>
    var nextpid: nat
    var initproc: Option<nat>

    ghost predicate Valid()
      reads this
    {
      |proc| == NPROC && nextpid < 0x1_0000
    }
  }

  ghost predicate FirstUnused(proc: seq<Pcb>, p: nat) {
    p < |proc| && proc[p].state.Unused? && forall q | 0 <= q < p :: !proc[q].state.Unused?
  }

  ghost predicate Full(proc: seq<Pcb>) {
    forall q | 0 <= q < |proc| :: !proc[q].state.Unused?
  }

  /** Slot p after process_alloc: the pid is used up even when no stack (kstack 0) can be had. */
  function Allocated(p: Pcb, pid: nat, kstack: Word): (r: Pcb)
    ensures r.pid == pid && r.kstack == kstack && r.name == p.name && r.pgdir == p.pgdir && r.sz == p.sz
    ensures kstack == 0 ==> r.state == p.state && r.tf == p.tf && r.context == p.context
    ensures 0 < kstack < 0xFFFF_F000 ==>
              r.state.Initial? && r.tf == kstack + 4096 - 64 && r.context == kstack + 4096 - 64 - 4 - 20
  {
    if kstack == 0 then p.(pid := pid, kstack := 0)
    else p.(pid := pid, state := Initial, kstack := kstack,
            tf := StackAddr(kstack, TF), context := StackAddr(kstack, CONTEXT))
  }

  /** Takes the first UNUSED slot and gives it a pid and a kernel stack with a forged context on it. */
  method ProcessAlloc(t: Table, h: Heap, trapret: Word, enterProcess: Word)
    returns (slot: Option<nat>, ghost first: nat)
    requires t.Valid() && Good(h) && t as object != h
    modifies t`proc, t`nextpid, h`mem, h`freelist, h`free, h`owner
    ensures t.Valid() && Good(h)
    ensures slot.None? <==> Full(old(t.proc)) || old(h.free) == []
    ensures !Full(old(t.proc)) ==> FirstUnused(old(t.proc), first)
    ensures first < NPROC
    ensures t.nextpid == if Full(old(t.proc)) then old(t.nextpid) else (old(t.nextpid) + 1) % 0x1_0000
    ensures slot.None? ==> h.mem == old(h.mem) && h.free == old(h.free) && h.owner == old(h.owner)
    ensures slot.None? ==>
              t.proc == if Full(old(t.proc)) then old(t.proc)
                        else old(t.proc)[first := Allocated(old(t.proc)[first], old(t.nextpid), 0)]
    ensures slot.Some? ==>
              && old(h.free) != [] && slot.value == first && old(h.free)[0] < UPAGES
              && t.proc == old(t.proc)[first := Allocated(old(t.proc)[first], old(t.nextpid), Ptr(old(h.free)[0]))]
              && old(h.free)[0] in old(h.owner) && old(h.owner)[old(h.free)[0]].Free?
              && h.free == old(h.free)[1..] && h.owner == old(h.owner)[old(h.free)[0] := Held]
              && OnlyFrame(old(h.mem), h.mem, old(h.free)[0])
              && Forged(h.mem[old(h.free)[0]], trapret, enterProcess)
    ensures forall e: nat, v: nat | IsDir(h.owner, e) :: Lookup(h.mem, e, v) == Lookup(old(h.mem), e, v)
  {
    hide Chain, FreeExactly, Linked, Lookup, Forged, StackAddr;
    first := 0;
    var p := 0;
    while p < NPROC && t.proc[p].state != Unused
      invariant 0 <= p <= NPROC
      invariant forall q | 0 <= q < p :: !t.proc[q].state.Unused?
    {
      p := p + 1;
    }
    if p == NPROC {
      return None, first;
    }
    first := p;
    t.proc := t.proc[p := t.proc[p].(state := Initial, pid := t.nextpid)];
    t.nextpid := (t.nextpid + 1) % 0x1_0000;
    LinkedFrames(h.mem, h.owner);
    ghost var m0, owner0 := h.mem, h.owner;
    var v := h.Kalloc();
    t.proc := t.proc[p := t.proc[p].(kstack := v)];
    if v == 0 {
      t.proc := t.proc[p := t.proc[p].(state := Unused)];
      return None, first;
    }
    ghost var f := PtrFrame(v);
    OtherFrame(m0, owner0, h.mem, h.owner, f);
    var tf, context := ForgeStack(h, v, trapret, enterProcess, f);
    t.proc := t.proc[p := t.proc[p].(tf := tf, context := context)];
    return Some(p), first;
  }

  /** What initproc_init leaves: a RUNNABLE process with its stack, its directory and its one user page. */
  ghost predicate Ready(m: Memory, owner: Owners, c: Platform, p: Pcb, stack: nat, u: nat, init: seq<Byte>,
                        trapret: Word, enterProcess: Word)
  {
    && p.state.Runnable? && p.sz == PGSIZE
    && stack < UPAGES && p.kstack == Ptr(stack) && IsHeld(owner, stack)
    && p.context == StackAddr(p.kstack, CONTEXT) && p.tf == StackAddr(p.kstack, TF)
    && Forged(m[stack], trapret, enterProcess) && UserFrame(m[stack])
    && SpaceBuilt(m, owner, c, p.pgdir) && UserPage(m, owner, p.pgdir, u, init)
  }

  /** Directory d has the kernel half of setupkvm and no user page but perhaps page 0. */
  ghost predicate SpaceBuilt(m: Memory, owner: Owners, c: Platform, d: nat) {
    && IsDir(owner, d) && KernelHalf(m, d, c)
    && (forall v: nat | 0 < v < UPAGES :: Lookup(m, d, v).None?)
  }

  /** strncpy(name, "init", 15): padded with nuls, the last byte left alone. */
  function InitName(name: Name): (r: Name)
    ensures forall k | 0 <= k < 16 :: r[k] == if k < 4 then "init"[k] as int else if k < 15 then 0 else name[k]
  {
    [105, 110, 105, 116] + seq(11, _ => 0) + name[15..]
  }

  /**
    A process more: its directory joined the others, the frames of held joined those handed out,
    nothing else changed.
   */
  ghost predicate Joined(m0: Memory, owner0: Owners, m: Memory, owner: Owners, d: nat, held: set<nat>) {
    && owner.Keys == owner0.Keys
    && (forall e: nat :: IsDir(owner, e) <==> e == d || IsDir(owner0, e))
    && (forall e: nat, v: nat | IsDir(owner0, e) && v < PAGES :: Lookup(m, e, v) == Lookup(m0, e, v))
    && (forall f: nat :: IsHeld(owner, f) <==> IsHeld(owner0, f) || f in held)
    && (forall f: nat | f in held :: f in owner0 && owner0[f].Free?)
    && d in owner0 && owner0[d].Free?
  }

  /** Slot p of the table after initproc_init. */
  function Started(p: Pcb, pid: nat, kstack: Word, pgdir: nat): (r: Pcb)
    ensures r.pid == pid && r.kstack == kstack && r.pgdir == pgdir && r.sz == 4096 && r.state.Runnable?
    ensures r.name == InitName(p.name)
    ensures 0 < kstack < 0xFFFF_F000 ==> r.tf == kstack + 4096 - 64 && r.context == kstack + 4096 - 64 - 4 - 20
  {
    Pcb(InitName(p.name), pid, StackAddr(kstack, CONTEXT), Runnable, pgdir, kstack, PGSIZE, StackAddr(kstack, TF))
  }

  /** The setupkvm and inituvm calls of initproc_init, for a process whose stack is frame f. */
  method BuildSpace(h: Heap, c: Platform, init: seq<Byte>, ghost f: nat) returns (r: Status, pgdir: nat)
    requires Good(h) && Wired(c) && IsHeld(h.owner, f) && f < UPAGES
    modifies h`mem, h`freelist, h`free, h`owner
    ensures Good(h) && !r.Fail?
    ensures r.Ok? <==> Apart(c, 3) && |init| < PGSIZE && |old(h.free)| >= 2 + |KernelSlots(c, 3)|
    ensures r.Ok? ==>
              && pgdir == old(h.free)[0] && SpaceBuilt(h.mem, h.owner, c, pgdir)
              && h.mem[f] == old(h.mem[f]) && IsHeld(h.owner, f) && f != old(h.free)[1 + |KernelSlots(c, 3)|]
    ensures r.Ok? && |old(h.free)| >= 3 + |KernelSlots(c, 3)| ==>
              && UserPage(h.mem, h.owner, pgdir, old(h.free)[1 + |KernelSlots(c, 3)|], init)
              && Joined(old(h.mem), old(h.owner), h.mem, h.owner, pgdir, {})
    ensures r.Ok? && |old(h.free)| == 2 + |KernelSlots(c, 3)| ==>
              && Lookup(h.mem, pgdir, 0).None?
              && Joined(old(h.mem), old(h.owner), h.mem, h.owner, pgdir, {old(h.free)[1 + |KernelSlots(c, 3)|]})
  {
    hide Chain, FreeExactly, Linked, Lookup, Stage, Apart, KernelSlots, PageZeroOnly, Untouched, Holds, KernelHalf,
      Joined, SpaceOwners, UserPage;
    ghost var m1, free1, owner1 := h.mem, h.free, h.owner;
    r, pgdir := Setupkvm(h, c);
    if !r.Ok? {
      return;
    }
    ghost var m2, free2, owner2 := h.mem, h.free, h.owner;
    FreshSpace(m1, free1, owner1, m2, free2, owner2, pgdir, c);
    r := Inituvm(h, pgdir, init);
    if !r.Ok? {
      return;
    }
    ghost var u := free2[0];
    OnFreeList(free2, owner2);
    StackKept(m1, owner1, m2, owner2, h.mem, h.owner, c, pgdir, u, f);
    JoinedBy(m1, owner1, m2, owner2, h.mem, h.owner, pgdir, u);
    PageNotHeld(h.mem, h.owner, pgdir, u, init);
  }

  lemma PageNotHeld(m: Memory, owner: Owners, d: nat, u: nat, init: seq<Byte>)
    ensures UserPage(m, owner, d, u, init) ==> !IsHeld(owner, u)
  {
    hide Lookup, Holds;
  }

  /** setupkvm and inituvm together. */
  lemma JoinedBy(m1: Memory, owner1: Owners, m2: Memory, owner2: Owners, m3: Memory, owner3: Owners, d: nat, u: nat)
    requires SpaceOwners(owner1, owner2, d) && PageZeroOnly(m2, owner2, m3, owner3, d, u)
    requires u in owner2 && owner2[u].Free?
    requires forall e: nat, v: nat | IsDir(owner1, e) && v < PAGES :: Lookup(m2, e, v) == Lookup(m1, e, v)
    ensures Joined(m1, owner1, m3, owner3, d, if IsHeld(owner3, u) then {u} else {})
  {
    hide Lookup;
    assert forall e: nat :: IsDir(owner3, e) <==> e == d || IsDir(owner1, e);
  }

  /** The stack's frame joins as well, and filling it in changes nothing. */
  lemma JoinedStack(m0: Memory, owner0: Owners, m1: Memory, m2: Memory, owner: Owners, m: Memory, d: nat, f: nat,
                    held: set<nat>)
    requires f in owner0 && owner0[f].Free? && Joined(m1, owner0[f := Held], m2, owner, d, held)
    requires forall e: nat, v: nat | IsDir(owner0, e) :: Lookup(m1, e, v) == Lookup(m0, e, v)
    requires forall e: nat, v: nat | IsDir(owner, e) :: Lookup(m, e, v) == Lookup(m2, e, v)
    ensures Joined(m0, owner0, m, owner, d, {f} + held)
  {
    hide Lookup;
  }

  /**
    Creates the first process and makes it RUNNABLE. With one frame too few it becomes RUNNABLE
    without its page.
   */
  method InitprocInit(t: Table, h: Heap, c: Platform, init: seq<Byte>, trapret: Word, enterProcess: Word)
    returns (r: Status, slot: nat)
    requires t.Valid() && Good(h) && t as object != h && Wired(c)
    modifies t, h`mem, h`freelist, h`free, h`owner
    ensures t.Valid() && Good(h) && !r.Fail?
    ensures r.Ok? <==>
              && !Full(old(t.proc)) && Apart(c, 3) && |init| < PGSIZE
              && |old(h.free)| >= 3 + |KernelSlots(c, 3)|
    ensures r.Ok? ==>
              && FirstUnused(old(t.proc), slot) && t.initproc == Some(slot) && old(h.free)[0] < UPAGES
              && t.proc == old(t.proc)[slot :=
                   Started(old(t.proc)[slot], old(t.nextpid), Ptr(old(h.free)[0]), old(h.free)[1])]
    ensures r.Ok? && |old(h.free)| >= 4 + |KernelSlots(c, 3)| ==>
              var stack, u := old(h.free)[0], old(h.free)[2 + |KernelSlots(c, 3)|];
              && Ready(h.mem, h.owner, c, t.proc[slot], stack, u, init, trapret, enterProcess)
              && Joined(old(h.mem), old(h.owner), h.mem, h.owner, t.proc[slot].pgdir, {stack})
    ensures r.Ok? && |old(h.free)| == 3 + |KernelSlots(c, 3)| ==>
              var stack, u := old(h.free)[0], old(h.free)[2 + |KernelSlots(c, 3)|];
              && Lookup(h.mem, t.proc[slot].pgdir, 0).None?
              && Joined(old(h.mem), old(h.owner), h.mem, h.owner, t.proc[slot].pgdir, {stack, u})
  {
    hide Chain, FreeExactly, Linked, Lookup, Apart, KernelSlots, Forged, UserFrame, Holds, KernelHalf, FirstUnused,
      Full, Joined, StackAddr, InitName, UserPage, SpaceBuilt, Ready;
    slot := 0;
    ghost var m0, free0, owner0 := h.mem, h.free, h.owner;
    var p, first := ProcessAlloc(t, h, trapret, enterProcess);
    if p.None? {
      return Panic("assert"), slot;
    }
    slot := p.value;
    t.initproc := Some(slot);
    ghost var f, m1 := free0[0], h.mem;
    var pgdir;
    r, pgdir := BuildSpace(h, c, init, f);
    if !r.Ok? {
      return;
    }
    ghost var m2 := h.mem;
    FillTrapFrame(h, t.proc[slot].tf, f);
    t.proc := t.proc[slot := t.proc[slot].(pgdir := pgdir, sz := PGSIZE)];
    t.proc := t.proc[slot := t.proc[slot].(name := InitName(t.proc[slot].name), state := Runnable)];
    ghost var u := free0[2 + |KernelSlots(c, 3)|];
    ForgedKept(m1, m2, h.mem, f, trapret, enterProcess);
    if |free0| >= 4 + |KernelSlots(c, 3)| {
      JoinedStack(m0, owner0, m1, m2, h.owner, h.mem, pgdir, f, {});
      FrameFilled(m2, h.mem, h.owner, c, pgdir, u, f, init);
      ReadyWith(h.mem, h.owner, c, t.proc[slot], f, u, init, trapret, enterProcess);
      assert {f} + {} == {f};
    } else {
      JoinedStack(m0, owner0, m1, m2, h.owner, h.mem, pgdir, f, {u});
      BuiltDir(m2, h.owner, c, pgdir);
      assert {f} + {u} == {f, u};
    }
  }

  lemma BuiltDir(m: Memory, owner: Owners, c: Platform, d: nat)
    requires SpaceBuilt(m, owner, c, d)
    ensures IsDir(owner, d)
  {
  }

  lemma ReadyWith(m: Memory, owner: Owners, c: Platform, p: Pcb, stack: nat, u: nat, init: seq<Byte>,
                  trapret: Word, enterProcess: Word)
    requires p.state.Runnable? && p.sz == PGSIZE && stack < UPAGES && p.kstack == Ptr(stack) && IsHeld(owner, stack)
    requires p.context == StackAddr(p.kstack, CONTEXT) && p.tf == StackAddr(p.kstack, TF)
    requires Forged(m[stack], trapret, enterProcess) && UserFrame(m[stack])
    requires SpaceBuilt(m, owner, c, p.pgdir) && UserPage(m, owner, p.pgdir, u, init)
    ensures Ready(m, owner, c, p, stack, u, init, trapret, enterProcess)
  {
  }

  /** The stack survives the construction of the address space, and so does the rest of that space. */
  lemma StackKept(m1: Memory, owner1: Owners, m2: Memory, owner2: Owners, m3: Memory, owner3: Owners,
                  c: Platform, d: nat, u: nat, f: nat)
    requires f in owner1 && owner1[f].Held? && f < PAGES && SpaceOwners(owner1, owner2, d)
    requires Untouched(m1, owner1, m2, owner2) && PageZeroOnly(m2, owner2, m3, owner3, d, u)
    requires u in owner2 && owner2[u].Free? && KernelHalf(m2, d, c)
    requires forall v: nat | v < UPAGES :: Lookup(m2, d, v).None?
    ensures m3[f] == m1[f] && f in owner3 && owner3[f].Held? && f != u
    ensures IsDir(owner3, d) && KernelHalf(m3, d, c) && forall v: nat | 0 < v < UPAGES :: Lookup(m3, d, v).None?
  {
    hide Lookup, KernelEntry;
  }

  lemma ForgedKept(m1: Memory, m3: Memory, m: Memory, f: nat, trapret: Word, enterProcess: Word)
    requires f < PAGES && m3[f] == m1[f] && (forall i | 0 <= i < TF :: m[f][i] == m3[f][i])
    ensures Forged(m1[f], trapret, enterProcess) ==> Forged(m[f], trapret, enterProcess)
  {
  }

  lemma FrameFilled(m: Memory, m': Memory, owner: Owners, c: Platform, d: nat, u: nat, f: nat, init: seq<Byte>)
    requires OnlyFrame(m, m', f) && f != u && SpaceBuilt(m, owner, c, d)
    requires forall e: nat, v: nat | IsDir(owner, e) :: Lookup(m', e, v) == Lookup(m, e, v)
    ensures SpaceBuilt(m', owner, c, d)
    ensures UserPage(m, owner, d, u, init) ==> UserPage(m', owner, d, u, init)
  {
    hide Lookup, KernelEntry, Holds;
  }
}

/** The first dispatch of a new process: from the scheduler's swtch to user mode. */
module FirstRun {
  import opened Layout
  import Kalloc
  import PageTables
  import AddressSpaces
  import opened Bytes
  import opened Machine
  import opened Coroutines
  import opened Traps
  import opened Proc

  function WordAddr(base: int, i: int): (a: int) {
    base + 4 * i
  }

  /** The words of the frame page, from word lo on, lie at address base. */
  ghost predicate PageFrom(m: Mem, base: Word, page: Kalloc.Frame, lo: nat) {
    forall i | lo <= i < 1024 :: WordAddr(base, i) in m && m[WordAddr(base, i)] == page[i]
  }

  lemma PageWord(m: Mem, base: Word, page: Kalloc.Frame, lo: nat, i: nat)
    requires PageFrom(m, base, page, lo) && lo <= i < 1024
    ensures base + 4 * i in m && At(m, base + 4 * i) == page[i]
  {
    assert WordAddr(base, i) in m;
  }

  /** The forged stack is that of a thread that called swtch with zeroed registers from the start of enter_process. */
  lemma ForgedSuspended(m: Mem, base: Word, page: Kalloc.Frame, slot: int, trapret: Word, enterProcess: Word)
    requires base % 4 == 0 && base + KSTACKSIZE < WORDS && PageFrom(m, base, page, 0)
             && Forged(page, trapret, enterProcess)
    requires At(m, slot) == base + 4 * CONTEXT
    ensures Suspended(m, Thread(base, base + KSTACKSIZE, slot), Frame(0, 0, 0, 0, base + 4 * RETADDR, enterProcess))
  {
    PageWord(m, base, page, 0, CONTEXT);
    PageWord(m, base, page, 0, CONTEXT + 1);
    PageWord(m, base, page, 0, CONTEXT + 2);
    PageWord(m, base, page, 0, CONTEXT + 3);
    PageWord(m, base, page, 0, CONTEXT + 4);
  }

  /** The frame initproc_init filled in. */
  const USER_FRAME := TrapFrame(0x23, 0, 0, 0, 0, 0, 0, 0, 0, 0, 0, 0, 0x1B, 0x200, 0x1000, 0x23)

  lemma FilledFrame(m: Mem, base: Word, page: Kalloc.Frame)
    requires PageFrom(m, base, page, RETADDR) && UserFrame(page)
    ensures FrameAt(m, base + 4 * TF, USER_FRAME, true)
  {
    hide PageFrom;
    PageWord(m, base, page, RETADDR, TF);
    PageWord(m, base, page, RETADDR, TF + 1);
    PageWord(m, base, page, RETADDR, TF + 2);
    PageWord(m, base, page, RETADDR, TF + 3);
    PageWord(m, base, page, RETADDR, TF + 4);
    PageWord(m, base, page, RETADDR, TF + 5);
    PageWord(m, base, page, RETADDR, TF + 6);
    PageWord(m, base, page, RETADDR, TF + 7);
    PageWord(m, base, page, RETADDR, TF + 8);
    PageWord(m, base, page, RETADDR, TF + 9);
    PageWord(m, base, page, RETADDR, TF + 10);
    PageWord(m, base, page, RETADDR, TF + 11);
    PageWord(m, base, page, RETADDR, TF + 12);
    PageWord(m, base, page, RETADDR, TF + 13);
    PageWord(m, base, page, RETADDR, TF + 14);
    PageWord(m, base, page, RETADDR, TF + 15);
  }

  /** The scheduler's call of swtch(&c->scheduler, p->context), thread i being the scheduler and j the process. */
  function Dispatch(th: seq<Thread>, c: Cpu, i: nat, j: nat, back: Word): (t: Option<Cpu>)
    requires i < |th| && j < |th| && c.esp >= 12 && 0 <= th[i].slot < WORDS
  {
    Exec(Call(c, th[i].slot, At(c.mem, th[j].slot), back), Swtch(), 0)
  }

  /**
    State c of enter_process at its ret, after swtch left state t: the stack from the stack pointer
    up is as it was.
   */
  ghost predicate AtReturn(t: Cpu, c: Cpu, kstack: Word) {
    && c.cs == t.cs && c.esp == t.esp
    && (forall a: int :: a in c.mem <==> kstack <= a < kstack + KSTACKSIZE && a % 4 == 0)
    && (forall a: int | a >= c.esp && a in c.mem :: c.mem[a] == At(t.mem, a))
  }

  /**
    From the scheduler's call of swtch to the first user instruction, for a process as
    initproc_init leaves it: its stack page and its context pointer are what the machine's memory
    shows at kstack and at the slot of thread j. swtch lands at enter_process. Whatever
    enter_process does below its stack pointer, its ret goes to trapret, and trapret goes to user
    mode at eip 0 with a stack at 0x1000, interrupts on and every general register 0. The last
    word taken is the top one of the kernel stack, and from enter_process's ret on no word outside
    the stack page is touched.
   */
  lemma FirstDispatch(th: seq<Thread>, c0: Cpu, i: nat, j: nat, back: Word, m: Kalloc.Memory, owner: PageTables.Owners,
                      plat: AddressSpaces.Platform, p: Pcb, stack: nat, u: nat, init: seq<Byte>,
                      trapret: Word, enterProcess: Word, c: Cpu)
    requires Ready(m, owner, plat, p, stack, u, init, trapret, enterProcess)
    requires Apart(th) && Mapped(c0.mem, th) && i < |th| && j < |th| && i != j
    requires 28 <= c0.esp && th[i].lo <= c0.esp - 28 && c0.esp <= th[i].hi && c0.esp % 4 == 0 && c0.cs % 4 == 0
    requires th[j].lo == p.kstack && th[j].hi == p.kstack + KSTACKSIZE
    requires PageFrom(c0.mem, p.kstack, m[stack], 0) && At(c0.mem, th[j].slot) == p.context
    requires Dispatch(th, c0, i, j, back).Some? ==> AtReturn(Dispatch(th, c0, i, j, back).value, c, p.kstack)
    ensures var s := Dispatch(th, c0, i, j, back);
            s.Some? && s.value.eip == enterProcess && s.value.esp == p.kstack + 4 * RETADDR
    ensures Exec(c, [Ret], 0) == Some(c.(eip := trapret, esp := p.tf))
    ensures Exec(c.(eip := trapret, esp := p.tf), Trapret(), 0) ==
            Some(c.(eip := 0, cs := 0x1B, ss := 0x23, ds := 0x23, es := 0x23, fs := 0x23, gs := 0x23, esp := 0x1000,
                    eflags := 0x200, eax := 0, ebx := 0, ecx := 0, edx := 0, esi := 0, edi := 0, ebp := 0))
    ensures p.tf + SZ_TRAPFRAME == p.kstack + KSTACKSIZE
  {
    hide Exec, Swtch, Trapret, Apart, Mapped, Forged, UserFrame, PageFrom, SpaceBuilt, AddressSpaces.UserPage,
      StackAddr, Dispatch, Spared, AtReturn;
    StackPointers(stack);
    StackFits(c0.mem, th, i, j, stack);
    SwitchIn(th, c0, i, j, back, p.kstack, m[stack], trapret, enterProcess);
    var t := Dispatch(th, c0, i, j, back).value;
    TopKept(c0.mem, t, th[j], m[stack], c);
    EnterUser(p.kstack, m[stack], trapret, enterProcess, c);
  }

  lemma StackFits(m: Mem, th: seq<Thread>, i: nat, j: nat, stack: nat)
    requires Mapped(m, th) && i < |th| && j < |th| && stack < UPAGES && th[j].hi == Kalloc.Ptr(stack) + KSTACKSIZE
    ensures Kalloc.Ptr(stack) + KSTACKSIZE < WORDS && Kalloc.Ptr(stack) % 4 == 0 && 0 <= th[i].slot < WORDS
  {
  }

  /** The scheduler's half: swtch lands at enter_process and does not touch the new stack. */
  lemma SwitchIn(th: seq<Thread>, c0: Cpu, i: nat, j: nat, back: Word, base: Word, page: Kalloc.Frame,
                 trapret: Word, enterProcess: Word)
    requires Apart(th) && Mapped(c0.mem, th) && i < |th| && j < |th| && i != j && 0 <= th[i].slot < WORDS
    requires 28 <= c0.esp && th[i].lo <= c0.esp - 28 && c0.esp <= th[i].hi && c0.esp % 4 == 0
    requires base % 4 == 0 && base + KSTACKSIZE < WORDS && th[j].lo == base && th[j].hi == base + KSTACKSIZE
    requires PageFrom(c0.mem, base, page, 0) && Forged(page, trapret, enterProcess)
    requires At(c0.mem, th[j].slot) == base + 4 * CONTEXT
    ensures var s := Dispatch(th, c0, i, j, back);
            && s.Some? && s.value.eip == enterProcess && s.value.esp == base + 4 * RETADDR && s.value.cs == c0.cs
            && Spared(c0.mem, s.value.mem, th[j])
  {
    hide Exec, Swtch, Suspended, Apart, Mapped, Forged, PageFrom, Call, Spared, Within;
    ForgedSuspended(c0.mem, base, page, th[j].slot, trapret, enterProcess);
    assert th[j] == Thread(base, base + KSTACKSIZE, th[j].slot);
    SwitchStep(th, c0, i, j, back, Frame(0, 0, 0, 0, base + 4 * RETADDR, enterProcess));
    OthersSpared(th, c0.mem, Dispatch(th, c0, i, j, back).value.mem, i, j);
  }

  /** At its ret enter_process finds the top of the stack as process_alloc and initproc_init left it. */
  lemma TopKept(m: Mem, t: Cpu, th: Thread, page: Kalloc.Frame, c: Cpu)
    requires 0 <= th.lo < WORDS && th.lo % 4 == 0 && th.hi == th.lo + KSTACKSIZE && PageFrom(m, th.lo, page, 0)
    requires Spared(m, t.mem, th) && AtReturn(t, c, th.lo) && t.esp == th.lo + 4 * RETADDR
    ensures PageFrom(c.mem, th.lo, page, RETADDR) && c.esp == t.esp && c.cs == t.cs
  {
    forall i | RETADDR <= i < 1024 ensures WordAddr(th.lo, i) in c.mem && c.mem[WordAddr(th.lo, i)] == page[i] {
      PageWord(m, th.lo, page, 0, i);
    }
  }

  /** The process's half: the ret of enter_process and trapret. */
  lemma EnterUser(base: Word, page: Kalloc.Frame, trapret: Word, enterProcess: Word, c: Cpu)
    requires base + KSTACKSIZE < WORDS && Forged(page, trapret, enterProcess) && UserFrame(page)
    requires PageFrom(c.mem, base, page, RETADDR) && c.esp == base + 4 * RETADDR && c.cs % 4 == 0
    ensures Exec(c, [Ret], 0) == Some(c.(eip := trapret, esp := base + 4 * TF))
    ensures Exec(c.(eip := trapret, esp := base + 4 * TF), Trapret(), 0) ==
            Some(c.(eip := 0, cs := 0x1B, ss := 0x23, ds := 0x23, es := 0x23, fs := 0x23, gs := 0x23, esp := 0x1000,
                    eflags := 0x200, eax := 0, ebx := 0, ecx := 0, edx := 0, esi := 0, edi := 0, ebp := 0))
  {
    hide Exec, Trapret, UserFrame, PageFrom, FrameAt;
    PageWord(c.mem, base, page, RETADDR, RETADDR);
    RetNext(c, [Ret], 0);
    FilledFrame(c.mem, base, page);
    TrapretRuns(c.(eip := trapret, esp := base + 4 * TF), USER_FRAME);
  }
}

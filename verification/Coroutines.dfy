/** Threads that switch between their stacks with swtch. */
module Coroutines {
  import opened Layout
  import opened Machine

  /** A stack [lo, hi) and the word that keeps the thread's context pointer (p->context, c->scheduler). */
  datatype Thread = Thread(lo: int, hi: int, slot: int)

  /** What a thread finds in the registers when it is resumed. */
  datatype Frame = Frame(edi: Word, esi: Word, ebx: Word, ebp: Word, esp: Word, eip: Word)

  /** Stacks and context pointers do not overlap. */
  ghost predicate Apart(th: seq<Thread>) {
    && (forall i, j | 0 <= i < j < |th| ::
          (th[i].hi <= th[j].lo || th[j].hi <= th[i].lo) && th[i].slot != th[j].slot)
    && (forall i, j | 0 <= i < |th| && 0 <= j < |th| :: th[i].slot < th[j].lo || th[j].hi <= th[i].slot)
  }

  /** Memory is made of aligned words; every stack and every context pointer lies in it. */
  ghost predicate Mapped(m: Mem, th: seq<Thread>) {
    && (forall a | a in m :: a % 4 == 0)
    && (forall i | 0 <= i < |th| ::
          && 0 <= th[i].lo && th[i].hi < WORDS && 0 <= th[i].slot < WORDS && th[i].slot in m)
    && (forall i, a | 0 <= i < |th| && th[i].lo <= a < th[i].hi && a % 4 == 0 :: a in m)
  }

  /** The stack of a suspended thread, under its context pointer, holds frame f. */
  ghost predicate Suspended(m: Mem, t: Thread, f: Frame) {
    && t.lo <= f.esp - 20 && f.esp <= t.hi && f.esp % 4 == 0
    && At(m, t.slot) == f.esp - 20
    && At(m, f.esp - 20) == f.edi && At(m, f.esp - 16) == f.esi && At(m, f.esp - 12) == f.ebx
    && At(m, f.esp - 8) == f.ebp && At(m, f.esp - 4) == f.eip
  }

  /** The CPU, the thread it runs, and what each other thread is to find. */
  datatype Sys = Sys(cpu: Cpu, cur: nat, frames: seq<Frame>)

  datatype Event =
    | Work(cpu: Cpu)               // the running thread computes: any registers, any memory but the others' stacks
    | Switch(to: nat, ret: Word)   // it calls swtch(&own->slot, to->slot), to return to ret

  /** The call: both arguments and the return address pushed. */
  function Call(c: Cpu, slot: Word, new': Word, ret: Word): (t: Cpu)
    requires c.esp >= 12
  {
    c.(esp := c.esp - 12, mem := c.mem[c.esp - 4 := new'][c.esp - 8 := slot][c.esp - 12 := ret])
  }

  /** The stack of thread t and its context pointer are the same in both memories. */
  ghost predicate Spared(m: Mem, m': Mem, t: Thread) {
    forall a: int | t.lo <= a < t.hi || a == t.slot :: At(m', a) == At(m, a)
  }

  ghost predicate Step(th: seq<Thread>, s: Sys, e: Event, s': Sys) {
    && s.cur < |th| && |s.frames| == |th|
    && match e
       case Work(c) =>
         && s' == s.(cpu := c) && c.mem.Keys == s.cpu.mem.Keys
         && (forall j: nat | j < |th| && j != s.cur :: Spared(s.cpu.mem, c.mem, th[j]))
       case Switch(j, ret) =>
         && j < |th| && j != s.cur && 0 <= th[s.cur].slot < WORDS
         && 28 <= s.cpu.esp && th[s.cur].lo <= s.cpu.esp - 28 && s.cpu.esp <= th[s.cur].hi && s.cpu.esp % 4 == 0
         && var c := Call(s.cpu, th[s.cur].slot, At(s.cpu.mem, th[j].slot), ret);
            && Exec(c, Swtch(), 0).Some?
            && s' == Sys(Exec(c, Swtch(), 0).value, j, s.frames[s.cur := Left(s.cpu, ret)])
  }

  /** What a thread that calls swtch in state c must find when it is resumed. */
  function Left(c: Cpu, ret: Word): (f: Frame)
    requires c.esp >= 8
  {
    Frame(c.edi, c.esi, c.ebx, c.ebp, c.esp - 8, ret)
  }

  predicate Sees(c: Cpu, f: Frame) {
    c.edi == f.edi && c.esi == f.esi && c.ebx == f.ebx && c.ebp == f.ebp && c.esp == f.esp && c.eip == f.eip
  }

  ghost predicate Inv(th: seq<Thread>, s: Sys) {
    && Apart(th) && Mapped(s.cpu.mem, th) && s.cur < |th| && |s.frames| == |th|
    && (forall i: nat | i < |th| && i != s.cur :: Suspended(s.cpu.mem, th[i], s.frames[i]))
  }

  /** Memory m' is m but for the stack of thread t and its context pointer. */
  ghost predicate Within(m: Mem, m': Mem, t: Thread) {
    && m'.Keys == m.Keys
    && (forall a: int :: !(t.lo <= a < t.hi) && a != t.slot ==> At(m', a) == At(m, a))
  }

  /** What swtch does on one stack spares the others. */
  lemma OthersSpared(th: seq<Thread>, m: Mem, m': Mem, i: nat, j: nat)
    requires Apart(th) && i < |th| && j < |th| && i != j && Within(m, m', th[i])
    ensures Spared(m, m', th[j])
  {
    assert th[i].hi <= th[j].lo || th[j].hi <= th[i].lo;
    assert th[i].slot != th[j].slot;
    assert th[i].slot < th[j].lo || th[j].hi <= th[i].slot;
    assert th[j].slot < th[i].lo || th[i].hi <= th[j].slot;
  }

  /** A thread whose stack and context pointer are spared stays suspended with the same frame. */
  lemma OthersKept(m: Mem, m': Mem, t: Thread, f: Frame)
    requires Spared(m, m', t) && Suspended(m, t, f)
    ensures Suspended(m', t, f)
  {
  }

  lemma StackWord(m: Mem, th: seq<Thread>, i: nat, a: int)
    requires Mapped(m, th) && i < |th| && th[i].lo <= a < th[i].hi && a % 4 == 0
    ensures a in m
  {
  }

  /** Memory after a thread with stack t called swtch. */
  function CallMem(c: Cpu, slot: Word, new': Word, ret: Word): (m: Mem)
    requires c.esp >= 28
  {
    SavedMem(Call(c, slot, new', ret), slot)
  }

  lemma CallMemAt(c: Cpu, slot: Word, new': Word, ret: Word)
    requires c.esp >= 28 && slot in c.mem && !(c.esp - 28 <= slot < c.esp)
    requires c.esp - 4 in c.mem && c.esp - 8 in c.mem && c.esp - 12 in c.mem && c.esp - 16 in c.mem
    requires c.esp - 20 in c.mem && c.esp - 24 in c.mem && c.esp - 28 in c.mem
    ensures var m, e := CallMem(c, slot, new', ret), c.esp;
            && m.Keys == c.mem.Keys && At(m, slot) == e - 28
            && At(m, e - 28) == c.edi && At(m, e - 24) == c.esi && At(m, e - 20) == c.ebx && At(m, e - 16) == c.ebp
            && At(m, e - 12) == ret
            && (forall a: int :: !(e - 28 <= a < e) && a != slot ==> At(m, a) == At(c.mem, a))
  {
  }

  /** A call of swtch between two threads: the callee's frame is in place for it, the caller's is left behind. */
  lemma SwitchStep(th: seq<Thread>, c0: Cpu, i: nat, j: nat, ret: Word, f: Frame)
    requires Apart(th) && Mapped(c0.mem, th) && i < |th| && j < |th| && i != j
    requires 28 <= c0.esp && th[i].lo <= c0.esp - 28 && c0.esp <= th[i].hi && c0.esp % 4 == 0
    requires Suspended(c0.mem, th[j], f)
    ensures var c := Call(c0, th[i].slot, At(c0.mem, th[j].slot), ret);
            && Exec(c, Swtch(), 0).Some?
            && var t := Exec(c, Swtch(), 0).value;
               && Sees(t, f) && Within(c0.mem, t.mem, th[i]) && Suspended(t.mem, th[i], Left(c0, ret))
               && t.cs == c0.cs
  {
    hide Exec, Swtch, CallMem, SavedMem, Call, SwtchReady;
    var slot, n := th[i].slot, At(c0.mem, th[j].slot);
    StackWords(th, c0, i);
    CallReady(th, c0, i, j, ret, f);
    SwtchCall(c0, slot, n, ret);
    CallMemAt(c0, slot, n, ret);
    var m := CallMem(c0, slot, n, ret);
    assert Within(c0.mem, m, th[i]);
    OthersSpared(th, c0.mem, m, i, j);
    OthersKept(c0.mem, m, th[j], f);
  }

  lemma StackWords(th: seq<Thread>, c: Cpu, i: nat)
    requires Apart(th) && Mapped(c.mem, th) && i < |th|
    requires 28 <= c.esp && th[i].lo <= c.esp - 28 && c.esp <= th[i].hi && c.esp % 4 == 0
    ensures c.esp - 4 in c.mem && c.esp - 8 in c.mem && c.esp - 12 in c.mem && c.esp - 16 in c.mem
    ensures c.esp - 20 in c.mem && c.esp - 24 in c.mem && c.esp - 28 in c.mem
    ensures th[i].slot in c.mem && (th[i].slot < th[i].lo || th[i].hi <= th[i].slot)
  {
    StackWord(c.mem, th, i, c.esp - 4);
    StackWord(c.mem, th, i, c.esp - 8);
    StackWord(c.mem, th, i, c.esp - 12);
    StackWord(c.mem, th, i, c.esp - 16);
    StackWord(c.mem, th, i, c.esp - 20);
    StackWord(c.mem, th, i, c.esp - 24);
    StackWord(c.mem, th, i, c.esp - 28);
  }

  lemma FrameWords(th: seq<Thread>, m: Mem, j: nat, f: Frame)
    requires Mapped(m, th) && j < |th| && Suspended(m, th[j], f)
    ensures f.esp - 20 in m && f.esp - 16 in m && f.esp - 12 in m && f.esp - 8 in m && f.esp - 4 in m
    ensures f.esp < WORDS
  {
    StackWord(m, th, j, f.esp - 20);
    StackWord(m, th, j, f.esp - 16);
    StackWord(m, th, j, f.esp - 12);
    StackWord(m, th, j, f.esp - 8);
    StackWord(m, th, j, f.esp - 4);
  }

  /** The call pushes inside the caller's stack, so swtch finds all it needs. */
  lemma CallReady(th: seq<Thread>, c0: Cpu, i: nat, j: nat, ret: Word, f: Frame)
    requires Apart(th) && Mapped(c0.mem, th) && i < |th| && j < |th| && i != j
    requires 28 <= c0.esp && th[i].lo <= c0.esp - 28 && c0.esp <= th[i].hi && c0.esp % 4 == 0
    requires Suspended(c0.mem, th[j], f)
    ensures SwtchReady(Call(c0, th[i].slot, At(c0.mem, th[j].slot), ret))
  {
    StackWords(th, c0, i);
    FrameWords(th, c0.mem, j, f);
    hide Apart, Mapped;
  }

  /** swtch, entered by a call. */
  lemma SwtchCall(c0: Cpu, slot: Word, n: Word, ret: Word)
    requires c0.esp >= 28 && SwtchReady(Call(c0, slot, n, ret))
    requires c0.esp - 4 in c0.mem && c0.esp - 8 in c0.mem && c0.esp - 12 in c0.mem
    ensures Exec(Call(c0, slot, n, ret), Swtch(), 0).Some?
    ensures var t, m := Exec(Call(c0, slot, n, ret), Swtch(), 0).value, CallMem(c0, slot, n, ret);
            && t.mem == m && t.esp == n + 20 && t.cs == c0.cs
            && t.edi == At(m, n) && t.esi == At(m, n + 4) && t.ebx == At(m, n + 8)
            && t.ebp == At(m, n + 12) && t.eip == At(m, n + 16)
  {
    hide Exec, Swtch, SavedMem;
    SwtchRuns(Call(c0, slot, n, ret));
  }

  lemma InvStep(th: seq<Thread>, s: Sys, e: Event, s': Sys)
    requires Inv(th, s) && Step(th, s, e, s')
    ensures Inv(th, s')
    ensures e.Switch? ==> Sees(s'.cpu, s.frames[e.to])
  {
    hide Exec, Swtch, Call, Suspended;
    match e {
      case Work(c) =>
        forall i: nat | i < |th| && i != s.cur ensures Suspended(c.mem, th[i], s.frames[i]) {
          OthersKept(s.cpu.mem, c.mem, th[i], s.frames[i]);
        }
      case Switch(j, ret) =>
        SwitchStep(th, s.cpu, s.cur, j, ret, s.frames[j]);
        forall i: nat | i < |th| && i != s.cur ensures Suspended(s'.cpu.mem, th[i], s.frames[i]) {
          OthersSpared(th, s.cpu.mem, s'.cpu.mem, s.cur, i);
          OthersKept(s.cpu.mem, s'.cpu.mem, th[i], s.frames[i]);
        }
    }
  }

  ghost predicate IsRun(th: seq<Thread>, run: seq<Sys>, events: seq<Event>) {
    && |run| == |events| + 1 && Inv(th, run[0])
    && (forall k | 0 <= k < |events| :: Step(th, run[k], events[k], run[k + 1]))
  }

  lemma {:induction false} InvRun(th: seq<Thread>, run: seq<Sys>, events: seq<Event>, k: nat)
    requires IsRun(th, run, events) && k < |run|
    ensures Inv(th, run[k])
  {
    hide Inv, Step;
    if k > 0 {
      InvRun(th, run, events, k - 1);
      assert Step(th, run[k - 1], events[k - 1], run[k - 1 + 1]);
      InvStep(th, run[k - 1], events[k - 1], run[k]);
    }
  }

  /** While thread t is switched out, nobody changes what it is to find. */
  lemma {:induction false} FrameKept(th: seq<Thread>, run: seq<Sys>, events: seq<Event>, a: nat, b: nat, t: nat)
    requires IsRun(th, run, events) && a <= b < |run| && t < |th|
    requires forall k | a <= k < b :: run[k].cur != t
    ensures |run[a].frames| == |run[b].frames| == |th| && run[b].frames[t] == run[a].frames[t]
  {
    hide Suspended, Apart, Mapped, Exec, Swtch;
    InvRun(th, run, events, a);
    if a < b {
      FrameKept(th, run, events, a, b - 1, t);
      InvRun(th, run, events, b - 1);
      InvRun(th, run, events, b);
      assert Step(th, run[b - 1], events[b - 1], run[b - 1 + 1]);
    }
  }

  /**
    swtch is a coroutine switch: a thread that calls it at a and is next switched to at b, after
    any alternation of the other threads, whatever they did but for writing to its stack, finds its edi,
    esi, ebx and ebp, its return address, and its stack pointer back above its call's arguments.
   */
  lemma Coroutine(th: seq<Thread>, run: seq<Sys>, events: seq<Event>, a: nat, b: nat, t: nat)
    requires IsRun(th, run, events) && a < b < |events| && t < |th|
    requires run[a].cur == t && events[a].Switch? && (forall k | a < k <= b :: run[k].cur != t)
    requires events[b].Switch? && events[b].to == t
    ensures run[b + 1].cur == t && run[a].cpu.esp >= 28
    ensures Sees(run[b + 1].cpu, Left(run[a].cpu, events[a].ret))
  {
    hide Suspended, Apart, Mapped, Exec, Swtch;
    InvRun(th, run, events, a);
    InvRun(th, run, events, b);
    assert Step(th, run[a], events[a], run[a + 1]);
    assert Step(th, run[b], events[b], run[b + 1]);
    FrameKept(th, run, events, a + 1, b, t);
    InvStep(th, run[b], events[b], run[b + 1]);
  }
}

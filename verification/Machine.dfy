/**
  A small x86 machine: the instructions that kernel/swtch.asm and kernel/isr.asm are made of,
  and those routines as instruction sequences. Memory is the set of words that may be
  accessed; any other access is a fault (None).
 */
module Machine {
  import opened Layout

  type Mem = map<int, Word>

  datatype Reg = Eax | Ecx | Edx | Ebx | Ebp | Esi | Edi

  datatype Cpu = Cpu(
    eax: Word, ecx: Word, edx: Word, ebx: Word, ebp: Word, esi: Word, edi: Word,
    esp: Word, eip: Word, eflags: Word,
    cs: Word, ss: Word, ds: Word, es: Word, fs: Word, gs: Word,
    mem: Mem)

  function Get(s: Cpu, r: Reg): (w: Word) {
    match r
    case Eax => s.eax
    case Ecx => s.ecx
    case Edx => s.edx
    case Ebx => s.ebx
    case Ebp => s.ebp
    case Esi => s.esi
    case Edi => s.edi
  }

  function Set(s: Cpu, r: Reg, w: Word): (t: Cpu) {
    match r
    case Eax => s.(eax := w)
    case Ecx => s.(ecx := w)
    case Edx => s.(edx := w)
    case Ebx => s.(ebx := w)
    case Ebp => s.(ebp := w)
    case Esi => s.(esi := w)
    case Edi => s.(edi := w)
  }

  datatype Instr =
    | PushReg(r: Reg)
    | PopReg(r: Reg)
    | PushImm(w: Word)
    | PushEsp(n: nat)               // esp as it was n bytes ago
    | LoadArg(r: Reg, offset: nat)  // mov r, [esp+offset]
    | StoreEsp(r: Reg)              // mov [r], esp
    | SetEsp(r: Reg)                // mov esp, r
    | GetEsp(r: Reg)                // mov r, esp
    | AddEsp(n: nat)                // add esp, n
    | GetDs                         // mov eax, ds
    | SegsFromAx                    // mov ds, ax; mov es, ax; mov fs, ax; mov gs, ax
    | SetAx(w: Word)                // mov ax, w
    | Ret
    | Iret

  function Push(s: Cpu, w: Word): (t: Option<Cpu>) {
    if s.esp >= 4 && s.esp - 4 in s.mem then Some(s.(esp := s.esp - 4, mem := s.mem[s.esp - 4 := w])) else None
  }

  predicate MayPop(s: Cpu) {
    s.esp in s.mem && s.esp + 4 < WORDS
  }

  function Drop(s: Cpu): (t: Cpu)
    requires MayPop(s)
  {
    s.(esp := s.esp + 4)
  }

  /** iret to an outer privilege level also pops esp and ss. */
  function DoIret(s: Cpu): (t: Option<Cpu>) {
    if !MayPop(s) then None else
    var s1 := Drop(s).(eip := s.mem[s.esp]);
    if !MayPop(s1) then None else
    var s2 := Drop(s1).(cs := s1.mem[s1.esp]);
    if !MayPop(s2) then None else
    var s3 := Drop(s2).(eflags := s2.mem[s2.esp]);
    if s3.cs % 4 == s.cs % 4 then Some(s3) else
    if !MayPop(s3) then None else
    var s4 := Drop(s3);
    if !MayPop(s4) then None else
    Some(s4.(esp := s3.mem[s3.esp], ss := s4.mem[s4.esp]))
  }

  function Step(s: Cpu, i: Instr): (t: Option<Cpu>) {
    match i
    case PushReg(r) => Push(s, Get(s, r))
    case PushImm(w) => Push(s, w)
    case PushEsp(n) => if s.esp + n < WORDS then Push(s, s.esp + n) else None
    case PopReg(r) => if MayPop(s) then Some(Set(Drop(s), r, s.mem[s.esp])) else None
    case LoadArg(r, o) => if s.esp + o in s.mem then Some(Set(s, r, s.mem[s.esp + o])) else None
    case StoreEsp(r) => if Get(s, r) in s.mem then Some(s.(mem := s.mem[Get(s, r) := s.esp])) else None
    case SetEsp(r) => Some(s.(esp := Get(s, r)))
    case GetEsp(r) => Some(Set(s, r, s.esp))
    case AddEsp(n) => if s.esp + n < WORDS then Some(s.(esp := s.esp + n)) else None
    case GetDs => Some(s.(eax := s.ds))
    case SegsFromAx => var x := s.eax % 0x1_0000; Some(s.(ds := x, es := x, fs := x, gs := x))
    case SetAx(w) => Some(s.(eax := s.eax - s.eax % 0x1_0000 + w % 0x1_0000))
    case Ret => if MayPop(s) then Some(Drop(s).(eip := s.mem[s.esp])) else None
    case Iret => DoIret(s)
  }

  /** Runs code from instruction k on. */
  function Exec(s: Cpu, code: seq<Instr>, k: nat): (t: Option<Cpu>)
    decreases |code| - k
  {
    if k >= |code| then Some(s)
    else
      var t := Step(s, code[k]);
      if t.None? then None else Exec(t.value, code, k + 1)
  }

  function Swtch(): (code: seq<Instr>) {[
    LoadArg(Eax, 4), LoadArg(Edx, 8),
    PushReg(Ebp), PushReg(Ebx), PushReg(Esi), PushReg(Edi),
    StoreEsp(Eax), SetEsp(Edx),
    PopReg(Edi), PopReg(Esi), PopReg(Ebx), PopReg(Ebp), Ret]}

  /** The stub for vector n: a fake error code unless the CPU pushed one, then the number. */
  function Stub(n: Word, hasError: bool): (code: seq<Instr>) {
    if hasError then [PushImm(n)] else [PushImm(0), PushImm(n)]
  }

  /** isr_wrapper up to the call of isr_handler; pushad word by word. */
  function Wrapper(): (code: seq<Instr>) {[
    PushReg(Eax), PushReg(Ecx), PushReg(Edx), PushReg(Ebx), PushEsp(16), PushReg(Ebp), PushReg(Esi), PushReg(Edi),
    GetDs, PushReg(Eax), GetEsp(Eax), PushReg(Eax), SetAx(0x10), SegsFromAx]}

  /** trapret; popad word by word, passing over the saved esp. */
  function Trapret(): (code: seq<Instr>) {[
    PopReg(Eax), SegsFromAx,
    PopReg(Edi), PopReg(Esi), PopReg(Ebp), AddEsp(4), PopReg(Ebx), PopReg(Edx), PopReg(Ecx), PopReg(Eax),
    AddEsp(8), Iret]}

  /** Memory once swtch has pushed its frame on the old stack and stored esp at slot. */
  function SavedMem(s: Cpu, slot: int): (m: Mem)
    requires s.esp >= 16
  {
    s.mem[s.esp - 4 := s.ebp][s.esp - 8 := s.ebx][s.esp - 12 := s.esi][s.esp - 16 := s.edi][slot := s.esp - 16]
  }

  /** A word of memory; 0 where there is none. */
  function At(m: Mem, a: int): (w: Word) {
    if a in m then m[a] else 0
  }

  /** What swtch needs: its two arguments, room for four words, and a frame to switch to. */
  predicate SwtchReady(s: Cpu) {
    && 16 <= s.esp && s.esp + 8 in s.mem && s.esp + 4 in s.mem
    && s.esp - 4 in s.mem && s.esp - 8 in s.mem && s.esp - 12 in s.mem && s.esp - 16 in s.mem
    && At(s.mem, s.esp + 4) in s.mem
    && var n := At(s.mem, s.esp + 8);
       n + 20 < WORDS && n in s.mem && n + 4 in s.mem && n + 8 in s.mem && n + 12 in s.mem && n + 16 in s.mem
  }

  /** The old frame is in memory, and the new one is in the registers. */
  function AfterSwtch(s: Cpu): (t: Cpu)
    requires SwtchReady(s)
  {
    var slot, n := At(s.mem, s.esp + 4), At(s.mem, s.esp + 8);
    var m := SavedMem(s, slot);
    s.(eax := slot, edx := n, mem := m, esp := n + 20, edi := At(m, n), esi := At(m, n + 4), ebx := At(m, n + 8),
       ebp := At(m, n + 12), eip := At(m, n + 16))
  }

  lemma SwtchCode()
    ensures var c := Swtch();
            && |c| == 13 && c[0] == LoadArg(Eax, 4) && c[1] == LoadArg(Edx, 8)
            && c[2] == PushReg(Ebp) && c[3] == PushReg(Ebx) && c[4] == PushReg(Esi) && c[5] == PushReg(Edi)
            && c[6] == StoreEsp(Eax) && c[7] == SetEsp(Edx)
            && c[8] == PopReg(Edi) && c[9] == PopReg(Esi) && c[10] == PopReg(Ebx) && c[11] == PopReg(Ebp)
            && c[12] == Ret
  {
  }

  lemma Next(s: Cpu, code: seq<Instr>, k: nat, t: Cpu)
    requires k < |code| && Step(s, code[k]) == Some(t)
    ensures Exec(s, code, k) == Exec(t, code, k + 1)
  {
  }

  lemma PushNext(s: Cpu, code: seq<Instr>, k: nat, r: Reg)
    requires k < |code| && code[k] == PushReg(r) && s.esp >= 4 && s.esp - 4 in s.mem
    ensures Exec(s, code, k) == Exec(s.(esp := s.esp - 4, mem := s.mem[s.esp - 4 := Get(s, r)]), code, k + 1)
  {
  }

  lemma PopNext(s: Cpu, code: seq<Instr>, k: nat, r: Reg)
    requires k < |code| && code[k] == PopReg(r) && s.esp in s.mem && s.esp + 4 < WORDS
    ensures Exec(s, code, k) == Exec(Set(s.(esp := s.esp + 4), r, At(s.mem, s.esp)), code, k + 1)
  {
  }

  lemma Done(s: Cpu, code: seq<Instr>)
    ensures Exec(s, code, |code|) == Some(s)
  {
  }

  /** swtch never faults on such a state, and this is all it does. */
  lemma SwtchRuns(s: Cpu)
    requires SwtchReady(s)
    ensures Exec(s, Swtch(), 0) == Some(AfterSwtch(s))
  {
    hide Exec, Step, Swtch, SavedMem;
    var slot, n := At(s.mem, s.esp + 4), At(s.mem, s.esp + 8);
    SwtchSaves(s);
    SavedKeys(s, slot);
    SwtchPops(s.(eax := slot, edx := n, mem := SavedMem(s, slot), esp := n));
  }

  lemma SavedKeys(s: Cpu, slot: int)
    requires s.esp >= 16
    ensures forall a | a in s.mem :: a in SavedMem(s, slot)
  {
  }

  /** The half of swtch on the old stack. */
  lemma SwtchSaves(s: Cpu)
    requires SwtchReady(s)
    ensures var slot, n := At(s.mem, s.esp + 4), At(s.mem, s.esp + 8);
            Exec(s, Swtch(), 0) == Exec(s.(eax := slot, edx := n, mem := SavedMem(s, slot), esp := n), Swtch(), 8)
  {
    hide Exec, Step, Swtch;
    var slot, n, e := At(s.mem, s.esp + 4), At(s.mem, s.esp + 8), s.esp;
    var s2 := s.(eax := slot, edx := n);
    SwtchArgs(s);
    SwtchPushes(s2);
    SwtchStacks(s2.(esp := e - 16, mem := s.mem[e - 4 := s.ebp][e - 8 := s.ebx][e - 12 := s.esi][e - 16 := s.edi]));
  }

  lemma SwtchStacks(s: Cpu)
    requires s.eax in s.mem
    ensures Exec(s, Swtch(), 6) == Exec(s.(mem := s.mem[s.eax := s.esp], esp := s.edx), Swtch(), 8)
  {
    hide Exec, Swtch;
    SwtchCode();
    var s7 := s.(mem := s.mem[s.eax := s.esp]);
    Next(s, Swtch(), 6, s7);
    Next(s7, Swtch(), 7, s7.(esp := s.edx));
  }

  lemma SwtchArgs(s: Cpu)
    requires s.esp + 4 in s.mem && s.esp + 8 in s.mem
    ensures Exec(s, Swtch(), 0) == Exec(s.(eax := At(s.mem, s.esp + 4), edx := At(s.mem, s.esp + 8)), Swtch(), 2)
  {
    hide Exec, Swtch;
    SwtchCode();
    var s1 := s.(eax := At(s.mem, s.esp + 4));
    Next(s, Swtch(), 0, s1);
    Next(s1, Swtch(), 1, s1.(edx := At(s.mem, s.esp + 8)));
  }

  lemma SwtchPushes(s: Cpu)
    requires 16 <= s.esp && s.esp - 4 in s.mem && s.esp - 8 in s.mem && s.esp - 12 in s.mem && s.esp - 16 in s.mem
    ensures var m := s.mem[s.esp - 4 := s.ebp][s.esp - 8 := s.ebx][s.esp - 12 := s.esi][s.esp - 16 := s.edi];
            Exec(s, Swtch(), 2) == Exec(s.(esp := s.esp - 16, mem := m), Swtch(), 6)
  {
    hide Exec, Step, Swtch;
    PushTwo(s, 2, Ebp, Ebx);
    PushTwo(s.(esp := s.esp - 8, mem := s.mem[s.esp - 4 := s.ebp][s.esp - 8 := s.ebx]), 4, Esi, Edi);
  }

  lemma PushTwo(s: Cpu, k: nat, r: Reg, r': Reg)
    requires 8 <= s.esp && s.esp - 4 in s.mem && s.esp - 8 in s.mem
    requires (k == 2 && r == Ebp && r' == Ebx) || (k == 4 && r == Esi && r' == Edi)
    ensures Exec(s, Swtch(), k) ==
            Exec(s.(esp := s.esp - 8, mem := s.mem[s.esp - 4 := Get(s, r)][s.esp - 8 := Get(s, r')]), Swtch(), k + 2)
  {
    hide Exec, Step, Swtch;
    SwtchCode();
    PushNext(s, Swtch(), k, r);
    PushNext(s.(esp := s.esp - 4, mem := s.mem[s.esp - 4 := Get(s, r)]), Swtch(), k + 1, r');
  }

  lemma SwtchPops(s: Cpu)
    requires var n := s.esp;
             n + 20 < WORDS && n in s.mem && n + 4 in s.mem && n + 8 in s.mem && n + 12 in s.mem && n + 16 in s.mem
    ensures var m, n := s.mem, s.esp;
            Exec(s, Swtch(), 8) == Some(s.(esp := n + 20, edi := At(m, n), esi := At(m, n + 4), ebx := At(m, n + 8),
                                         ebp := At(m, n + 12), eip := At(m, n + 16)))
  {
    hide Exec, Step, Swtch;
    SwtchCode();
    var m, n := s.mem, s.esp;
    PopNext(s, Swtch(), 8, Edi);
    var s9 := s.(edi := At(m, n), esp := n + 4);
    PopNext(s9, Swtch(), 9, Esi);
    var s10 := s9.(esi := At(m, n + 4), esp := n + 8);
    PopNext(s10, Swtch(), 10, Ebx);
    var s11 := s10.(ebx := At(m, n + 8), esp := n + 12);
    PopNext(s11, Swtch(), 11, Ebp);
    RetNext(s11.(ebp := At(m, n + 12), esp := n + 16), Swtch(), 12);
  }

  lemma RetNext(s: Cpu, code: seq<Instr>, k: nat)
    requires k == |code| - 1 && code[k] == Ret && s.esp in s.mem && s.esp + 4 < WORDS
    ensures Exec(s, code, k) == Some(s.(eip := At(s.mem, s.esp), esp := s.esp + 4))
  {
  }
}

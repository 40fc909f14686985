/** Trap frames: what the stubs, isr_wrapper and trapret of kernel/isr.asm build and take apart. */
module Traps {
  import opened Layout
  import opened Machine

  /** struct interrupt_state. */
  datatype TrapFrame = TrapFrame(
    ds: Word, edi: Word, esi: Word, ebp: Word, useless: Word, ebx: Word, edx: Word, ecx: Word, eax: Word,
    intNo: Word, errCode: Word, eip: Word, cs: Word, eflags: Word, esp: Word, ss: Word)

  /** Memory at k holds the frame; one made by an interrupt of the kernel itself has no esp and ss. */
  ghost predicate FrameAt(m: Mem, k: int, tf: TrapFrame, fromUser: bool) {
    && k in m && k + 4 in m && k + 8 in m && k + 12 in m && k + 16 in m && k + 20 in m && k + 24 in m
    && k + 28 in m && k + 32 in m && k + 36 in m && k + 40 in m && k + 44 in m && k + 48 in m && k + 52 in m
    && At(m, k) == tf.ds && At(m, k + 4) == tf.edi && At(m, k + 8) == tf.esi && At(m, k + 12) == tf.ebp
    && At(m, k + 16) == tf.useless && At(m, k + 20) == tf.ebx && At(m, k + 24) == tf.edx
    && At(m, k + 28) == tf.ecx && At(m, k + 32) == tf.eax && At(m, k + 36) == tf.intNo && At(m, k + 40) == tf.errCode
    && At(m, k + 44) == tf.eip && At(m, k + 48) == tf.cs && At(m, k + 52) == tf.eflags
    && (fromUser ==> k + 56 in m && k + 60 in m && At(m, k + 56) == tf.esp && At(m, k + 60) == tf.ss)
  }

  /** Bytes of the frame. */
  function FrameSize(fromUser: bool): (n: nat) {
    if fromUser then 64 else 56
  }

  /** The CPU after a return through frame tf at k. */
  function Returned(s: Cpu, k: Word, tf: TrapFrame): (t: Cpu)
    requires k + 56 < WORDS
  {
    var x := tf.ds % 0x1_0000;
    var t := s.(edi := tf.edi, esi := tf.esi, ebp := tf.ebp, ebx := tf.ebx, edx := tf.edx, ecx := tf.ecx, eax := tf.eax,
                ds := x, es := x, fs := x, gs := x, eip := tf.eip, cs := tf.cs, eflags := tf.eflags);
    if tf.cs % 4 == s.cs % 4 then t.(esp := k + 56) else t.(esp := tf.esp, ss := tf.ss)
  }

  lemma TrapretCode()
    ensures var c := Trapret();
            && |c| == 12 && c[0] == PopReg(Eax) && c[1] == SegsFromAx
            && c[2] == PopReg(Edi) && c[3] == PopReg(Esi) && c[4] == PopReg(Ebp) && c[5] == AddEsp(4)
            && c[6] == PopReg(Ebx) && c[7] == PopReg(Edx) && c[8] == PopReg(Ecx) && c[9] == PopReg(Eax)
            && c[10] == AddEsp(8) && c[11] == Iret
  {
  }

  lemma AddNext(s: Cpu, code: seq<Instr>, k: nat, n: nat)
    requires k < |code| && code[k] == AddEsp(n) && s.esp + n < WORDS
    ensures Exec(s, code, k) == Exec(s.(esp := s.esp + n), code, k + 1)
  {
  }

  lemma SegsNext(s: Cpu, code: seq<Instr>, k: nat)
    requires k < |code| && code[k] == SegsFromAx
    ensures var x := s.eax % 0x1_0000;
            Exec(s, code, k) == Exec(s.(ds := x, es := x, fs := x, gs := x), code, k + 1)
  {
  }

  lemma IretLast(s: Cpu, code: seq<Instr>, k: nat)
    requires k == |code| - 1 && code[k] == Iret && s.esp + 12 < WORDS
    requires s.esp in s.mem && s.esp + 4 in s.mem && s.esp + 8 in s.mem
    requires At(s.mem, s.esp + 4) % 4 != s.cs % 4 ==> s.esp + 20 < WORDS && s.esp + 12 in s.mem && s.esp + 16 in s.mem
    ensures var m, e := s.mem, s.esp;
            Exec(s, code, k) ==
            var t := s.(eip := At(m, e), cs := At(m, e + 4), eflags := At(m, e + 8));
            Some(if t.cs % 4 == s.cs % 4 then t.(esp := e + 12) else t.(esp := At(m, e + 12), ss := At(m, e + 16)))
  {
  }

  /**
    trapret loads every register from the frame, touches no word outside it, and leaves the
    kernel stack just above it.
   */
  lemma TrapretRuns(s: Cpu, tf: TrapFrame)
    requires s.esp + 56 < WORDS && (tf.cs % 4 != s.cs % 4 ==> s.esp + 64 < WORDS)
    requires FrameAt(s.mem, s.esp, tf, tf.cs % 4 != s.cs % 4)
    ensures Exec(s, Trapret(), 0) == Some(Returned(s, s.esp, tf))
  {
    hide Exec, Step, Trapret;
    TrapretCode();
    var k, c := s.esp, Trapret();
    PopsLow(s, tf);
    var x := tf.ds % 0x1_0000;
    var s6 := s.(ds := x, es := x, fs := x, gs := x, edi := tf.edi, esi := tf.esi, ebp := tf.ebp, eax := tf.ds,
        esp := k + 20);
    PopsHigh(s6, k, tf);
    var s10 := s6.(ebx := tf.ebx, edx := tf.edx, ecx := tf.ecx, eax := tf.eax, esp := k + 36);
    AddNext(s10, c, 10, 8);
    IretLast(s10.(esp := k + 44), c, 11);
  }

  lemma PopsLow(s: Cpu, tf: TrapFrame)
    requires s.esp + 56 < WORDS && s.esp in s.mem && s.esp + 4 in s.mem && s.esp + 8 in s.mem && s.esp + 12 in s.mem
    requires At(s.mem, s.esp) == tf.ds && At(s.mem, s.esp + 4) == tf.edi && At(s.mem, s.esp + 8) == tf.esi
    requires At(s.mem, s.esp + 12) == tf.ebp
    ensures var x := tf.ds % 0x1_0000;
            Exec(s, Trapret(), 0) ==
            Exec(s.(ds := x, es := x, fs := x, gs := x, edi := tf.edi, esi := tf.esi, ebp := tf.ebp, eax := tf.ds,
                esp := s.esp + 20), Trapret(), 6)
  {
    hide Exec, Step, Trapret;
    TrapretCode();
    var k, c, x := s.esp, Trapret(), tf.ds % 0x1_0000;
    PopNext(s, c, 0, Eax);
    SegsNext(s.(eax := tf.ds, esp := k + 4), c, 1);
    var s2 := s.(eax := tf.ds, esp := k + 4, ds := x, es := x, fs := x, gs := x);
    PopNext(s2, c, 2, Edi);
    PopNext(s2.(edi := tf.edi, esp := k + 8), c, 3, Esi);
    PopNext(s2.(edi := tf.edi, esi := tf.esi, esp := k + 12), c, 4, Ebp);
    AddNext(s2.(edi := tf.edi, esi := tf.esi, ebp := tf.ebp, esp := k + 16), c, 5, 4);
  }

  lemma PopsHigh(s: Cpu, k: Word, tf: TrapFrame)
    requires k + 56 < WORDS && s.esp == k + 20
    requires k + 20 in s.mem && k + 24 in s.mem && k + 28 in s.mem && k + 32 in s.mem
    requires At(s.mem, k + 20) == tf.ebx && At(s.mem, k + 24) == tf.edx && At(s.mem, k + 28) == tf.ecx
             && At(s.mem, k + 32) == tf.eax
    ensures Exec(s, Trapret(), 6) ==
            Exec(s.(ebx := tf.ebx, edx := tf.edx, ecx := tf.ecx, eax := tf.eax, esp := k + 36), Trapret(), 10)
  {
    hide Exec, Step, Trapret;
    TrapretCode();
    var c := Trapret();
    PopNext(s, c, 6, Ebx);
    PopNext(s.(ebx := tf.ebx, esp := k + 24), c, 7, Edx);
    PopNext(s.(ebx := tf.ebx, edx := tf.edx, esp := k + 28), c, 8, Ecx);
    PopNext(s.(ebx := tf.ebx, edx := tf.edx, ecx := tf.ecx, esp := k + 32), c, 9, Eax);
  }

  // Building a frame: everything up to the call of isr_handler is pushes onto one stack.

  /** The address of word i below e. */
  function Below(e: int, i: nat): (a: int) {
    e - 4 * i
  }

  /** Room for n words below e. */
  ghost predicate Room(m: Mem, e: Word, n: nat) {
    4 * n <= e && forall i: nat | 1 <= i <= n :: Below(e, i) in m
  }

  /** m after pushing the words ws, one after the other, below e. */
  function Pushed(m: Mem, e: int, ws: seq<Word>): (r: Mem) {
    if ws == [] then m else Pushed(m, e, ws[..|ws| - 1])[Below(e, |ws|) := ws[|ws| - 1]]
  }

  lemma {:induction false} PushedAt(m: Mem, e: int, ws: seq<Word>, i: nat)
    requires 1 <= i <= |ws|
    ensures At(Pushed(m, e, ws), Below(e, i)) == ws[i - 1]
  {
    if i < |ws| {
      PushedAt(m, e, ws[..|ws| - 1], i);
    }
  }

  lemma {:induction false} PushedElsewhere(m: Mem, e: int, ws: seq<Word>, a: int)
    requires a >= e || a < Below(e, |ws|)
    ensures At(Pushed(m, e, ws), a) == At(m, a)
  {
    if ws != [] {
      PushedElsewhere(m, e, ws[..|ws| - 1], a);
    }
  }

  lemma {:induction false} PushedKeys(m: Mem, e: Word, ws: seq<Word>)
    requires Room(m, e, |ws|)
    ensures Pushed(m, e, ws).Keys == m.Keys
  {
    if ws != [] {
      PushedKeys(m, e, ws[..|ws| - 1]);
    }
  }

  /** State s with the first i words of ws on its stack, which started at e. */
  function Loaded(s: Cpu, e: Word, ws: seq<Word>, i: nat): (t: Cpu)
    requires i <= |ws| && 4 * |ws| <= e
  {
    s.(esp := e - 4 * i, mem := Pushed(s.mem, e, ws[..i]))
  }

  lemma LoadNext(s: Cpu, e: Word, ws: seq<Word>, i: nat)
    requires i < |ws| && Room(s.mem, e, |ws|)
    ensures Push(Loaded(s, e, ws, i), ws[i]) == Some(Loaded(s, e, ws, i + 1))
  {
    PushedKeys(s.mem, e, ws[..i]);
    assert ws[..i + 1][..i] == ws[..i];
    assert Below(e, i + 1) in s.mem;
  }

  /** From user mode the CPU starts a fresh kernel stack at esp0, from kernel mode it goes on with the current one. */
  function StackTop(s: Cpu, esp0: Word): (e: Word) {
    if s.cs % 4 == 3 then esp0 else s.esp
  }

  /** The words the CPU pushes before any error code. */
  function HardwareWords(s: Cpu): (ws: seq<Word>) {
    (if s.cs % 4 == 3 then [s.ss, s.esp] else []) + [s.eflags, s.cs, s.eip]
  }

  /** All that is pushed until isr_handler is called with its argument, the address of the frame. */
  function TrapWords(s: Cpu, e: Word, n: Word, errCode: Word): (ws: seq<Word>)
    requires e >= 128
  {
    var hw := HardwareWords(s);
    hw + [errCode, n, s.eax, s.ecx, s.edx, s.ebx, e - 4 * (|hw| + 2), s.ebp, s.esi, s.edi, s.ds, e - 4 * (|hw| + 11)]
  }

  /** The CPU's part of an interrupt: an interrupt gate (not a trap gate) also clears IF. */
  function Taken(s: Cpu, interruptGate: bool): (t: Cpu) {
    s.(cs := 0x08, ss := if s.cs % 4 == 3 then 0x10 else s.ss,
       eflags := if interruptGate && s.eflags / 0x200 % 2 == 1 then s.eflags - 0x200 else s.eflags)
  }

  function PushAll(s: Cpu, ws: seq<Word>, i: nat): (t: Option<Cpu>)
    decreases |ws| - i
  {
    if i >= |ws| then Some(s)
    else
      var t := Push(s, ws[i]);
      if t.None? then None else PushAll(t.value, ws, i + 1)
  }

  /** Interrupt n with its stub and isr_wrapper, up to the call of isr_handler. */
  function Enter(s: Cpu, esp0: Word, n: Word, errCode: Option<Word>, interruptGate: bool): (t: Option<Cpu>) {
    var hw := HardwareWords(s) + if errCode.Some? then [errCode.value] else [];
    var t := PushAll(Taken(s, interruptGate).(esp := StackTop(s, esp0)), hw, 0);
    if t.None? then None else
    var u := Exec(t.value, Stub(n, errCode.Some?), 0);
    if u.None? then None else Exec(u.value, Wrapper(), 0)
  }

  lemma {:induction false} PushAllLoads(s: Cpu, e: Word, ws: seq<Word>, hw: seq<Word>, i: nat)
    requires Room(s.mem, e, |ws|) && hw <= ws && i <= |hw|
    ensures PushAll(Loaded(s, e, ws, i), hw, i) == Some(Loaded(s, e, ws, |hw|))
    decreases |hw| - i
  {
    hide Pushed;
    if i < |hw| {
      LoadNext(s, e, ws, i);
      PushAllLoads(s, e, ws, hw, i + 1);
    }
  }

  lemma WrapperCode()
    ensures var c := Wrapper();
            && |c| == 14 && c[0] == PushReg(Eax) && c[1] == PushReg(Ecx) && c[2] == PushReg(Edx) && c[3] == PushReg(Ebx)
            && c[4] == PushEsp(16) && c[5] == PushReg(Ebp) && c[6] == PushReg(Esi) && c[7] == PushReg(Edi)
            && c[8] == GetDs && c[9] == PushReg(Eax) && c[10] == GetEsp(Eax) && c[11] == PushReg(Eax)
            && c[12] == SetAx(0x10) && c[13] == SegsFromAx
  {
  }

  /** A push instruction whose operand is the next word of ws. */
  lemma PushWord(s: Cpu, e: Word, ws: seq<Word>, i: nat, code: seq<Instr>, k: nat)
    requires i < |ws| && Room(s.mem, e, |ws|) && k < |code|
    requires || (code[k].PushReg? && Get(s, code[k].r) == ws[i])
             || (code[k].PushImm? && code[k].w == ws[i])
             || (code[k].PushEsp? && e - 4 * i + code[k].n == ws[i])
    ensures Exec(Loaded(s, e, ws, i), code, k) == Exec(Loaded(s, e, ws, i + 1), code, k + 1)
  {
    hide Pushed, Push;
    LoadNext(s, e, ws, i);
  }

  lemma StubRuns(s: Cpu, e: Word, ws: seq<Word>, b: nat, n: Word, hasError: bool)
    requires b + 2 <= |ws| && Room(s.mem, e, |ws|) && ws[b + 1] == n && (!hasError ==> ws[b] == 0)
    ensures Exec(Loaded(s, e, ws, if hasError then b + 1 else b), Stub(n, hasError), 0) == Some(Loaded(s, e, ws, b + 2))
  {
    hide Exec, Pushed;
    var c := Stub(n, hasError);
    if hasError {
      PushWord(s, e, ws, b + 1, c, 0);
    } else {
      PushWord(s, e, ws, b, c, 0);
      PushWord(s, e, ws, b + 1, c, 1);
    }
    Done(Loaded(s, e, ws, b + 2), c);
  }

  lemma PushadRuns(s: Cpu, e: Word, ws: seq<Word>, b: nat)
    requires |ws| == b + 12 && Room(s.mem, e, |ws|)
    requires ws[b + 2] == s.eax && ws[b + 3] == s.ecx && ws[b + 4] == s.edx && ws[b + 5] == s.ebx
    requires ws[b + 6] == e - 4 * (b + 2) && ws[b + 7] == s.ebp && ws[b + 8] == s.esi && ws[b + 9] == s.edi
    ensures Exec(Loaded(s, e, ws, b + 2), Wrapper(), 0) == Exec(Loaded(s, e, ws, b + 10), Wrapper(), 8)
  {
    hide Exec, Pushed, Wrapper;
    WrapperCode();
    var c := Wrapper();
    PushWord(s, e, ws, b + 2, c, 0);
    PushWord(s, e, ws, b + 3, c, 1);
    PushWord(s, e, ws, b + 4, c, 2);
    PushWord(s, e, ws, b + 5, c, 3);
    PushWord(s, e, ws, b + 6, c, 4);
    PushWord(s, e, ws, b + 7, c, 5);
    PushWord(s, e, ws, b + 8, c, 6);
    PushWord(s, e, ws, b + 9, c, 7);
  }

  /** isr_handler's view: its argument on top of the stack, the kernel's data segments loaded. */
  function Handling(s: Cpu, e: Word, ws: seq<Word>): (t: Cpu)
    requires 12 <= |ws| && 4 * |ws| <= e
  {
    var k := e - 4 * (|ws| - 1);
    Loaded(s, e, ws, |ws|).(eax := k - k % 0x1_0000 + 0x10, ds := 0x10, es := 0x10, fs := 0x10, gs := 0x10)
  }

  lemma WrapperTail(s: Cpu, e: Word, ws: seq<Word>, b: nat)
    requires |ws| == b + 12 && Room(s.mem, e, |ws|) && ws[b + 10] == s.ds && ws[b + 11] == e - 4 * (b + 11)
    ensures Exec(Loaded(s, e, ws, b + 10), Wrapper(), 8) == Some(Handling(s, e, ws))
  {
    hide Exec, Pushed, Wrapper;
    WrapperCode();
    var c, k := Wrapper(), e - 4 * (b + 11);
    var s1 := s.(eax := s.ds);
    Next(Loaded(s, e, ws, b + 10), c, 8, Loaded(s1, e, ws, b + 10));
    PushWord(s1, e, ws, b + 10, c, 9);
    var s2 := s.(eax := k);
    Next(Loaded(s1, e, ws, b + 11), c, 10, Loaded(s2, e, ws, b + 11));
    PushWord(s2, e, ws, b + 11, c, 11);
    var s3 := s.(eax := k - k % 0x1_0000 + 0x10);
    Next(Loaded(s2, e, ws, b + 12), c, 12, Loaded(s3, e, ws, b + 12));
    SegsNext(Loaded(s3, e, ws, b + 12), c, 13);
    LowHalf(k);
    Done(Handling(s, e, ws), c);
  }

  lemma LowHalf(k: Word)
    ensures (k - k % 0x1_0000 + 0x10) % 0x1_0000 == 0x10 && k - k % 0x1_0000 + 0x10 < WORDS
  {
  }

  lemma TrapWordsAt(s: Cpu, e: Word, n: Word, errCode: Word)
    requires e >= 128
    ensures var ws, b := TrapWords(s, e, n, errCode), |HardwareWords(s)|;
            && |ws| == b + 12 && b == (if s.cs % 4 == 3 then 5 else 3)
            && ws[..b] == HardwareWords(s)
            && ws[b - 1] == s.eip && ws[b - 2] == s.cs && ws[b - 3] == s.eflags
            && (s.cs % 4 == 3 ==> ws[b - 4] == s.esp && ws[b - 5] == s.ss)
            && ws[b] == errCode && ws[b + 1] == n
            && ws[b + 2] == s.eax && ws[b + 3] == s.ecx && ws[b + 4] == s.edx && ws[b + 5] == s.ebx
            && ws[b + 6] == e - 4 * (b + 2) && ws[b + 7] == s.ebp && ws[b + 8] == s.esi && ws[b + 9] == s.edi
            && ws[b + 10] == s.ds && ws[b + 11] == e - 4 * (b + 11)
  {
  }

  /** The frame that captures state s. */
  function FrameOfState(s: Cpu, n: Word, errCode: Word, useless: Word): (tf: TrapFrame) {
    TrapFrame(s.ds, s.edi, s.esi, s.ebp, useless, s.ebx, s.edx, s.ecx, s.eax, n, errCode, s.eip, s.cs, s.eflags,
        s.esp, s.ss)
  }

  /** The pushed words, read upwards from the frame's address, are struct interrupt_state. */
  lemma WordsAreFrame(s: Cpu, e: Word, n: Word, errCode: Word, m: Mem)
    requires e >= 128 && Room(m, e, |TrapWords(s, e, n, errCode)|)
    ensures var ws, b := TrapWords(s, e, n, errCode), |HardwareWords(s)|;
            FrameAt(Pushed(m, e, ws), e - 4 * (b + 11), FrameOfState(s, n, errCode, ws[b + 6]), s.cs % 4 == 3)
  {
    hide Pushed, TrapWords, HardwareWords;
    TrapWordsAt(s, e, n, errCode);
    var ws, b := TrapWords(s, e, n, errCode), |HardwareWords(s)|;
    PushedKeys(m, e, ws);
    forall i: nat | 1 <= i <= |ws|
      ensures At(Pushed(m, e, ws), Below(e, i)) == ws[i - 1] && Below(e, i) in Pushed(m, e, ws)
    {
      PushedAt(m, e, ws, i);
    }
    var k := e - 4 * (b + 11);
    assert k == Below(e, b + 11) && k + 4 == Below(e, b + 10) && k + 8 == Below(e, b + 9) && k + 12 == Below(e, b + 8);
    assert k + 16 == Below(e, b + 7) && k + 20 == Below(e, b + 6) && k + 24 == Below(e, b + 5)
        && k + 28 == Below(e, b + 4);
    assert k + 32 == Below(e, b + 3) && k + 36 == Below(e, b + 2) && k + 40 == Below(e, b + 1) && k + 44 == Below(e, b);
    assert k + 48 == Below(e, b - 1) && k + 52 == Below(e, b - 2);
    if s.cs % 4 == 3 {
      assert k + 56 == Below(e, b - 3) && k + 60 == Below(e, b - 4);
    }
  }

  /** From any state, user or kernel: the handler is called with the address of a frame that captures that state. */
  lemma TrapEntry(s: Cpu, esp0: Word, n: Word, errCode: Option<Word>, gate: bool)
    requires var e := StackTop(s, esp0);
             e >= 128 && Room(s.mem, e, |TrapWords(s, e, n, if errCode.Some? then errCode.value else 0)|)
    ensures var e, v := StackTop(s, esp0), if errCode.Some? then errCode.value else 0;
            var ws := TrapWords(s, e, n, v);
            Enter(s, esp0, n, errCode, gate) == Some(Handling(Taken(s, gate), e, ws))
  {
    hide Exec, Pushed, TrapWords, HardwareWords, Wrapper, Stub;
    var e, v := StackTop(s, esp0), if errCode.Some? then errCode.value else 0;
    var ws, t := TrapWords(s, e, n, v), Taken(s, gate);
    TrapWordsAt(s, e, n, v);
    var b := |HardwareWords(s)|;
    var hw := HardwareWords(s) + if errCode.Some? then [v] else [];
    assert hw <= ws by {
      assert ws[..b + 1] == ws[..b] + [ws[b]];
      assert hw == if errCode.Some? then ws[..b + 1] else ws[..b];
    }
    LoadedNone(t, e, ws);
    PushAllLoads(t, e, ws, hw, 0);
    StubRuns(t, e, ws, b, n, errCode.Some?);
    PushadRuns(t, e, ws, b);
    WrapperTail(t, e, ws, b);
  }

  /**
    What isr_handler finds, in the terms of the interrupted state alone: the offsets of struct
    interrupt_state, its address as the argument, the kernel's segments, and IF off exactly if the
    gate is an interrupt gate, every other flag as it was. No other word of memory is touched.
   */
  lemma HandlerView(s: Cpu, esp0: Word, n: Word, errCode: Option<Word>, gate: bool)
    requires StackTop(s, esp0) >= 128 && Room(s.mem, StackTop(s, esp0), if s.cs % 4 == 3 then 17 else 15)
    ensures Enter(s, esp0, n, errCode, gate).Some?
    ensures var t, user := Enter(s, esp0, n, errCode, gate).value, s.cs % 4 == 3;
            var m, k := t.mem, t.esp + 4;
            && (if user then k + 64 == esp0 else k + 56 == s.esp) && At(m, t.esp) == k
            && At(m, k) == s.ds && At(m, k + 4) == s.edi && At(m, k + 8) == s.esi && At(m, k + 12) == s.ebp
            && At(m, k + 20) == s.ebx && At(m, k + 24) == s.edx && At(m, k + 28) == s.ecx && At(m, k + 32) == s.eax
            && At(m, k + 36) == n && At(m, k + 40) == (if errCode.Some? then errCode.value else 0)
            && At(m, k + 44) == s.eip && At(m, k + 48) == s.cs && At(m, k + 52) == s.eflags
            && (user ==> At(m, k + 56) == s.esp && At(m, k + 60) == s.ss)
    ensures var t, user := Enter(s, esp0, n, errCode, gate).value, s.cs % 4 == 3;
            && t.cs == 0x08 && t.ss == (if user then 0x10 else s.ss)
            && t.ds == 0x10 && t.es == 0x10 && t.fs == 0x10 && t.gs == 0x10
            && t.ecx == s.ecx && t.edx == s.edx && t.ebx == s.ebx && t.ebp == s.ebp && t.esi == s.esi && t.edi == s.edi
            && (gate ==> t.eflags / 0x200 % 2 == 0) && (!gate ==> t.eflags == s.eflags)
            && t.eflags % 0x200 == s.eflags % 0x200 && t.eflags / 0x400 == s.eflags / 0x400
            && t.mem.Keys == s.mem.Keys
            && (forall a: int | a < t.esp || a >= (if user then esp0 else s.esp) :: At(t.mem, a) == At(s.mem, a))
  {
    hide Exec, Pushed, TrapWords, HardwareWords, Enter, Room, Taken;
    var e, w := StackTop(s, esp0), if errCode.Some? then errCode.value else 0;
    TrapWordsAt(s, e, n, w);
    TrapEntry(s, esp0, n, errCode, gate);
    WordsAreFrame(s, e, n, w, s.mem);
    TakenSegments(s, gate);
    TakenFlags(s, gate);
    var ws, b := TrapWords(s, e, n, w), |HardwareWords(s)|;
    assert ws[..|ws|] == ws;
    PushedAt(s.mem, e, ws, b + 12);
    PushedKeys(s.mem, e, ws);
    forall a: int | a < e - 4 * |ws| || a >= e ensures At(Pushed(s.mem, e, ws), a) == At(s.mem, a) {
      PushedElsewhere(s.mem, e, ws, a);
    }
  }

  lemma TakenFlags(s: Cpu, gate: bool)
    ensures var t := Taken(s, gate);
            && (gate ==> t.eflags / 0x200 % 2 == 0) && (!gate ==> t.eflags == s.eflags)
            && t.eflags % 0x200 == s.eflags % 0x200 && t.eflags / 0x400 == s.eflags / 0x400
            && t.ss == (if s.cs % 4 == 3 then 0x10 else s.ss)
            && t.ecx == s.ecx && t.edx == s.edx && t.ebx == s.ebx && t.ebp == s.ebp && t.esi == s.esi && t.edi == s.edi
  {
    var q, r := s.eflags / 0x400, s.eflags % 0x400;
    if gate && s.eflags / 0x200 % 2 == 1 {
      ModUnique(s.eflags, 0x200, 2 * q + r / 0x200, r % 0x200);
      ModUnique(s.eflags - 0x200, 0x200, 2 * q, r % 0x200);
      ModUnique(s.eflags - 0x200, 0x400, q, r - 0x200);
    }
  }

  lemma LoadedNone(s: Cpu, e: Word, ws: seq<Word>)
    requires 4 * |ws| <= e
    ensures Loaded(s, e, ws, 0) == s.(esp := e)
  {
  }

  /** add esp, 4 after the handler, then trapret. */
  function Leave(s: Cpu): (t: Option<Cpu>) {
    if s.esp + 4 < WORDS then Exec(s.(esp := s.esp + 4), Trapret(), 0) else None
  }

  /**
    A trap is transparent. From any state, user or kernel, with any error-code convention, and
    for any handler that returns with the stack pointer it was given and leaves the words of the
    frame alone except for writing v to its eax, whatever else it writes: the interrupted code
    goes on in the state it was in, with v in eax. Only es, fs and gs are not kept: they come back
    as ds.
   */
  lemma TrapTransparent(s: Cpu, esp0: Word, n: Word, errCode: Option<Word>, gate: bool, h: Cpu, v: Word)
    requires s.cs % 4 == 0 || s.cs % 4 == 3
    requires s.ds < 0x1_0000 && StackTop(s, esp0) >= 128
    requires Room(s.mem, StackTop(s, esp0), if s.cs % 4 == 3 then 17 else 15)
    requires Enter(s, esp0, n, errCode, gate).Some? ==>
             var t := Enter(s, esp0, n, errCode, gate).value;
             && h.esp == t.esp && h.cs == t.cs && h.ss == t.ss && h.mem.Keys == t.mem.Keys
             && (forall a: int | t.esp + 4 <= a < t.esp + 4 + FrameSize(s.cs % 4 == 3) ::
                   At(h.mem, a) == if a == t.esp + 4 + 32 then v else At(t.mem, a))
    ensures Leave(h).Some?
    ensures var r := Leave(h).value;
            r == s.(eax := v, es := s.ds, fs := s.ds, gs := s.ds, mem := h.mem)
  {
    hide Exec, Pushed, TrapWords, HardwareWords, Trapret, Enter, FrameAt, Returned, Room, Leave, Taken;
    var e, w := StackTop(s, esp0), if errCode.Some? then errCode.value else 0;
    TrapWordsAt(s, e, n, w);
    TrapEntry(s, esp0, n, errCode, gate);
    WordsAreFrame(s, e, n, w, s.mem);
    TakenSegments(s, gate);
    var ws, b := TrapWords(s, e, n, w), |HardwareWords(s)|;
    assert ws[..|ws|] == ws;
    var tf := FrameOfState(s, n, w, ws[b + 6]);
    var k := e - 4 * (b + 11);
    FrameCopied(Pushed(s.mem, e, ws), h.mem, k, tf, s.cs % 4 == 3, v);
    LeaveRuns(h, tf.(eax := v));
    ReturnedSame(s, h, k, n, w, ws[b + 6], v);
  }

  lemma TakenSegments(s: Cpu, gate: bool)
    ensures Taken(s, gate).cs == 0x08 && Taken(s, gate).mem == s.mem
    ensures s.cs % 4 != 3 ==> Taken(s, gate).ss == s.ss
  {
  }

  lemma LeaveRuns(h: Cpu, tf: TrapFrame)
    requires h.esp + 60 < WORDS && (tf.cs % 4 != h.cs % 4 ==> h.esp + 68 < WORDS)
    requires FrameAt(h.mem, h.esp + 4, tf, tf.cs % 4 != h.cs % 4)
    ensures Leave(h) == Some(Returned(h.(esp := h.esp + 4), h.esp + 4, tf))
  {
    hide Exec, Trapret, FrameAt, Returned;
    TrapretRuns(h.(esp := h.esp + 4), tf);
  }

  /** Returning through the frame that captured s gives s back. */
  lemma ReturnedSame(s: Cpu, h: Cpu, k: Word, n: Word, errCode: Word, useless: Word, v: Word)
    requires k + 56 < WORDS && s.ds < 0x1_0000 && h.cs == 0x08 && h.esp + 4 == k
    requires s.cs % 4 == 3 || (s.cs % 4 == 0 && s.esp == k + 56 && h.ss == s.ss)
    ensures Returned(h.(esp := k), k, FrameOfState(s, n, errCode, useless).(eax := v)) ==
            s.(eax := v, es := s.ds, fs := s.ds, gs := s.ds, mem := h.mem)
  {
  }

  lemma FrameCopied(m: Mem, m': Mem, k: int, tf: TrapFrame, fromUser: bool, v: Word)
    requires FrameAt(m, k, tf, fromUser) && m'.Keys == m.Keys
    requires forall a: int | k <= a < k + FrameSize(fromUser) :: At(m', a) == if a == k + 32 then v else At(m, a)
    ensures FrameAt(m', k, tf.(eax := v), fromUser)
  {
  }
}

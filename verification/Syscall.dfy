/** System call arguments (kernel/syscall.c), fetched through the page tables of the calling process. */
module Syscall {
  import opened Layout
  import opened Kalloc
  import opened PageTables
  import opened Lifecycle
  import opened Bytes
  import opened Proc
  import opened AddressSpaces

  /** What the fetch routines use of struct process: size, directory, and the user's esp in the trap frame. */
  datatype Process = Process(sz: Word, pgdir: nat, esp: Word)

  /** The process can access exactly the addresses below its size. */
  ghost predicate Space(m: Memory, p: Process) {
    && p.sz <= KERNBASE && p.pgdir < PAGES
    && (forall va: Word :: UserAccess(m, p.pgdir, va) <==> va < p.sz)
  }

  /** The process can access at least those. */
  ghost predicate Reaches(m: Memory, p: Process) {
    && p.sz <= KERNBASE && p.pgdir < PAGES
    && (forall va: Word | va < p.sz :: UserAccess(m, p.pgdir, va))
  }

  /**
    The first process, as initproc_init leaves it, can access its size whatever acpi is, and nothing
    else exactly when bit PTE_U of acpi is clear.
   */
  lemma InitprocSpace(m: Memory, owner: Owners, c: Platform, p: Pcb, stack: nat, u: nat, init: seq<Byte>,
                      trapret: Word, enterProcess: Word, esp: Word)
    requires Wired(c) && Apart(c, 3) && Linked(m, owner) && Ready(m, owner, c, p, stack, u, init, trapret, enterProcess)
    ensures Space(m, Process(p.sz, p.pgdir, esp)) <==> !User(c.acpi)
    ensures Reaches(m, Process(p.sz, p.pgdir, esp))
    ensures forall va: Word | va < p.sz :: UserByte(m, p.pgdir, va) == if va < |init| then init[va] else 0
  {
    hide UserAccess, UserByte, KernelHalf, UserPage, Forged, UserFrame, Apart, Lookup;
    InitSpace(m, owner, p.pgdir, u, c, init);
  }

  /** A byte read by the page walk of the hardware. It would fault where access is not allowed. */
  method LoadByte(m: Memory, p: Process, va: Word) returns (b: Byte)
    requires p.pgdir < PAGES && UserAccess(m, p.pgdir, va)
    ensures b == UserByte(m, p.pgdir, va)
  {
    var pde := m[p.pgdir][Pdx(va)];
    var pte := m[FrameOf(pde)][Ptx(va)];
    b := ByteAt(m[FrameOf(pte)], va % PGSIZE);
  }

  /** CDECL_ARG: the address of argument n, above the return address. */
  function ArgAddr(esp: Word, n: int): (a: Word) {
    Wrap(esp + Wrap(4 * Wrap(1 + n)))
  }

  lemma ArgAddrWraps(esp: Word, n: int)
    ensures ArgAddr(esp, n) == Wrap(esp + 4 + 4 * n)
  {
    WrapMul(1 + n);
    WrapAdd(esp, 4 * (1 + n));
  }

  lemma WrapMul(x: int)
    ensures Wrap(4 * Wrap(x)) == Wrap(4 * x)
  {
    var q := x / 0x1_0000_0000;
    assert 4 * x == 4 * Wrap(x) + 0x1_0000_0000 * (4 * q);
  }

  lemma WrapAdd(x: int, y: int)
    ensures Wrap(x + Wrap(y)) == Wrap(x + y)
  {
    var q := y / 0x1_0000_0000;
    assert x + y == x + Wrap(y) + 0x1_0000_0000 * q;
  }

  /** The little-endian word at a user address. */
  ghost function UserWord(m: Memory, d: nat, va: Word): (w: Word)
    requires va + 3 < WORDS
  {
    Pack(UserByte(m, d, va), UserByte(m, d, va + 1), UserByte(m, d, va + 2), UserByte(m, d, va + 3))
  }

  /** The word of argument n lies in the process. */
  ghost predicate ArgOk(p: Process, n: int) {
    ArgAddr(p.esp, n) + 4 <= p.sz
  }

  ghost function Arg(m: Memory, p: Process, n: int): (w: Word)
    requires ArgOk(p, n)
  {
    UserWord(m, p.pgdir, ArgAddr(p.esp, n))
  }

  /** Fetches argument n; None is the result -1. Every byte it reads is one the process may read itself. */
  method Fetchint(m: Memory, p: Process, n: int) returns (r: Option<Word>)
    requires Reaches(m, p)
    ensures r.Some? <==> ArgOk(p, n)
    ensures r.Some? ==> r.value == Arg(m, p, n)
  {
    hide UserAccess, UserByte, ArgAddr;
    var addr := ArgAddr(p.esp, n);
    if addr >= p.sz || Wrap(addr + 4) > p.sz {
      return None;
    }
    var b0 := LoadByte(m, p, addr);
    var b1 := LoadByte(m, p, addr + 1);
    var b2 := LoadByte(m, p, addr + 2);
    var b3 := LoadByte(m, p, addr + 3);
    return Some(Pack(b0, b1, b2, b3));
  }

  /**
    What sysarg_get_ptr accepts: a pointer into the process, to a block that ends in it or beyond
    the address space.
   */
  ghost predicate PtrAccepted(m: Memory, p: Process, n: int, size: Word) {
    ArgOk(p, n) && Arg(m, p, n) < p.sz && (Arg(m, p, n) + size <= p.sz || Arg(m, p, n) + size >= WORDS)
  }

  /** Fetches argument n as a pointer to size bytes. */
  method SysargGetPtr(m: Memory, p: Process, n: int, size: Word) returns (r: Option<Word>)
    requires Reaches(m, p)
    ensures r.Some? <==> PtrAccepted(m, p, n, size)
    ensures r.Some? ==> r.value == Arg(m, p, n)
  {
    hide UserAccess, UserByte, ArgAddr, Pack;
    var i := Fetchint(m, p, n);
    if i.None? {
      return None;
    }
    PtrCheck(p.sz, i.value, size);
    if i.value >= p.sz || Wrap(i.value + size) > p.sz {
      return None;
    }
    return i;
  }

  /**
    The check of sysarg_get_ptr accepts a block that does not lie in the process exactly when
    the end of the block is beyond the address space: the sum wraps below the pointer.
   */
  lemma PtrCheck(sz: Word, i: Word, size: Word)
    ensures i < sz && Wrap(i + size) <= sz <==> i < sz && (i + size <= sz || i + size >= WORDS)
    ensures i < sz && Wrap(i + size) <= sz ==> (i + size <= sz <==> i + size < WORDS)
  {
    if i + size >= WORDS {
      assert Wrap(i + size) == i + size - WORDS;
    }
  }

  /** What is accepted lies in the process if and only if the end of the block does not wrap. */
  lemma PtrInside(m: Memory, p: Process, n: int, size: Word)
    requires PtrAccepted(m, p, n, size)
    ensures Arg(m, p, n) + size <= p.sz <==> Arg(m, p, n) + size < WORDS
  {
  }

  /** In a one-page process a pointer argument of 0x10 is accepted with a size of 2^32 - 8. */
  lemma PtrCheckWraps(m: Memory, p: Process, n: int)
    requires p.sz == PGSIZE && ArgOk(p, n) && Arg(m, p, n) == 0x10
    ensures PtrAccepted(m, p, n, 0xFFFF_FFF8) && Arg(m, p, n) + 0xFFFF_FFF8 > p.sz
  {
  }

  /** Finds the nul-terminated string at addr and returns its length, or -1 if it does not end inside the process. */
  method Fetchstr(m: Memory, p: Process, addr: Word) returns (len: int)
    requires Reaches(m, p)
    ensures len == -1 <==> addr >= p.sz || (forall a: Word | addr <= a < p.sz :: UserByte(m, p.pgdir, a) != 0)
    ensures len != -1 ==>
              && 0 <= len && addr + len < p.sz && UserByte(m, p.pgdir, addr + len) == 0
              && (forall a: Word | addr <= a < addr + len :: UserByte(m, p.pgdir, a) != 0)
  {
    hide UserAccess, UserByte;
    if addr >= p.sz {
      return -1;
    }
    var s: Word := addr;
    while s < p.sz
      invariant addr <= s <= p.sz
      invariant forall a: Word | addr <= a < s :: UserByte(m, p.pgdir, a) != 0
    {
      var b := LoadByte(m, p, s);
      if b == 0 {
        return s - addr;
      }
      s := s + 1;
    }
    return -1;
  }

  /** Fetches argument n as a string: its address and its length. */
  method SysargGetStr(m: Memory, p: Process, n: int) returns (addr: Word, len: int)
    requires Reaches(m, p)
    ensures ArgAddr(p.esp, n) + 4 > p.sz ==> len == -1
    ensures len != -1 ==>
              && ArgAddr(p.esp, n) + 4 <= p.sz && addr == UserWord(m, p.pgdir, ArgAddr(p.esp, n))
              && 0 <= len && addr + len < p.sz && UserByte(m, p.pgdir, addr + len) == 0
              && (forall a: Word | addr <= a < addr + len :: UserByte(m, p.pgdir, a) != 0)
    ensures ArgAddr(p.esp, n) + 4 <= p.sz && len == -1 ==>
              var i := UserWord(m, p.pgdir, ArgAddr(p.esp, n));
              i >= p.sz || forall a: Word | i <= a < p.sz :: UserByte(m, p.pgdir, a) != 0
  {
    hide UserAccess, UserByte, ArgAddr, Pack;
    var i := Fetchint(m, p, n);
    if i.None? {
      return 0, -1;
    }
    addr := i.value;
    len := Fetchstr(m, p, addr);
  }

  const SYS_HELLO: Word := 1
  const SYS_EXIT: Word := 2
  const SYSFAIL: Word := 0xFFFF_FFFF

  /** How a system call ends: eax for the caller, or no return at all. */
  datatype Outcome = Return(eax: Word) | Exit(status: Word)

  /** Some byte at or above a and inside the process is 0. */
  ghost predicate Terminated(m: Memory, p: Process, a: Word) {
    exists b: Word :: a <= b < p.sz && UserByte(m, p.pgdir, b) == 0
  }

  /** The three arguments sys_hello insists on: an int, eight bytes of memory, a string. */
  ghost predicate HelloArgs(m: Memory, p: Process) {
    && ArgOk(p, 0)
    && ArgOk(p, 1) && Arg(m, p, 1) < p.sz && Arg(m, p, 1) + 8 <= p.sz
    && ArgOk(p, 2) && Arg(m, p, 2) < p.sz && Terminated(m, p, Arg(m, p, 2))
  }

  method SysHello(m: Memory, p: Process) returns (eax: Word)
    requires Reaches(m, p)
    ensures eax == if HelloArgs(m, p) then 0 else 0xFFFF_FFFF
  {
    hide UserAccess, UserByte, ArgAddr, Pack;
    var i := Fetchint(m, p, 0);
    if i.None? {
      return SYSFAIL;
    }
    var q := SysargGetPtr(m, p, 1, 8);
    if q.None? {
      return SYSFAIL;
    }
    var str, len := SysargGetStr(m, p, 2);
    if len < 0 {
      return SYSFAIL;
    }
    return 0;
  }

  /** The dispatch on eax: anything but the two known calls fails. */
  method SyscallHandler(m: Memory, p: Process, num: Word) returns (r: Outcome)
    requires Reaches(m, p)
    ensures r.Exit? <==> num == 2 && ArgOk(p, 0)
    ensures r.Exit? ==> r.status == Arg(m, p, 0)
    ensures r.Return? ==> r.eax == if num == 1 && HelloArgs(m, p) then 0 else 0xFFFF_FFFF
  {
    hide UserAccess, UserByte, ArgAddr, Pack, HelloArgs;
    if num == SYS_HELLO {
      var eax := SysHello(m, p);
      return Return(eax);
    } else if num == SYS_EXIT {
      var n := Fetchint(m, p, 0);
      if n.Some? {
        return Exit(n.value);
      }
    }
    return Return(SYSFAIL);
  }
}
